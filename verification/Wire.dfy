/** Bytes, fixed-width little-endian integers, and the byte buffer with a cursor that every
    encoder and decoder of the server fills and drains. */
module Wire {

  type Byte = b: int | 0 <= b < 256
  type Bytes = seq<Byte>

  datatype Option<+T> = None | Some(value: T)

  const U8_SIZE := 1
  const I32_SIZE := 4
  const U64_SIZE := 8
  const TWO_31 := 0x8000_0000
  const TWO_64 := 0x1_0000_0000_0000_0000

  function Pow256(w: nat): (p: nat)
    ensures p >= 1
  {
    if w == 0 then 1 else 256 * Pow256(w - 1)
  }

  lemma Pow256Values()
    ensures Pow256(I32_SIZE) == 2 * TWO_31
    ensures Pow256(U64_SIZE) == TWO_64
  {
    assert Pow256(2) == 0x1_0000;
    assert Pow256(4) == 0x1_0000 * 0x1_0000;
    assert Pow256(6) == 0x1_0000 * 0x1_0000 * 0x1_0000;
  }

  /** The `w` low-order bytes of `n`, least significant first. */
  function LE(n: nat, w: nat): (bs: Bytes)
    ensures |bs| == w
  {
    if w == 0 then [] else [n % 256] + LE(n / 256, w - 1)
  }

  function FromLE(bs: Bytes): nat {
    if bs == [] then 0 else bs[0] + 256 * FromLE(bs[1..])
  }

  lemma {:induction false} FromLEOfLE(n: nat, w: nat)
    requires n < Pow256(w)
    ensures FromLE(LE(n, w)) == n
  {
    if w > 0 {
      FromLEOfLE(n / 256, w - 1);
      assert LE(n, w)[1..] == LE(n / 256, w - 1);
    }
  }

  lemma LowByte(b: Byte, n: nat)
    ensures (b + 256 * n) % 256 == b && (b + 256 * n) / 256 == n
  {
  }

  lemma {:induction false} LEOfFromLE(bs: Bytes)
    ensures FromLE(bs) < Pow256(|bs|)
    ensures LE(FromLE(bs), |bs|) == bs
  {
    if bs != [] {
      LEOfFromLE(bs[1..]);
      LowByte(bs[0], FromLE(bs[1..]));
    }
  }

  lemma Divides(x: nat, n: nat, q: nat, r: nat)
    requires r < n && x == q * n + r
    ensures x / n == q && x % n == r
  {
    var d := x / n - q;
    assert x == (x / n) * n + x % n;
    assert d * n == (x / n) * n - q * n;
    if d >= 1 {
      AtLeast(d, n);
    } else if d <= -1 {
      AtLeast(-d, n);
    }
  }

  lemma AtLeast(d: int, n: nat)
    requires d >= 1
    ensures d * n >= n
  {
  }

  lemma DivTwice(n: nat, p: nat)
    requires 0 < p
    ensures 0 < 256 * p && (n / 256) / p == n / (256 * p)
  {
    var (q, r) := (n / 256, n % 256);
    var (a, b) := (q / p, q % p);
    assert n == 256 * q + r && q == a * p + b;
    assert a * (256 * p) == 256 * (a * p);
    Divides(n, 256 * p, a, 256 * b + r);
  }

  /** The `k`-th byte written for `n` is its `k`-th digit to the base 256, the lowest first. */
  lemma {:induction false} LEByte(n: nat, w: nat, k: nat)
    requires k < w
    ensures LE(n, w)[k] == n / Pow256(k) % 256
  {
    if k > 0 {
      LEByte(n / 256, w - 1, k - 1);
      DivTwice(n, Pow256(k - 1));
    }
  }

  lemma Assoc<T>(a: seq<T>, b: seq<T>, c: seq<T>)
    ensures a + b + c == a + (b + c) && b + [] == b && (a + b) + [] == a + b
  {
  }

  lemma HeadTail<T>(s: seq<T>)
    requires s != []
    ensures [s[0]] + s[1..] == s
  {
  }

  lemma TakeSnoc<T>(s: seq<T>, k: nat)
    requires k < |s|
    ensures s[..k + 1] == s[..k] + [s[k]]
  {
  }

  /** A buffer of fixed size with a cursor. Writers append at the cursor, readers take from it. */
  class Buffer {
    const data: array<Byte>
    var pos: nat

    ghost predicate Valid()
      reads this
    {
      pos <= data.Length
    }

    ghost function Written(): Bytes
      requires Valid()
      reads this, data
    {
      data[..pos]
    }

    ghost function Rest(): Bytes
      requires Valid()
      reads this, data
    {
      data[pos..]
    }

    constructor Alloc(size: nat)
      ensures Valid() && fresh(data) && data.Length == size && Written() == []
    {
      data := new Byte[size](_ => 0);
      pos := 0;
    }

    constructor Wrap(bs: Bytes)
      ensures Valid() && fresh(data) && data[..] == bs && Rest() == bs && pos == 0
    {
      data := new Byte[|bs|](i requires 0 <= i < |bs| => bs[i]);
      pos := 0;
      new;
      assert data[..] == bs;
    }

    /** The caller must leave room: the original throws when the buffer is full. */
    method PutRaw(bs: Bytes)
      requires Valid() && pos + |bs| <= data.Length
      modifies this`pos, data
      ensures Valid() && Written() == old(Written()) + bs
    {
      forall i | 0 <= i < |bs| {
        data[pos + i] := bs[i];
      }
      pos := pos + |bs|;
    }

    method PutUint(n: nat, w: nat)
      requires Valid() && pos + w <= data.Length
      modifies this`pos, data
      ensures Valid() && Written() == old(Written()) + LE(n, w)
    {
      PutRaw(LE(n, w));
    }

    /** `None` where the original throws because the bytes left are too few; nothing moves then. */
    method GetRaw(n: nat) returns (r: Option<Bytes>)
      requires Valid()
      modifies this`pos
      ensures Valid()
      ensures n <= |old(Rest())| ==> r == Some(old(Rest())[..n]) && Rest() == old(Rest())[n..]
      ensures n > |old(Rest())| ==> r == None && Rest() == old(Rest())
    {
      if n > data.Length - pos {
        return None;
      }
      r := Some(data[pos..pos + n]);
      pos := pos + n;
      assert r.value == old(Rest())[..n];
    }

    method GetUint(w: nat) returns (r: Option<nat>)
      requires Valid()
      modifies this`pos
      ensures Valid()
      ensures w <= |old(Rest())| ==> r == Some(FromLE(old(Rest())[..w])) && Rest() == old(Rest())[w..]
      ensures w > |old(Rest())| ==> r == None && Rest() == old(Rest())
    {
      var raw := GetRaw(w);
      r := if raw.Some? then Some(FromLE(raw.value)) else None;
    }
  }
}
