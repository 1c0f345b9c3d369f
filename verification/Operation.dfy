/** The replicated commands and their wire form. */
module Operation {
  import opened Wire

  const PUT: Byte := 0
  const UPDATE: Byte := 1
  const DELETE: Byte := 2

  /** The tag is kept as the byte it is on the wire: decoding accepts any tag. */
  datatype Op = Op(kind: Byte, key: Bytes, value: Option<Bytes>)

  predicate CarriesValue(kind: Byte) {
    kind == PUT || kind == UPDATE
  }

  /** What the three makers and the decoder produce, with lengths that fit the 64-bit prefix. */
  predicate WellFormed(op: Op) {
    && (op.value.Some? <==> CarriesValue(op.kind))
    && |op.key| < TWO_64
    && (op.value.Some? ==> |op.value.value| < TWO_64)
  }

  function MakePut(key: Bytes, value: Bytes): Op {
    Op(PUT, key, Some(value))
  }

  function MakeUpdate(key: Bytes, value: Bytes): Op {
    Op(UPDATE, key, Some(value))
  }

  function MakeDelete(key: Bytes): Op {
    Op(DELETE, key, None)
  }

  function EncodeSlice(data: Bytes): Bytes {
    LE(|data|, U64_SIZE) + data
  }

  function EncodeValue(op: Op): Bytes {
    if op.value.Some? then EncodeSlice(op.value.value) else []
  }

  function Encode(op: Op): Bytes {
    [op.kind] + EncodeSlice(op.key) + EncodeValue(op)
  }

  /** The slice at the front of `bs` and what follows it. */
  function DecodeSlice(bs: Bytes): Option<(Bytes, Bytes)> {
    if |bs| < U64_SIZE then None
    else
      var len := FromLE(bs[..U64_SIZE]);
      if |bs| - U64_SIZE < len then None
      else Some((bs[U64_SIZE..U64_SIZE + len], bs[U64_SIZE + len..]))
  }

  /** The command at the front of `bs` and what follows it; the original ignores what follows. */
  function Decode(bs: Bytes): Option<(Op, Bytes)> {
    if bs == [] then None
    else
      match DecodeSlice(bs[1..])
      case None => None
      case Some((key, rest)) =>
        if CarriesValue(bs[0]) then
          match DecodeSlice(rest)
          case None => None
          case Some((value, rest')) => Some((Op(bs[0], key, Some(value)), rest'))
        else Some((Op(bs[0], key, None), rest))
  }

  /** `owned_slice::serialize`. */
  method PutSlice(buf: Buffer, data: Bytes)
    requires buf.Valid() && buf.pos + U64_SIZE + |data| <= buf.data.Length
    modifies buf`pos, buf.data
    ensures buf.Valid() && buf.Written() == old(buf.Written()) + EncodeSlice(data)
  {
    buf.PutUint(|data|, U64_SIZE);
    buf.PutRaw(data);
  }

  /** `splinterdb_operation::serialize`: the size is computed first, and is filled to the last byte. */
  method Serialize(op: Op) returns (buf: Buffer)
    ensures fresh(buf) && fresh(buf.data) && buf.Valid()
    ensures buf.data[..] == Encode(op) && buf.pos == buf.data.Length
  {
    var size := U8_SIZE + U64_SIZE + |op.key|;
    if op.value.Some? {
      size := size + U64_SIZE + |op.value.value|;
    }
    buf := new Buffer.Alloc(size);
    buf.PutUint(op.kind, U8_SIZE);
    assert buf.Written() == [op.kind];
    PutSlice(buf, op.key);
    if op.value.Some? {
      PutSlice(buf, op.value.value);
    }
    assert buf.Written() == Encode(op);
    assert buf.data[..] == buf.Written();
  }

  /** `owned_slice::deserialize`. */
  method GetSlice(buf: Buffer) returns (r: Option<Bytes>)
    requires buf.Valid()
    modifies buf`pos
    ensures buf.Valid()
    ensures match DecodeSlice(old(buf.Rest()))
            case None => r == None
            case Some((data, rest)) => r == Some(data) && buf.Rest() == rest
  {
    ghost var all := buf.Rest();
    var len := buf.GetUint(U64_SIZE);
    if len == None {
      return None;
    }
    r := buf.GetRaw(len.value);
    assert r.Some? ==> r.value == all[U64_SIZE..U64_SIZE + len.value];
  }

  /** `splinterdb_operation::deserialize`, which starts at the front of the payload. */
  method Deserialize(payload: Bytes) returns (r: Option<Op>)
    ensures r == match Decode(payload) case None => None case Some((op, _)) => Some(op)
  {
    var buf := new Buffer.Wrap(payload);
    var kind := buf.GetRaw(U8_SIZE);
    if kind == None {
      return None;
    }
    assert buf.Rest() == payload[1..];
    var key := GetSlice(buf);
    if key == None {
      return None;
    }
    if !CarriesValue(kind.value[0]) {
      return Some(Op(kind.value[0], key.value, None));
    }
    var value := GetSlice(buf);
    if value == None {
      return None;
    }
    return Some(Op(kind.value[0], key.value, value));
  }

  lemma DecodeEncodedSlice(data: Bytes, rest: Bytes)
    requires |data| < TWO_64
    ensures DecodeSlice(EncodeSlice(data) + rest) == Some((data, rest))
  {
    var bs := EncodeSlice(data) + rest;
    Pow256Values();
    FromLEOfLE(|data|, U64_SIZE);
    assert bs[..U64_SIZE] == LE(|data|, U64_SIZE);
    assert bs[U64_SIZE..U64_SIZE + |data|] == data;
    assert bs[U64_SIZE + |data|..] == rest;
  }

  lemma EncodeDecodedSlice(bs: Bytes)
    requires DecodeSlice(bs).Some?
    ensures var (data, rest) := DecodeSlice(bs).value;
            |data| < TWO_64 && EncodeSlice(data) + rest == bs
  {
    Pow256Values();
    LEOfFromLE(bs[..U64_SIZE]);
  }

  lemma EncodeShape(op: Op, rest: Bytes)
    ensures Encode(op) + rest == [op.kind] + (EncodeSlice(op.key) + (EncodeValue(op) + rest))
  {
    Assoc([op.kind] + EncodeSlice(op.key), EncodeValue(op), rest);
    Assoc([op.kind], EncodeSlice(op.key), EncodeValue(op) + rest);
  }

  /** Where each byte of an encoding comes from: the tag, the key's length in eight bytes, the key, and
      then the same of the value if there is one. */
  lemma EncodedBytes(op: Op, i: nat)
    ensures var (k, bs) := (|op.key|, Encode(op));
            && |bs| == 9 + k + (if op.value.Some? then 8 + |op.value.value| else 0)
            && (i < |bs| ==>
                  bs[i] == if i == 0 then op.kind
                           else if i < 9 then k / Pow256(i - 1) % 256
                           else if i < 9 + k then op.key[i - 9]
                           else if i < 17 + k then |op.value.value| / Pow256(i - 9 - k) % 256
                           else op.value.value[i - 17 - k])
  {
    var k := |op.key|;
    if 0 < i < 9 {
      LEByte(k, U64_SIZE, i - 1);
    } else if 9 + k <= i < 17 + k && op.value.Some? {
      LEByte(|op.value.value|, U64_SIZE, i - 9 - k);
    }
  }

  /** Decoding undoes encoding, whatever bytes come after the command. */
  lemma DecodeEncode(op: Op, rest: Bytes)
    requires WellFormed(op)
    ensures Decode(Encode(op) + rest) == Some((op, rest))
  {
    EncodeShape(op, rest);
    DecodeEncodedSlice(op.key, EncodeValue(op) + rest);
    if op.value.Some? {
      DecodeEncodedSlice(op.value.value, rest);
    } else {
      assert EncodeValue(op) + rest == rest;
    }
  }

  /** Encoding undoes decoding: what decodes, known tag or not, is an encoding followed by what was left over. */
  lemma EncodeDecode(bs: Bytes)
    requires Decode(bs).Some?
    ensures var (op, rest) := Decode(bs).value; WellFormed(op) && Encode(op) + rest == bs
  {
    EncodeDecodedSlice(bs[1..]);
    var (key, rest) := DecodeSlice(bs[1..]).value;
    var (op, rest') := Decode(bs).value;
    if CarriesValue(bs[0]) {
      EncodeDecodedSlice(rest);
    }
    assert EncodeValue(op) + rest' == rest;
    EncodeShape(op, rest');
  }

  /** A payload is reproduced by decoding and re-encoding it exactly when decoding leaves nothing over. */
  lemma CanonicalIffNothingLeft(bs: Bytes)
    requires Decode(bs).Some?
    ensures Encode(Decode(bs).value.0) == bs <==> Decode(bs).value.1 == []
  {
    EncodeDecode(bs);
    var (op, rest) := Decode(bs).value;
    assert |Encode(op) + rest| == |Encode(op)| + |rest|;
  }

  /** No encoding is a proper prefix of another, so encodings can be told apart when concatenated. */
  lemma PrefixFree(a: Op, b: Op)
    requires WellFormed(a) && WellFormed(b)
    requires Encode(a) <= Encode(b)
    ensures a == b
  {
    var rest := Encode(b)[|Encode(a)|..];
    assert Encode(a) + rest == Encode(b) + [];
    DecodeEncode(a, rest);
    DecodeEncode(b, []);
  }

  /** A payload cut anywhere short of its end never decodes. */
  lemma TruncatedNeverDecodes(op: Op, n: nat)
    requires WellFormed(op) && n < |Encode(op)|
    ensures Decode(Encode(op)[..n]) == None
  {
    var cut := Encode(op)[..n];
    if Decode(cut).Some? {
      EncodeDecode(cut);
      var (op', rest) := Decode(cut).value;
      Assoc(Encode(op'), rest, Encode(op)[n..]);
      PrefixFree(op', op);
      assert false;
    }
  }
}
