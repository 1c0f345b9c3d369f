/** How a log line is put together in its fixed buffer before it goes to the ring. */
module Formatting {
  import opened Wire
  import opened RingThreads

  /** The room the next fragment is given: what is left is reduced by all that was written so far. */
  function Room(avail: nat, cur: nat): nat {
    if avail > cur then avail - cur else 0
  }

  /** What a fragment leaves behind: itself if it fits with its terminator, otherwise the room
      filled up, with the terminator as the last byte. */
  function Piece(room: nat, frag: Bytes): (p: Bytes)
    ensures |p| == if room > |frag| then |frag| else room
    ensures forall k | 0 <= k < |p| :: p[k] == if k == room - 1 then 0 else frag[k]
  {
    if |frag| < room then frag else if room == 0 then [] else frag[..room - 1] + [0]
  }

  /** The fragments a line is made of, one after another from the state the ones before left. */
  function Composed(avail: nat, cur: nat, frags: seq<Bytes>): Bytes
    decreases |frags|
  {
    if frags == [] then []
    else
      var room := Room(avail, cur);
      var piece := Piece(room, frags[0]);
      piece + Composed(room, cur + |piece|, frags[1..])
  }

  /** However many fragments of whatever lengths, the line never outgrows the buffer. */
  lemma {:induction false} ComposedFits(avail: nat, cur: nat, frags: seq<Bytes>)
    ensures cur + |Composed(avail, cur, frags)| <= if avail > cur then avail else cur
    decreases |frags|
  {
    if frags != [] {
      var room := Room(avail, cur);
      ComposedFits(room, cur + |Piece(room, frags[0])|, frags[1..]);
    }
  }

  /** The `_snprintf` macro for a fragment that formats without an error. */
  method Snprintf(buf: array<Byte>, avail: nat, cur: nat, frag: Bytes) returns (avail': nat, cur': nat)
    requires buf.Length == MSG_SIZE && avail <= MSG_SIZE && cur <= MSG_SIZE
    modifies buf
    ensures avail' == Room(avail, cur) && cur <= cur' <= MSG_SIZE && avail' <= MSG_SIZE
    ensures buf[..cur'] == old(buf[..cur]) + Piece(avail', frag)
  {
    avail' := if avail > cur then avail - cur else 0;
    var printed := if avail' == 0 then 0 else if |frag| < avail' then |frag| else avail' - 1;
    forall i | 0 <= i < printed {
      buf[cur + i] := frag[i];
    }
    assert buf[..cur + printed] == old(buf[..cur]) + frag[..printed];
    if avail' > 0 {
      buf[cur + printed] := 0;
    }
    assert buf[..cur + printed] == old(buf[..cur]) + frag[..printed];
    cur' := cur + (if avail' > |frag| then |frag| else avail');
  }

  /** The three fragments of `put`: time, thread and level; the message; the place and a newline. */
  method Compose(head: Bytes, body: Bytes, tail: Bytes) returns (line: Bytes)
    ensures line == Composed(MSG_SIZE, 0, [head, body, tail])
    ensures Cut(line) == line
  {
    var buf := new Byte[MSG_SIZE](_ => 0);
    var avail1, cur1 := Snprintf(buf, MSG_SIZE, 0, head);
    ghost var p := Piece(MSG_SIZE, head);
    assert buf[..cur1] == p;
    var avail2, cur2 := Snprintf(buf, avail1, cur1, body);
    ghost var q := Piece(Room(MSG_SIZE, |p|), body);
    assert buf[..cur2] == p + q && cur2 == |p + q|;
    var avail3, cur3 := Snprintf(buf, avail2, cur2, tail);
    line := buf[..cur3];
    ThreePieces(head, body, tail);
    ComposedFits(MSG_SIZE, 0, [head, body, tail]);
  }

  lemma ThreePieces(head: Bytes, body: Bytes, tail: Bytes)
    ensures var p := Piece(MSG_SIZE, head);
            var q := Piece(Room(MSG_SIZE, |p|), body);
            var s := Piece(Room(Room(MSG_SIZE, |p|), |p| + |q|), tail);
            Composed(MSG_SIZE, 0, [head, body, tail]) == p + q + s
  {
    var p := Piece(MSG_SIZE, head);
    var room := Room(MSG_SIZE, |p|);
    var q := Piece(room, body);
    assert [head, body, tail][1..] == [body, tail] && [body, tail][1..] == [tail] && [tail][1..] == [];
    var s := Piece(Room(room, |p| + |q|), tail);
    assert Composed(room, |p| + |q|, [tail]) == s + [] == s;
    assert Composed(MSG_SIZE, |p|, [body, tail]) == q + s;
    assert Composed(MSG_SIZE, 0, [head, body, tail]) == p + (q + s);
    Assoc(p, q, s);
  }

  predicate Text(bs: Bytes) {
    forall i | 0 <= i < |bs| :: bs[i] != 0
  }

  /** A line is complete exactly when its first fragment fits twice over with the other two: room is
      taken off for it a second time, so a line can be cut that the buffer would have held. */
  lemma CompleteIff(head: Bytes, body: Bytes, tail: Bytes)
    requires Text(head) && Text(body) && Text(tail) && tail != []
    ensures Composed(MSG_SIZE, 0, [head, body, tail]) == head + body + tail
            <==> 2 * |head| + |body| + |tail| < MSG_SIZE
  {
    ThreePieces(head, body, tail);
    var room2 := Room(MSG_SIZE, |head|);
    var room3 := Room(room2, |head| + |body|);
    var (p, q, s) := (Piece(MSG_SIZE, head), Piece(Room(MSG_SIZE, |Piece(MSG_SIZE, head)|), body), Piece(room3, tail));
    if |head| >= MSG_SIZE {
      CutShows(MSG_SIZE, head, [], q + Piece(Room(Room(MSG_SIZE, |p|), |p| + |q|), tail), body + tail);
      Assoc(p, q, Piece(Room(Room(MSG_SIZE, |p|), |p| + |q|), tail));
      Assoc(head, body, tail);
    } else if |body| >= room2 {
      CutShows(room2, body, head, Piece(Room(room2, |p| + |q|), tail), tail);
    } else if |tail| >= room3 {
      Assoc(head, body, s);
      assert |p + q + s| == |head| + |body| + room3;
      CutEnd(room3, tail, head + body);
    }
  }

  /** A fragment that is cut shows, wherever it stands in a line. */
  lemma CutShows(room: nat, frag: Bytes, front: Bytes, rest: Bytes, rest': Bytes)
    requires 0 < room <= |frag| && Text(frag)
    ensures front + Piece(room, frag) + rest != front + frag + rest'
    ensures front == [] ==> Piece(room, frag) + rest != frag + rest'
  {
    var i := |front| + room - 1;
    assert (front + Piece(room, frag) + rest)[i] == 0 && (front + frag + rest')[i] == frag[room - 1];
    if front == [] {
      assert (Piece(room, frag) + rest)[room - 1] == 0 && (frag + rest')[room - 1] == frag[room - 1];
    }
  }

  lemma CutEnd(room: nat, frag: Bytes, front: Bytes)
    requires room <= |frag| && Text(frag) && frag != []
    ensures front + Piece(room, frag) != front + frag
  {
    if room > 0 {
      assert (front + Piece(room, frag))[|front| + room - 1] == 0;
      assert (front + frag)[|front| + room - 1] == frag[room - 1];
    } else {
      assert |front + Piece(room, frag)| < |front + frag|;
    }
  }

  /** A line of 4000 bytes, in a buffer of 4096, that comes out cut. */
  lemma CutThoughItWouldFit()
    ensures var (head, body, tail) := (seq(120, _ => 1), seq(3840, _ => 2), seq(40, _ => 3));
            && |head + body + tail| == 4000 < MSG_SIZE
            && Composed(MSG_SIZE, 0, [head, body, tail]) != head + body + tail
  {
    CompleteIff(seq(120, _ => 1), seq(3840, _ => 2), seq(40, _ => 3));
  }
}
