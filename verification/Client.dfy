/** The client's loops: retried mutations, leader discovery with doubling delays, round-robin reads.
    Whatever the servers answer is a function the loops are run against. */
module Client {
  import opened Wire

  const NO_LIVE_LEADER := -1
  const NOT_LEADER := -3
  const REQUEST_CANCELLED := -1
  const WEIRD_CASE := 999

  /** A mutating call raises, or answers with the store's and Raft's return codes. */
  datatype Reply = Raised | Answer(rc: int, raft: int)

  /** A leader query raises, or names a leader. */
  datatype Probe = Fails | Says(leader: int)

  /** `reply(k, id)` is what server `id` answers attempt `k`; `probe(k, id, i)` is what server `id`
      answers the `i`-th query of the discovery that follows attempt `k`. */
  datatype Network = Network(reply: (nat, int) -> Reply, probe: (nat, int, nat) -> Probe)

  // ---- Delays ----

  function Pow2(k: nat): nat {
    if k == 0 then 1 else 2 * Pow2(k - 1)
  }

  /** A 64-bit delay doubled. */
  function Doubled(ms: nat): nat
    requires ms < TWO_64
  {
    if 2 * ms < TWO_64 then 2 * ms else 2 * ms - TWO_64
  }

  /** The delay before which `k` delays have been slept. */
  function Delay(k: nat): (ms: nat)
    ensures ms < TWO_64
  {
    if k == 0 then 100 else Doubled(Delay(k - 1))
  }

  /** How long a delay is slept: the duration it becomes is signed and has 64 bits, and a negative
      one is over at once. */
  function Sleep(ms: nat): nat
    requires ms < TWO_64
  {
    if 2 * ms < TWO_64 then ms else 0
  }

  /** The milliseconds that the first `k` sleeps take. */
  function Slept(k: nat): nat {
    if k == 0 then 0 else Slept(k - 1) + Sleep(Delay(k - 1))
  }

  /** `k` sleeps take 100 (2^k - 1) ms exactly while the delay is a positive duration, which is up to
      57 of them; the 58th is no sleep at all, and from then on they take less. */
  lemma {:induction false} SleptIff(k: nat)
    ensures Slept(k) <= 100 * (Pow2(k) - 1) && Delay(k) <= 100 * Pow2(k)
    ensures Slept(k) == 100 * (Pow2(k) - 1) <==> k <= 57
  {
    if k > 0 {
      SleptIff(k - 1);
      if k <= 58 {
        DelayTo57(k - 1);
        Pow2At57();
        if k <= 57 {
          Pow2Grows(k, 57);
        }
      }
    }
  }

  lemma Pow2At57()
    ensures Pow2(57) == 0x200_0000_0000_0000
  {
    assert Pow2(10) == 1024;
    Pow2Sum(10, 10);
    Pow2Sum(20, 20);
    Pow2Sum(40, 10);
    assert Pow2(7) == 128;
    Pow2Sum(50, 7);
  }

  lemma {:induction false} Pow2Sum(a: nat, b: nat)
    ensures Pow2(a + b) == Pow2(a) * Pow2(b)
  {
    if b > 0 {
      Pow2Sum(a, b - 1);
    }
  }

  lemma {:induction false} Pow2Grows(a: nat, b: nat)
    requires a <= b
    ensures Pow2(a) <= Pow2(b)
    decreases b - a
  {
    if a < b {
      Pow2Grows(a + 1, b);
    }
  }

  lemma {:induction false} DelayTo57(k: nat)
    requires k <= 57
    ensures Delay(k) == 100 * Pow2(k)
  {
    if k > 0 {
      DelayTo57(k - 1);
      Pow2At57();
      Pow2Grows(k, 57);
    }
  }

  // ---- The client ----

  /** How many times server `id`, asked at most `retries` times, answers that there is no live leader. */
  function Refusals(net: Network, k: nat, id: int, retries: nat): (n: nat)
    ensures n <= retries
    ensures forall i: nat | i < n :: net.probe(k, id, i) == Says(NO_LIVE_LEADER)
    ensures n < retries ==> net.probe(k, id, n) != Says(NO_LIVE_LEADER)
  {
    if retries == 0 then 0
    else
      var n := Refusals(net, k, id, retries - 1);
      if n == retries - 1 && net.probe(k, id, n) == Says(NO_LIVE_LEADER) then retries else n
  }

  /** Server `id` has refused as often as it is asked, or raised before. */
  predicate Exhausted(net: Network, k: nat, id: int, retries: nat) {
    var n := Refusals(net, k, id, retries);
    n == retries || net.probe(k, id, n) == Fails
  }

  /** The first of the first `m` servers that is not exhausted but names a leader, `m` if none does. */
  function FirstToName(net: Network, k: nat, ids: seq<int>, retries: nat, m: nat): (s: nat)
    requires m <= |ids|
    ensures s <= m && (forall a | 0 <= a < s :: Exhausted(net, k, ids[a], retries))
    ensures s < m ==> !Exhausted(net, k, ids[s], retries)
  {
    if m == 0 then 0
    else
      var s := FirstToName(net, k, ids, retries, m - 1);
      if s == m - 1 && Exhausted(net, k, ids[s], retries) then m else s
  }

  /** The leader that one server names after the servers before it were exhausted, if any does. */
  function Named(net: Network, k: nat, ids: seq<int>, retries: nat): Option<int> {
    var s := FirstToName(net, k, ids, retries, |ids|);
    if s == |ids| then None else Some(net.probe(k, ids[s], Refusals(net, k, ids[s], retries)).leader)
  }

  /** Server `id` refuses `m` queries and then raises or is asked no more. */
  ghost predicate GivesUpAfter(net: Network, k: nat, id: int, retries: nat, m: nat) {
    && m <= retries
    && (forall i: nat | i < m :: net.probe(k, id, i) == Says(NO_LIVE_LEADER))
    && (m == retries || net.probe(k, id, m) == Fails)
  }

  ghost predicate GivesUp(net: Network, k: nat, id: int, retries: nat) {
    exists m: nat :: GivesUpAfter(net, k, id, retries, m)
  }

  /** Server `s` refuses `n` queries and then names `leader`, after all servers before it gave up. */
  ghost predicate NamesFirst(net: Network, k: nat, ids: seq<int>, retries: nat, s: nat, n: nat, leader: int) {
    && s < |ids| && n < retries
    && (forall a | 0 <= a < s :: GivesUp(net, k, ids[a], retries))
    && (forall i: nat | i < n :: net.probe(k, ids[s], i) == Says(NO_LIVE_LEADER))
    && net.probe(k, ids[s], n) == Says(leader) && leader != NO_LIVE_LEADER
  }

  lemma ExhaustedIff(net: Network, k: nat, id: int, retries: nat)
    ensures Exhausted(net, k, id, retries) <==> GivesUp(net, k, id, retries)
  {
    if Exhausted(net, k, id, retries) {
      assert GivesUpAfter(net, k, id, retries, Refusals(net, k, id, retries));
    }
  }

  /** A leader is found exactly when some server names it after those before it gave up. */
  lemma NamedIff(net: Network, k: nat, ids: seq<int>, retries: nat, leader: int)
    ensures Named(net, k, ids, retries) == Some(leader)
            <==> exists s: nat, n: nat :: NamesFirst(net, k, ids, retries, s, n, leader)
  {
    var t := FirstToName(net, k, ids, retries, |ids|);
    forall a | 0 <= a < |ids| ensures Exhausted(net, k, ids[a], retries) <==> GivesUp(net, k, ids[a], retries) {
      ExhaustedIff(net, k, ids[a], retries);
    }
    if Named(net, k, ids, retries) == Some(leader) {
      assert NamesFirst(net, k, ids, retries, t, Refusals(net, k, ids[t], retries), leader);
    }
    if s: nat, n: nat :| NamesFirst(net, k, ids, retries, s, n, leader) {
      assert Refusals(net, k, ids[s], retries) == n;
      assert !Exhausted(net, k, ids[s], retries);
      assert t == s;
    }
  }

  /** None is found exactly when all give up. */
  lemma NoneNamedIff(net: Network, k: nat, ids: seq<int>, retries: nat)
    ensures Named(net, k, ids, retries) == None
            <==> forall s | 0 <= s < |ids| :: GivesUp(net, k, ids[s], retries)
  {
    forall s | 0 <= s < |ids| ensures Exhausted(net, k, ids[s], retries) <==> GivesUp(net, k, ids[s], retries) {
      ExhaustedIff(net, k, ids[s], retries);
    }
  }

  /** How many refusals come from the first `s` servers when they are exhausted. */
  function TotalRefusals(net: Network, k: nat, ids: seq<int>, retries: nat, s: nat): nat
    requires s <= |ids|
  {
    if s == 0 then 0 else TotalRefusals(net, k, ids, retries, s - 1) + Refusals(net, k, ids[s - 1], retries)
  }

  /** How many queries those make: a server that raises is asked once more than it refused. */
  function TotalQueries(net: Network, k: nat, ids: seq<int>, retries: nat, s: nat): nat
    requires s <= |ids|
  {
    if s == 0 then 0
    else
      var n := Refusals(net, k, ids[s - 1], retries);
      TotalQueries(net, k, ids, retries, s - 1) + (if n < retries then n + 1 else n)
  }

  lemma {:induction false} TotalBounds(net: Network, k: nat, ids: seq<int>, retries: nat, s: nat)
    requires s <= |ids|
    ensures TotalQueries(net, k, ids, retries, s) <= s * retries
    ensures TotalRefusals(net, k, ids, retries, s) + s <= s * (retries + 1)
  {
    if s > 0 {
      TotalBounds(net, k, ids, retries, s - 1);
      assert s * retries == (s - 1) * retries + retries;
      assert s * (retries + 1) == (s - 1) * (retries + 1) + retries + 1;
    }
  }

  /** The queries of a search: the last one is the one that names the leader. */
  function Queries(net: Network, k: nat, ids: seq<int>, retries: nat): (n: nat)
    ensures n <= |ids| * retries
  {
    var s := FirstToName(net, k, ids, retries, |ids|);
    TotalBounds(net, k, ids, retries, s);
    if s == |ids| then TotalQueries(net, k, ids, retries, s)
    else
      AtMost(s, |ids|, retries);
      TotalQueries(net, k, ids, retries, s) + Refusals(net, k, ids[s], retries) + 1
  }

  /** The sleeps of a search: one follows every refusal and every server given up. */
  function Sleeps(net: Network, k: nat, ids: seq<int>, retries: nat): (n: nat)
    ensures n <= |ids| * (retries + 1)
  {
    var s := FirstToName(net, k, ids, retries, |ids|);
    TotalBounds(net, k, ids, retries, s);
    if s == |ids| then TotalRefusals(net, k, ids, retries, s) + s
    else
      AtMost(s, |ids|, retries + 1);
      TotalRefusals(net, k, ids, retries, s) + s + Refusals(net, k, ids[s], retries)
  }

  /** How many of the first `s` servers, all exhausted, were asked as often as allowed. */
  function Persistent(net: Network, k: nat, ids: seq<int>, retries: nat, s: nat): nat
    requires s <= |ids|
  {
    if s == 0 then 0
    else Persistent(net, k, ids, retries, s - 1) + (if Refusals(net, k, ids[s - 1], retries) == retries then 1 else 0)
  }

  lemma {:induction false} TotalsDiffer(net: Network, k: nat, ids: seq<int>, retries: nat, s: nat)
    requires s <= |ids|
    ensures TotalRefusals(net, k, ids, retries, s) + s
            == TotalQueries(net, k, ids, retries, s) + Persistent(net, k, ids, retries, s)
  {
    if s > 0 {
      TotalsDiffer(net, k, ids, retries, s - 1);
    }
  }

  /** Every query but the one that names the leader is followed by a sleep, and one more follows when a
      server is given up without having raised. */
  lemma SleepsFollowQueries(net: Network, k: nat, ids: seq<int>, retries: nat)
    ensures Sleeps(net, k, ids, retries) + (if Named(net, k, ids, retries).Some? then 1 else 0)
            == Queries(net, k, ids, retries)
               + Persistent(net, k, ids, retries, FirstToName(net, k, ids, retries, |ids|))
  {
    TotalsDiffer(net, k, ids, retries, FirstToName(net, k, ids, retries, |ids|));
  }

  /** Of two servers allowed two refusals, the first refuses and then raises, and the second refuses
      and then names itself: four queries and three sleeps, 700 ms in all. */
  lemma SearchExample(net: Network, k: nat)
    requires net.probe(k, 1, 0) == net.probe(k, 2, 0) == Says(NO_LIVE_LEADER)
    requires net.probe(k, 1, 1) == Fails && net.probe(k, 2, 1) == Says(2)
    ensures Named(net, k, [1, 2], 2) == Some(2)
    ensures Queries(net, k, [1, 2], 2) == 4 && Sleeps(net, k, [1, 2], 2) == 3 && Slept(3) == 700
  {
    assert Refusals(net, k, 1, 2) == 1 && Refusals(net, k, 2, 2) == 1;
    assert FirstToName(net, k, [1, 2], 2, 2) == 1;
    assert TotalRefusals(net, k, [1, 2], 2, 1) == 1 && TotalQueries(net, k, [1, 2], 2, 1) == 2;
    assert Delay(0) == 100 && Delay(1) == 200 && Delay(2) == 400;
    assert Slept(1) == 100 && Slept(2) == 300;
  }

  lemma AtMost(s: nat, n: nat, m: nat)
    requires s < n
    ensures s * m + m <= n * m
  {
    assert (s + 1) * m <= n * m;
  }

  /** How a turn of the retry loop ends. */
  datatype Turn = Throws | Ends(result: (int, int)) | GoesOn(result: (int, int))

  class Client {
    /** The connected servers in the order of their ids. */
    const clients: seq<int>
    const numRetries: nat
    var leaderId: int

    constructor (clients: seq<int>, numRetries: nat, leaderId: int)
      ensures this.clients == clients && this.numRetries == numRetries && this.leaderId == leaderId
    {
      this.clients, this.numRetries, this.leaderId := clients, numRetries, leaderId;
    }

    /** Sleeps for the delay and doubles it. */
    method Pause(sleeps0: nat, slept0: nat, delay0: nat) returns (sleeps: nat, slept: nat, delayMs: nat)
      requires slept0 == Slept(sleeps0) && delay0 == Delay(sleeps0)
      ensures sleeps == sleeps0 + 1 && slept == Slept(sleeps) && delayMs == Delay(sleeps)
    {
      slept := slept0 + Sleep(delay0);
      delayMs := Doubled(delay0);
      sleeps := sleeps0 + 1;
    }

    /** The inner loop of `get_leader_id`: the leader server `id` names, or `None` where it is given up.
        Takes the sleeps so far and the next delay along, and counts the queries. */
    method QueryServer(net: Network, k: nat, id: int, sleeps0: nat, slept0: nat, delay0: nat)
      returns (r: Option<int>, calls: nat, sleeps: nat, slept: nat, delayMs: nat)
      requires slept0 == Slept(sleeps0) && delay0 == Delay(sleeps0)
      ensures slept == Slept(sleeps) && delayMs == Delay(sleeps)
      ensures var n := Refusals(net, k, id, numRetries);
              && sleeps == sleeps0 + n && calls == (if n < numRetries then n + 1 else n)
              && (r == None <==> Exhausted(net, k, id, numRetries))
              && (r.Some? ==> net.probe(k, id, n) == Says(r.value))
    {
      calls, sleeps, slept, delayMs := 0, sleeps0, slept0, delay0;
      for i := 0 to numRetries
        invariant i <= Refusals(net, k, id, numRetries) && calls == i && sleeps == sleeps0 + i
        invariant slept == Slept(sleeps) && delayMs == Delay(sleeps)
      {
        calls := calls + 1;
        var probe := net.probe(k, id, i);
        if probe.Fails? {
          return None, calls, sleeps, slept, delayMs;
        }
        if probe.leader != NO_LIVE_LEADER {
          return Some(probe.leader), calls, sleeps, slept, delayMs;
        }
        sleeps, slept, delayMs := Pause(sleeps, slept, delayMs);
      }
      r := None;
    }

    /** `None` where the original throws. Also counts the queries made, the sleeps and the time slept. */
    method GetLeaderId(net: Network, k: nat) returns (r: Option<int>, calls: nat, sleeps: nat, slept: nat)
      ensures r == Named(net, k, clients, numRetries)
      ensures calls == Queries(net, k, clients, numRetries) && sleeps == Sleeps(net, k, clients, numRetries)
      ensures slept == Slept(sleeps)
    {
      calls, sleeps, slept := 0, 0, 0;
      var delayMs := 100;
      for s := 0 to |clients|
        invariant s <= FirstToName(net, k, clients, numRetries, |clients|)
        invariant calls == TotalQueries(net, k, clients, numRetries, s)
        invariant sleeps == TotalRefusals(net, k, clients, numRetries, s) + s
        invariant slept == Slept(sleeps) && delayMs == Delay(sleeps)
      {
        var queries;
        r, queries, sleeps, slept, delayMs := QueryServer(net, k, clients[s], sleeps, slept, delayMs);
        calls := calls + queries;
        if r.Some? {
          return;
        }
        sleeps, slept, delayMs := Pause(sleeps, slept, delayMs);
      }
      r := None;
    }

    /** Whether the leader was looked for and found again; `None` where the original throws. */
    method TryHandleLeaderChange(net: Network, k: nat, raft: int) returns (r: Option<bool>)
      modifies `leaderId
      ensures r == None <==> IsLeaderChange(raft) && Named(net, k, clients, numRetries) == None
      ensures r.Some? ==> (r.value <==> IsLeaderChange(raft))
      ensures if r == Some(true) then Named(net, k, clients, numRetries) == Some(leaderId) else leaderId == old(leaderId)
    {
      if raft == NOT_LEADER || raft == REQUEST_CANCELLED {
        var leader, _, _, _ := GetLeaderId(net, k);
        if leader == None {
          return None;
        }
        leaderId := leader.value;
        return Some(true);
      }
      return Some(false);
    }

    /** One turn of the retry loop. */
    method Attempt(net: Network, k: nat) returns (turn: Turn)
      modifies `leaderId
      ensures var (reply, from) := (net.reply(k, old(leaderId)), old(leaderId));
              match turn
              case Throws => (reply == Raised || LeaderLost(net, k, clients, numRetries, from)) && leaderId == from
              case Ends(result) => reply.Answer? && !Refused(reply) && result == (reply.rc, 0) && leaderId == from
              case GoesOn(result) => reply == Answer(result.0, result.1)
                                     && Retried(net, k, clients, numRetries, from, leaderId)
    {
      var reply := net.reply(k, leaderId);
      if reply.Raised? {
        return Throws;
      }
      if reply.raft == 0 {
        return Ends((reply.rc, reply.raft));
      }
      if reply.raft == WEIRD_CASE {
        return Ends((reply.rc, 0));
      }
      var handled := TryHandleLeaderChange(net, k, reply.raft);
      turn := if handled == None then Throws else GoesOn((reply.rc, reply.raft));
    }

    /** `put`, `update` and `del`: `sent` are the servers the command went to, in order. The result
        is `None` where the original throws. */
    method Mutate(net: Network) returns (r: Option<(int, int)>, sent: seq<int>)
      modifies `leaderId
      ensures |sent| <= numRetries && SentTo(net, clients, numRetries, old(leaderId), sent)
      // The leader found after the last answer is known from then on.
      ensures sent == [] ==> leaderId == old(leaderId)
      ensures sent != [] ==>
                var (k, last) := (|sent| - 1, sent[|sent| - 1]);
                if LeaderLost(net, k, clients, numRetries, last) then leaderId == last
                else Follows(net, k, clients, numRetries, last, leaderId)
      ensures r == None <==>
                || (|sent| < numRetries && leaderId !in clients)
                || (sent != [] && net.reply(|sent| - 1, sent[|sent| - 1]) == Raised)
                || (sent != [] && LeaderLost(net, |sent| - 1, clients, numRetries, sent[|sent| - 1]))
      ensures r.Some? && sent == [] ==> numRetries == 0 && r.value == (0, 0)
      ensures r.Some? && sent != [] ==> Concluded(net.reply(|sent| - 1, sent[|sent| - 1]), r.value, |sent| == numRetries)
      // Reported accepted exactly when the last attempt was accepted or met the weird case, or when
      // no attempt was made because none is allowed.
      ensures r.Some? ==>
                (Accepted(r.value) <==> sent == [] || !Refused(net.reply(|sent| - 1, sent[|sent| - 1])))
    {
      var result := (0, 0);
      sent := [];
      for i := 0 to numRetries
        invariant |sent| == i && SentTo(net, clients, numRetries, old(leaderId), sent)
        invariant if i == 0 then result == (0, 0) && leaderId == old(leaderId)
                  else
                    && Retried(net, i - 1, clients, numRetries, sent[i - 1], leaderId)
                    && net.reply(i - 1, sent[i - 1]) == Answer(result.0, result.1)
      {
        if leaderId !in clients {
          return None, sent;
        }
        SentOnce(net, clients, numRetries, old(leaderId), sent, leaderId);
        sent := sent + [leaderId];
        var turn := Attempt(net, i);
        if turn.Throws? {
          return None, sent;
        }
        result := turn.result;
        if turn.Ends? {
          return Some(result), sent;
        }
      }
      r := Some(result);
    }
  }

  /** A return code after which the leader is looked for again. */
  predicate IsLeaderChange(raft: int) {
    raft == NOT_LEADER || raft == REQUEST_CANCELLED
  }

  predicate LeaderChange(reply: Reply) {
    reply.Answer? && IsLeaderChange(reply.raft)
  }

  /** After attempt `k` on server `from` the leader is taken to be `to`. */
  predicate Follows(net: Network, k: nat, ids: seq<int>, retries: nat, from: int, to: int) {
    if LeaderChange(net.reply(k, from)) then Named(net, k, ids, retries) == Some(to) else to == from
  }

  /** Attempt `k` on server `from` was refused, and the next one goes to `to`. */
  predicate Retried(net: Network, k: nat, ids: seq<int>, retries: nat, from: int, to: int) {
    Refused(net.reply(k, from)) && !LeaderLost(net, k, ids, retries, from) && Follows(net, k, ids, retries, from, to)
  }

  /** The first attempt goes to the leader known before the call, every other one to the one known after
      the refusal before it, and all to connected servers. */
  predicate SentTo(net: Network, ids: seq<int>, retries: nat, first: int, sent: seq<int>) {
    && (forall k | 0 <= k < |sent| :: sent[k] in ids)
    && (sent != [] ==> sent[0] == first)
    && (forall k | 0 <= k < |sent| - 1 :: Retried(net, k, ids, retries, sent[k], sent[k + 1]))
  }

  lemma SentOnce(net: Network, ids: seq<int>, retries: nat, first: int, sent: seq<int>, to: int)
    requires SentTo(net, ids, retries, first, sent) && to in ids
    requires if sent == [] then to == first else Retried(net, |sent| - 1, ids, retries, sent[|sent| - 1], to)
    ensures SentTo(net, ids, retries, first, sent + [to])
  {
  }

  /** After attempt `k` on server `from` no server names a leader. */
  predicate LeaderLost(net: Network, k: nat, ids: seq<int>, retries: nat, from: int) {
    LeaderChange(net.reply(k, from)) && Named(net, k, ids, retries) == None
  }

  /** An answer that neither accepts the command nor is taken for an acceptance. */
  predicate Refused(reply: Reply) {
    reply.Answer? && reply.raft != 0 && reply.raft != WEIRD_CASE
  }

  /** What the last answer makes of the result. */
  predicate Concluded(reply: Reply, result: (int, int), lastTry: bool) {
    && reply.Answer?
    && (if Refused(reply) then lastTry && result == (reply.rc, reply.raft) else result == (reply.rc, 0))
  }

  /** How the caller reads the result. */
  predicate Accepted(result: (int, int)) {
    result.1 == 0
  }

  // ---- Reads ----

  /** The ids from the `k`-th on, then those before it. */
  function Rotation(ids: seq<int>, k: nat): seq<int>
    requires k <= |ids|
  {
    ids[k..] + ids[..k]
  }

  class RoundRobinReadPolicy {
    var serverIds: seq<int>

    constructor (ids: seq<int>)
      ensures serverIds == ids
    {
      serverIds := [];
      new;
      for i := 0 to |ids|
        invariant serverIds == ids[..i]
      {
        serverIds := serverIds + [ids[i]];
      }
    }

    method NextServer() returns (id: int)
      requires serverIds != []
      modifies `serverIds
      ensures id == old(serverIds)[0] && serverIds == Rotation(old(serverIds), 1)
      ensures forall ids: seq<int>, k: nat | ids != [] && old(serverIds) == QueueAfter(ids, k) ::
                id == ReadAt(ids, k) && serverIds == QueueAfter(ids, k + 1)
    {
      id := serverIds[0];
      serverIds := serverIds[1..];
      serverIds := serverIds + [id];
    }
  }

  /** The queue after `count` reads. */
  function QueueAfter(ids: seq<int>, count: nat): (queue: seq<int>)
    requires ids != []
    ensures |queue| == |ids|
  {
    if count == 0 then ids else Rotation(QueueAfter(ids, count - 1), 1)
  }

  /** The server the `k`-th read goes to. */
  function ReadAt(ids: seq<int>, k: nat): int
    requires ids != []
  {
    QueueAfter(ids, k)[0]
  }

  /** How many of the `m` reads from the `a`-th on go to server `id`. */
  function ReadCount(ids: seq<int>, id: int, a: nat, m: nat): nat
    requires ids != []
  {
    if m == 0 then 0 else ReadCount(ids, id, a, m - 1) + (if ReadAt(ids, a + m - 1) == id then 1 else 0)
  }

  /** The queue stays a rotation of the connected ids, and the `i`-th read goes to `ids[i mod n]`. */
  lemma {:induction false} ReadGoesTo(ids: seq<int>, i: nat)
    requires ids != []
    ensures QueueAfter(ids, i) == Rotation(ids, i % |ids|)
    ensures ReadAt(ids, i) == ids[i % |ids|]
  {
    if i > 0 {
      var k := (i - 1) % |ids|;
      ReadGoesTo(ids, i - 1);
      ModStep(i - 1, |ids|);
      RotateOnce(ids, k);
      assert i % |ids| == if k + 1 == |ids| then 0 else k + 1;
      assert QueueAfter(ids, i) == Rotation(Rotation(ids, k), 1);
    }
  }

  lemma RotateOnce(ids: seq<int>, k: nat)
    requires k < |ids|
    ensures Rotation(Rotation(ids, k), 1) == Rotation(ids, if k + 1 == |ids| then 0 else k + 1)
  {
    assert Rotation(ids, k)[1..] + [ids[k]] == ids[k + 1..] + (ids[..k] + [ids[k]]);
    assert ids[..k] + [ids[k]] == ids[..k + 1];
    if k + 1 == |ids| {
      assert ids[..k + 1] == ids;
    }
  }

  lemma ModStep(x: nat, n: nat)
    requires 0 < n
    ensures (x + 1) % n == if x % n + 1 == n then 0 else x % n + 1
  {
    var (q, r) := (x / n, x % n);
    assert x == q * n + r;
    if r + 1 == n {
      assert (q + 1) * n == q * n + n;
      Divides(x + 1, n, q + 1, 0);
    } else {
      Divides(x + 1, n, q, r + 1);
    }
  }

  lemma AddTurn(x: nat, n: nat)
    requires 0 < n
    ensures (x + n) % n == x % n && (x + n) / n == x / n + 1
  {
    assert (x / n + 1) * n == (x / n) * n + n;
    Divides(x + n, n, x / n + 1, x % n);
  }

  /** How many of the `m` numbers from `a` on leave `j` when divided by `n`. */
  function Hits(n: nat, j: nat, a: nat, m: nat): nat
    requires 0 < n
  {
    if m == 0 then 0 else Hits(n, j, a, m - 1) + (if (a + m - 1) % n == j then 1 else 0)
  }

  lemma {:induction false} HitsSplit(n: nat, j: nat, a: nat, k: nat, m: nat)
    requires 0 < n
    ensures Hits(n, j, a, k + m) == Hits(n, j, a, k) + Hits(n, j, a + k, m)
  {
    if m > 0 {
      HitsSplit(n, j, a, k, m - 1);
    }
  }

  lemma {:induction false} HitsFromStart(n: nat, j: nat, m: nat)
    requires j < n && m <= n
    ensures Hits(n, j, 0, m) == if j < m then 1 else 0
  {
    if m > 0 {
      HitsFromStart(n, j, m - 1);
      Divides(m - 1, n, 0, m - 1);
    }
  }

  lemma {:induction false} HitsFullTurn(n: nat, j: nat, a: nat)
    requires j < n
    ensures Hits(n, j, a, n) == 1
  {
    if a == 0 {
      HitsFromStart(n, j, n);
    } else {
      HitsFullTurn(n, j, a - 1);
      HitsSplit(n, j, a - 1, 1, n);
      HitsSplit(n, j, a - 1, n, 1);
      AddTurn(a - 1, n);
      assert Hits(n, j, a - 1, 1) == Hits(n, j, a - 1 + n, 1);
    }
  }

  lemma {:induction false} HitsAreFair(n: nat, j: nat, a: nat, m: nat)
    requires j < n
    ensures m / n <= Hits(n, j, a, m) <= m / n + (if m % n == 0 then 0 else 1)
    decreases m
  {
    if m >= n {
      HitsAreFair(n, j, a + n, m - n);
      HitsSplit(n, j, a, n, m - n);
      HitsFullTurn(n, j, a);
      AddTurn(m - n, n);
    } else if m > 0 {
      HitsFullTurn(n, j, a);
      HitsSplit(n, j, a, m, n - m);
      Divides(m, n, 0, m);
    }
  }

  /** The connected ids are the keys of a map. */
  predicate Distinct(ids: seq<int>) {
    forall i, j | 0 <= i < j < |ids| :: ids[i] != ids[j]
  }

  lemma {:induction false} ReadsAreHits(ids: seq<int>, j: nat, a: nat, m: nat)
    requires Distinct(ids) && j < |ids|
    ensures ReadCount(ids, ids[j], a, m) == Hits(|ids|, j, a, m)
  {
    if m > 0 {
      ReadsAreHits(ids, j, a, m - 1);
      ReadGoesTo(ids, a + m - 1);
      assert (a + m - 1) % |ids| < |ids|;
    }
  }

  /** Any `n` reads in a row go to each of the `n` connected servers once. */
  lemma FullTurn(ids: seq<int>, id: int, a: nat)
    requires Distinct(ids) && id in ids
    ensures ReadCount(ids, id, a, |ids|) == 1
  {
    var j :| 0 <= j < |ids| && ids[j] == id;
    ReadsAreHits(ids, j, a, |ids|);
    HitsFullTurn(|ids|, j, a);
  }

  /** Of any `m` reads in a row each connected server gets m/n, rounded down or up, and no other
      server gets any. */
  lemma ReadsAreFair(ids: seq<int>, id: int, a: nat, m: nat)
    requires Distinct(ids) && ids != []
    ensures var (n, got) := (|ids|, ReadCount(ids, id, a, m));
            if id in ids then m / n <= got <= m / n + (if m % n == 0 then 0 else 1) else got == 0
  {
    if id in ids {
      var j :| 0 <= j < |ids| && ids[j] == id;
      ReadsAreHits(ids, j, a, m);
      HitsAreFair(|ids|, j, a, m);
    } else {
      NoReads(ids, id, a, m);
    }
  }

  lemma {:induction false} NoReads(ids: seq<int>, id: int, a: nat, m: nat)
    requires ids != [] && id !in ids
    ensures ReadCount(ids, id, a, m) == 0
  {
    if m > 0 {
      NoReads(ids, id, a, m - 1);
      ReadGoesTo(ids, a + m - 1);
      assert (a + m - 1) % |ids| < |ids|;
    }
  }
}
