/** The round-robin walk over the writable control streams. */
module RoundRobin {

  type StreamId = nat

  /** The contents of a `std::set<StreamId>`, in order.  The scheduler never walks an empty set. */
  ghost predicate IsSet(streams: seq<StreamId>) {
    streams != [] && forall i, j :: 0 <= i < j < |streams| ==> streams[i] < streams[j]
  }

  /** `MiddleStartingIterator`: a position, and whether the walk has passed the end of the set. */
  datatype MiddleStartingIterator = MiddleStartingIterator(itr: nat, wrapped: bool) {

    function CheckForWrapAround(n: nat): MiddleStartingIterator {
      if itr == n then MiddleStartingIterator(0, true) else this
    }

    function Increment(n: nat): MiddleStartingIterator {
      MiddleStartingIterator(itr + 1, wrapped).CheckForWrapAround(n)
    }
  }

  /** Where a walk that starts at `next` begins: the first stream not below it, or the first of all. */
  ghost predicate StartsAt(streams: seq<StreamId>, next: StreamId, start: nat) {
    && start < |streams|
    && (streams[start] >= next || (start == 0 && forall i :: 0 <= i < |streams| ==> streams[i] < next))
    && forall i :: 0 <= i < start ==> streams[i] < next
  }

  lemma StartIsUnique(streams: seq<StreamId>, next: StreamId, a: nat, b: nat)
    requires IsSet(streams) && StartsAt(streams, next, a) && StartsAt(streams, next, b)
    ensures a == b
  {
  }

  /** The `i`-th stream of the walk. */
  function At(streams: seq<StreamId>, start: nat, i: nat): StreamId
    requires start < |streams| && i <= |streams|
  {
    streams[if start + i < |streams| then start + i else start + i - |streams|]
  }

  function Walk(streams: seq<StreamId>, start: nat, k: nat): (w: seq<StreamId>)
    requires start < |streams| && k <= |streams|
    ensures |w| == k && forall i :: 0 <= i < k ==> w[i] == At(streams, start, i)
  {
    seq(k, i requires 0 <= i < k => At(streams, start, i))
  }

  method LowerBound(streams: seq<StreamId>, next: StreamId) returns (pos: nat)
    requires IsSet(streams)
    ensures pos <= |streams|
    ensures forall i :: 0 <= i < |streams| ==> (streams[i] < next <==> i < pos)
  {
    pos := 0;
    while pos < |streams| && streams[pos] < next
      invariant pos <= |streams| && forall i :: 0 <= i < pos ==> streams[i] < next
    {
      pos := pos + 1;
    }
  }

  method Begin(streams: seq<StreamId>, next: StreamId) returns (it: MiddleStartingIterator)
    requires IsSet(streams)
    ensures StartsAt(streams, next, it.itr) && !it.wrapped && it.itr < |streams|
  {
    var lower := LowerBound(streams, next);
    it := MiddleStartingIterator(lower, false).CheckForWrapAround(|streams|).(wrapped := false);
  }

  /** `writeStreamsHelper`: serves a run of the walk that starts at `next`, every stream at most
      once, and returns the stream to go on with.  `write(i, id)` says whether the `i`-th write of
      this packet succeeds. */
  method WriteStreams(streams: seq<StreamId>, next: StreamId, write: (nat, StreamId) -> bool, streamPerPacket: bool)
    returns (resume: StreamId, served: seq<StreamId>, ghost start: nat)
    requires IsSet(streams)
    ensures start < |streams| && StartsAt(streams, next, start) && |served| <= |streams|
    ensures served == Walk(streams, start, |served|) && resume == At(streams, start, |served|)
    ensures forall i :: 0 <= i < |served| ==> write(i, served[i])
    ensures |served| == |streams| || (streamPerPacket && |served| == 1) || !write(|served|, resume)
    ensures streamPerPacket ==> |served| <= 1
  {
    hide StartsAt, IsSet;
    var n := |streams|;
    var begin := Begin(streams, next);
    var end := begin.(wrapped := true);
    start := begin.itr;
    var it := begin;
    served := [];
    while it != end
      invariant |served| <= n && it.itr < n
      invariant it.itr == (if it.wrapped then start + |served| - n else start + |served|)
      invariant it.wrapped ==> it.itr <= start
      invariant served == Walk(streams, start, |served|)
      invariant forall i :: 0 <= i < |served| ==> write(i, served[i])
      invariant streamPerPacket ==> served == []
      decreases n - |served|
    {
      var id := streams[it.itr];
      if !write(|served|, id) {
        break;
      }
      served := served + [id];
      it := it.Increment(n);
      if streamPerPacket {
        break;
      }
    }
    resume := streams[it.itr];
  }

  /** The whole walk visits every stream once. */
  lemma WalkVisitsOnce(streams: seq<StreamId>, start: nat, s: StreamId) returns (m: nat)
    requires IsSet(streams) && start < |streams| && s in streams
    ensures m < |streams| && At(streams, start, m) == s
    ensures forall i :: 0 <= i < |streams| && At(streams, start, i) == s ==> i == m
  {
    var p :| 0 <= p < |streams| && streams[p] == s;
    m := if p >= start then p - start else p - start + |streams|;
    forall i | 0 <= i < |streams| && At(streams, start, i) == s ensures i == m {
      var q := if start + i < |streams| then start + i else start + i - |streams|;
      assert streams[q] == streams[p];
      assert q == p;
    }
  }

  /** How far `s` is ahead of `next` when ids are counted round a circle of `modulus`. */
  function Ahead(next: StreamId, s: StreamId, modulus: nat): (d: nat)
    requires next < modulus && s < modulus
    ensures d < modulus
  {
    if s >= next then s - next else s - next + modulus
  }

  ghost predicate Below(streams: seq<StreamId>, modulus: nat) {
    forall i :: 0 <= i < |streams| ==> streams[i] < modulus
  }

  /** Along the walk, a stream that is still to come gets closer with every stream served. */
  lemma {:induction false} WalkApproaches(streams: seq<StreamId>, start: nat, k: nat, m: nat, modulus: nat)
    requires IsSet(streams) && start < |streams| && k <= m < |streams| && Below(streams, modulus)
    ensures Ahead(At(streams, start, k), At(streams, start, m), modulus) + k
            <= Ahead(At(streams, start, 0), At(streams, start, m), modulus)
  {
    if k > 0 {
      WalkApproaches(streams, start, k - 1, m, modulus);
      var a, b, c := At(streams, start, k - 1), At(streams, start, k), At(streams, start, m);
      assert Ahead(b, c, modulus) < Ahead(a, c, modulus);
    }
  }

  lemma StartApproaches(streams: seq<StreamId>, next: StreamId, start: nat, s: StreamId, modulus: nat)
    requires IsSet(streams) && Below(streams, modulus) && next < modulus
    requires s in streams && StartsAt(streams, next, start)
    ensures Ahead(streams[start], s, modulus) <= Ahead(next, s, modulus)
  {
    var p :| 0 <= p < |streams| && streams[p] == s;
  }

  /** One packet's pass: the streams there were, where it began and how many it served. */
  datatype Pass = Pass(streams: seq<StreamId>, start: nat, count: nat) {

    ghost predicate From(next: StreamId, modulus: nat) {
      && IsSet(streams) && Below(streams, modulus) && count <= |streams|
      && start < |streams| && StartsAt(streams, next, start)
    }

    ghost predicate Serves(s: StreamId) {
      start < |streams| && count <= |streams| && s in Walk(streams, start, count)
    }

    function Resume(): StreamId
      requires start < |streams| && count <= |streams|
    {
      At(streams, start, count)
    }
  }

  /** A pass that does not serve `s` brings it closer by the number of streams it serves. */
  lemma PassApproaches(p: Pass, next: StreamId, s: StreamId, modulus: nat)
    requires next < modulus && p.From(next, modulus) && s in p.streams && !p.Serves(s)
    ensures p.Resume() < modulus && Ahead(p.Resume(), s, modulus) + p.count <= Ahead(next, s, modulus)
  {
    var m := WalkVisitsOnce(p.streams, p.start, s);
    assert p.count <= m;
    WalkApproaches(p.streams, p.start, p.count, m, modulus);
    StartApproaches(p.streams, next, p.start, s, modulus);
  }

  /** Passes in a row, each resuming where the one before stopped. */
  ghost predicate Chained(passes: seq<Pass>, next: StreamId, modulus: nat)
    decreases |passes|
  {
    next < modulus &&
    (passes != [] ==>
      passes[0].From(next, modulus) && Chained(passes[1..], passes[0].Resume(), modulus))
  }

  function Total(passes: seq<Pass>): nat {
    if passes == [] then 0 else passes[0].count + Total(passes[1..])
  }

  /** No stream starves: whatever other streams come and go, a stream that stays writable is served
      before as many streams have been served as its id is ahead. */
  lemma {:induction false} NoStarvation(passes: seq<Pass>, next: StreamId, s: StreamId, modulus: nat)
    requires Chained(passes, next, modulus)
    requires forall p :: p in passes ==> s in p.streams
    requires s < modulus && Total(passes) > Ahead(next, s, modulus)
    ensures exists i :: 0 <= i < |passes| && passes[i].Serves(s)
  {
    if !passes[0].Serves(s) {
      PassApproaches(passes[0], next, s, modulus);
      NoStarvation(passes[1..], passes[0].Resume(), s, modulus);
      var i :| 0 <= i < |passes[1..]| && passes[1..][i].Serves(s);
      assert passes[i + 1] == passes[1..][i];
    }
  }

  lemma Successor(streams: seq<StreamId>, start: nat) returns (after: nat)
    requires IsSet(streams) && start < |streams|
    ensures after == if start + 1 < |streams| then start + 1 else 0
    ensures StartsAt(streams, At(streams, start, 1), after)
  {
    after := if start + 1 < |streams| then start + 1 else 0;
  }

  /** With one stream a packet and an unchanged set, packet after packet serves the walk: by
      `WalkVisitsOnce`, as many packets as there are streams serve each of them once. */
  lemma {:induction false} OneStreamPerPacket(passes: seq<Pass>, next: StreamId, modulus: nat, i: nat)
    requires Chained(passes, next, modulus) && i < |passes|
    requires forall p :: p in passes ==> p.streams == passes[0].streams && p.count == 1
    requires |passes| <= |passes[0].streams|
    ensures passes[i].Serves(At(passes[0].streams, passes[0].start, i))
  {
    hide IsSet, StartsAt, Below;
    if i == 0 {
      assert Walk(passes[0].streams, passes[0].start, 1)[0] == At(passes[0].streams, passes[0].start, 0);
    } else {
      var streams, rest := passes[0].streams, passes[1..];
      OneStreamPerPacket(rest, passes[0].Resume(), modulus, i - 1);
      var after := Successor(streams, passes[0].start);
      StartIsUnique(streams, passes[0].Resume(), rest[0].start, after);
    }
  }

  /** So with as many packets as streams, each stream is served by exactly one packet. */
  lemma EachServedOnce(passes: seq<Pass>, next: StreamId, modulus: nat, s: StreamId) returns (m: nat)
    requires Chained(passes, next, modulus) && passes != []
    requires forall p :: p in passes ==> p.streams == passes[0].streams && p.count == 1
    requires |passes| == |passes[0].streams| && s in passes[0].streams
    ensures m < |passes| && forall i :: 0 <= i < |passes| ==> (passes[i].Serves(s) <==> i == m)
  {
    var streams, start := passes[0].streams, passes[0].start;
    m := WalkVisitsOnce(streams, start, s);
    forall i | 0 <= i < |passes| ensures passes[i].Serves(s) <==> i == m {
      OneStreamPerPacket(passes, next, modulus, i);
      ServesOne(passes[i], At(streams, start, i), s);
    }
  }

  lemma ServesOne(p: Pass, a: StreamId, s: StreamId)
    requires p.count == 1 && p.Serves(a)
    ensures p.Serves(s) <==> s == a
  {
    var w := Walk(p.streams, p.start, 1);
    assert w == [w[0]];
  }

  /** A packet: the streams that are writable then, and the answers to its writes. */
  datatype Packet = Packet(streams: seq<StreamId>, write: (nat, StreamId) -> bool)

  /** The streams served are those of the walk, in order, up to the first write that does not succeed, or one
      if that is the rule, or all of them. */
  ghost predicate WrittenUntilRefused(packet: Packet, pass: Pass, served: seq<StreamId>, streamPerPacket: bool) {
    var n := |served|;
    && pass.streams == packet.streams && pass.start < |pass.streams| && n == pass.count <= |pass.streams|
    && (forall i :: 0 <= i < n ==> served[i] == At(pass.streams, pass.start, i) && packet.write(i, served[i]))
    && (n == |pass.streams| || (streamPerPacket && n == 1) || !packet.write(n, pass.Resume()))
  }

  /** Where the packet after a chain of passes goes on. */
  ghost function ResumeAfter(passes: seq<Pass>, next: StreamId, modulus: nat): StreamId
    requires Chained(passes, next, modulus)
    decreases |passes|
  {
    if passes == [] then next else ResumeAfter(passes[1..], passes[0].Resume(), modulus)
  }

  lemma {:induction false} ChainedAppend(passes: seq<Pass>, next: StreamId, modulus: nat, p: Pass)
    requires Chained(passes, next, modulus) && p.From(ResumeAfter(passes, next, modulus), modulus)
    ensures Chained(passes + [p], next, modulus)
    ensures ResumeAfter(passes + [p], next, modulus) == p.Resume() < modulus
    decreases |passes|
  {
    hide IsSet, StartsAt;
    if passes == [] {
      assert (passes + [p])[1..] == [];
    } else {
      ChainedAppend(passes[1..], passes[0].Resume(), modulus, p);
      assert (passes + [p])[1..] == passes[1..] + [p];
    }
  }

  /** Packet after packet, each going on where the one before stopped: the streams served are those
      of a chain of passes. */
  method WritePackets(packets: seq<Packet>, first: StreamId, streamPerPacket: bool, ghost modulus: nat)
    returns (served: seq<seq<StreamId>>, next: StreamId, ghost passes: seq<Pass>)
    requires first < modulus
    requires forall i :: 0 <= i < |packets| ==> IsSet(packets[i].streams) && Below(packets[i].streams, modulus)
    ensures |served| == |passes| == |packets| && Chained(passes, first, modulus)
    ensures next == ResumeAfter(passes, first, modulus)
    ensures forall i :: 0 <= i < |packets| ==>
      passes[i].streams == packets[i].streams && passes[i].count == |served[i]|
    ensures forall i, s :: 0 <= i < |packets| ==> (s in served[i] <==> passes[i].Serves(s))
    ensures streamPerPacket ==> forall i :: 0 <= i < |packets| ==> |served[i]| <= 1
    ensures forall i :: 0 <= i < |packets| ==> WrittenUntilRefused(packets[i], passes[i], served[i], streamPerPacket)
  {
    hide IsSet, StartsAt, Chained, ResumeAfter;
    served, next, passes := [], first, [];
    ChainStarts(first, modulus);
    for k := 0 to |packets|
      invariant |served| == |passes| == k && Chained(passes, first, modulus)
      invariant next == ResumeAfter(passes, first, modulus)
      invariant forall i :: 0 <= i < k ==>
        passes[i].streams == packets[i].streams && passes[i].count == |served[i]|
      invariant forall i, s :: 0 <= i < k ==> (s in served[i] <==> passes[i].Serves(s))
      invariant streamPerPacket ==> forall i :: 0 <= i < k ==> |served[i]| <= 1
      invariant forall i :: 0 <= i < k ==> WrittenUntilRefused(packets[i], passes[i], served[i], streamPerPacket)
    {
      var resume, streams, start := WriteStreams(packets[k].streams, next, packets[k].write, streamPerPacket);
      ghost var p := Pass(packets[k].streams, start, |streams|);
      ChainedAppend(passes, first, modulus, p);
      served, next, passes := served + [streams], resume, passes + [p];
    }
  }

  lemma ChainStarts(next: StreamId, modulus: nat)
    requires next < modulus
    ensures Chained([], next, modulus) && ResumeAfter([], next, modulus) == next
  {
  }

  /** So a stream that is writable for all packets is served by one of them, if they serve more
      streams than its id is ahead. */
  method WriteUntilServed(packets: seq<Packet>, first: StreamId, s: StreamId, ghost modulus: nat)
    returns (served: seq<seq<StreamId>>, next: StreamId, ghost passes: seq<Pass>)
    requires first < modulus && s < modulus
    requires forall i :: 0 <= i < |packets| ==> IsSet(packets[i].streams) && Below(packets[i].streams, modulus)
    requires forall i :: 0 <= i < |packets| ==> s in packets[i].streams
    ensures |served| == |passes| == |packets| && forall i :: 0 <= i < |served| ==> passes[i].count == |served[i]|
    ensures Total(passes) > Ahead(first, s, modulus) ==> exists i :: 0 <= i < |served| && s in served[i]
  {
    served, next, passes := WritePackets(packets, first, false, modulus);
    if Total(passes) > Ahead(first, s, modulus) {
      NoStarvation(passes, first, s, modulus);
    }
  }
}
