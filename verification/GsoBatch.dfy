/** Generic segmentation offload: packets for one destination are collected into batches that the
    kernel cuts back into packets of one size, of which only the last may be shorter. */
module GsoBatches {
  import opened Bytes

  type Packet = seq<byte>

  /** What is handed to the socket: a plain write (`segment` 0) or one with a segment size. */
  datatype Emission = Emission(bytes: seq<byte>, segment: nat)

  function Emit(batch: seq<Packet>): Emission
    requires batch != []
  {
    Emission(Flatten(batch), if |batch| > 1 then |batch[0]| else 0)
  }

  function EmitAll(batches: seq<seq<Packet>>): (es: seq<Emission>)
    requires forall i :: 0 <= i < |batches| ==> batches[i] != []
    ensures |es| == |batches|
  {
    seq(|batches|, i requires 0 <= i < |batches| => Emit(batches[i]))
  }

  /** Whether `es` is what handing over `batches` one by one emits. */
  ghost predicate Emits(batches: seq<seq<Packet>>, es: seq<Emission>) {
    (forall i :: 0 <= i < |batches| ==> batches[i] != []) && es == EmitAll(batches)
  }

  lemma EmitsMore(batches: seq<seq<Packet>>, es: seq<Emission>, b: seq<Packet>)
    requires Emits(batches, es) && b != []
    ensures Emits(batches + [b], es + [Emit(b)])
  {
  }

  /** The state of the batching: the batches handed over and the packets still held back. */
  datatype Progress = Progress(batches: seq<seq<Packet>>, pending: seq<Packet>)

  function Flush(s: Progress): Progress {
    if s.pending == [] then s else Progress(s.batches + [s.pending], [])
  }

  /** `needsFlush`: a larger packet flushes what is pending first. */
  predicate FlushesFirst(s: Progress, p: Packet) {
    s.pending != [] && |s.pending[0]| > 0 && |p| > |s.pending[0]|
  }

  function Before(s: Progress, p: Packet): Progress {
    if FlushesFirst(s, p) then Flush(s) else s
  }

  /** `append` of the chained writer: a packet of another size, or one that fills the batch, is the
      last of its batch. */
  predicate FlushesAfter(maxBufs: nat, s: Progress, p: Packet) {
    var b := Before(s, p).pending;
    b != [] && (|p| != |b[0]| || |b| + 1 == maxBufs)
  }

  /** `append` of the in-place writer, which compares the sizes the other way. */
  predicate FlushesAfterInplace(maxPackets: nat, s: Progress, p: Packet) {
    var b := Before(s, p).pending;
    b != [] && (|b[0]| > |p| || |b| + 1 == maxPackets)
  }

  function Added(s: Progress, p: Packet): Progress {
    s.(pending := s.pending + [p])
  }

  /** What `IOBufQuicBatch::write` does with the chained writer. */
  function Write(maxBufs: nat, s: Progress, p: Packet): Progress {
    var added := Added(Before(s, p), p);
    if FlushesAfter(maxBufs, s, p) then Flush(added) else added
  }

  /** The same with the in-place writer. */
  function WriteInplace(maxPackets: nat, s: Progress, p: Packet): Progress {
    var added := Added(Before(s, p), p);
    if FlushesAfterInplace(maxPackets, s, p) then Flush(added) else added
  }

  /** A write flushes at most once: the packet that caused a flush starts a batch. */
  lemma OneFlushPerWrite(max: nat, s: Progress, p: Packet)
    requires FlushesFirst(s, p)
    ensures !FlushesAfter(max, s, p) && !FlushesAfterInplace(max, s, p)
  {
  }

  /** The two writers part ways exactly when a packet follows an empty one. */
  lemma WritersAgree(max: nat, s: Progress, p: Packet)
    ensures Write(max, s, p) == WriteInplace(max, s, p)
            <==> !(s.pending != [] && s.pending[0] == [] && p != [] && |s.pending| + 1 != max)
  {
    if s.pending != [] && s.pending[0] == [] && p != [] && |s.pending| + 1 != max {
      assert Write(max, s, p).pending == [];
    }
  }

  /** What a client does: it writes a packet, or flushes what is pending. */
  datatype Op = Put(packet: Packet) | FlushNow

  function Step(maxBufs: nat, s: Progress, op: Op): Progress {
    if op.Put? then Write(maxBufs, s, op.packet) else Flush(s)
  }

  function StepInplace(maxPackets: nat, s: Progress, op: Op): Progress {
    if op.Put? then WriteInplace(maxPackets, s, op.packet) else Flush(s)
  }

  function Run(maxBufs: nat, ops: seq<Op>): Progress {
    if ops == [] then Progress([], [])
    else Step(maxBufs, Run(maxBufs, ops[..|ops| - 1]), ops[|ops| - 1])
  }

  function RunInplace(maxPackets: nat, ops: seq<Op>): Progress {
    if ops == [] then Progress([], [])
    else StepInplace(maxPackets, RunInplace(maxPackets, ops[..|ops| - 1]), ops[|ops| - 1])
  }

  /** The packets written, in order. */
  ghost function Puts(ops: seq<Op>): seq<Packet> {
    if ops == [] then []
    else Puts(ops[..|ops| - 1]) + if ops[|ops| - 1].Put? then [ops[|ops| - 1].packet] else []
  }

  ghost predicate WithContent(ops: seq<Op>) {
    forall i :: 0 <= i < |ops| && ops[i].Put? ==> ops[i].packet != []
  }

  lemma RunStep(max: nat, ops: seq<Op>, op: Op)
    ensures Run(max, ops + [op]) == Step(max, Run(max, ops), op)
    ensures RunInplace(max, ops + [op]) == StepInplace(max, RunInplace(max, ops), op)
    ensures Puts(ops + [op]) == if op.Put? then Puts(ops) + [op.packet] else Puts(ops)
  {
    assert (ops + [op])[..|ops|] == ops;
  }

  /** The packets of all batches, in order. */
  ghost function Concat(batches: seq<seq<Packet>>): seq<Packet> {
    if batches == [] then [] else Concat(batches[..|batches| - 1]) + batches[|batches| - 1]
  }

  /** Packets that the kernel can restore: all of one size but the last, which is no larger. */
  ghost predicate Uniform(batch: seq<Packet>) {
    && batch != []
    && (forall i :: 0 <= i < |batch| - 1 ==> |batch[i]| == |batch[0]|)
    && 0 < |batch[|batch| - 1]| <= |batch[0]|
  }

  /** All of one size, so that more can be added. */
  ghost predicate Open(batch: seq<Packet>) {
    forall i :: 0 <= i < |batch| ==> |batch[i]| == |batch[0]| > 0
  }

  ghost predicate Good(s: Progress, max: nat) {
    && Open(s.pending) && |s.pending| < max
    && (forall i :: 0 <= i < |s.batches| ==> Uniform(s.batches[i]) && |s.batches[i]| <= max)
  }

  /** All packets held, handed over or not. */
  ghost function Held(s: Progress): seq<Packet> {
    Concat(s.batches) + s.pending
  }

  lemma HeldFlush(s: Progress)
    ensures Held(Flush(s)) == Held(s)
  {
    if s.pending != [] {
      assert (s.batches + [s.pending])[..|s.batches|] == s.batches;
    }
  }

  lemma NothingHeld()
    ensures Held(Progress([], [])) == []
  {
  }

  lemma HeldAdd(s: Progress, p: Packet)
    ensures Held(Added(s, p)) == Held(s) + [p]
  {
  }

  lemma HeldWrite(max: nat, s: Progress, p: Packet)
    ensures Held(Write(max, s, p)) == Held(s) + [p]
  {
    hide Held;
    HeldFlush(s);
    HeldAdd(Before(s, p), p);
    HeldFlush(Added(Before(s, p), p));
  }

  /** Each packet is in exactly one place, in order, whatever the sizes, the maximum and the
      flushes. */
  lemma {:induction false} NothingLost(max: nat, ops: seq<Op>)
    ensures Held(Run(max, ops)) == Puts(ops)
  {
    hide Held, Write, Flush;
    if ops == [] {
      assert Held(Progress([], [])) == [] by { NothingHeld(); }
    } else {
      var before, op := Run(max, ops[..|ops| - 1]), ops[|ops| - 1];
      NothingLost(max, ops[..|ops| - 1]);
      if op.Put? {
        HeldWrite(max, before, op.packet);
      } else {
        HeldFlush(before);
      }
    }
  }

  lemma WriteKeepsGood(max: nat, s: Progress, p: Packet)
    requires Good(s, max) && max >= 2 && p != []
    ensures Good(Write(max, s, p), max)
  {
  }

  lemma FlushKeepsGood(max: nat, s: Progress)
    requires Good(s, max) && max >= 2
    ensures Good(Flush(s), max)
  {
  }

  lemma {:induction false} BatchesAreGood(max: nat, ops: seq<Op>)
    requires max >= 2 && WithContent(ops)
    ensures Good(Run(max, ops), max)
  {
    hide Good, Write, Flush;
    if ops == [] {
      assert Good(Progress([], []), max) by { NothingIsGood(max); }
    } else {
      var before, op := Run(max, ops[..|ops| - 1]), ops[|ops| - 1];
      BatchesAreGood(max, ops[..|ops| - 1]);
      if op.Put? {
        WriteKeepsGood(max, before, op.packet);
      } else {
        FlushKeepsGood(max, before);
      }
    }
  }

  lemma NothingIsGood(max: nat)
    requires max >= 2
    ensures Good(Progress([], []), max)
  {
  }

  lemma SmallMaximumIsExceeded(max: nat)
    requires max < 2
    ensures Run(max, [Put([7]), Put([7]), Put([7, 7])]) == Progress([[[7], [7]]], [[7, 7]])
  {
    hide Run;
    NothingRun(max);
    RunStep(max, [], Put([7]));
    RunStep(max, [Put([7])], Put([7]));
    RunStep(max, [Put([7]), Put([7])], Put([7, 7]));
    assert [] + [Put([7])] == [Put([7])] && [Put([7])] + [Put([7])] == [Put([7]), Put([7])];
    assert [Put([7]), Put([7])] + [Put([7, 7])] == [Put([7]), Put([7]), Put([7, 7])];
    assert Write(max, Progress([], []), [7]) == Progress([], [[7]]);
    assert Write(max, Progress([], [[7]]), [7]) == Progress([], [[7], [7]]);
    assert Before(Progress([], [[7], [7]]), [7, 7]) == Progress([[[7], [7]]], []);
  }

  lemma NothingRun(max: nat)
    ensures Run(max, []) == Progress([], [])
  {
  }

  /** Without a maximum of at least 2 the bound fails: the first packet of a batch is never
      counted against the maximum. */
  lemma MaximumMustBeTwo(max: nat)
    ensures (forall ops :: WithContent(ops) ==> Bounded(Run(max, ops), max)) <==> max >= 2
  {
    hide Run;
    if max >= 2 {
      forall ops | WithContent(ops) ensures Bounded(Run(max, ops), max) {
        BatchesAreGood(max, ops);
      }
    } else {
      SmallMaximumIsExceeded(max);
      var ops: seq<Op> := [Put([7]), Put([7]), Put([7, 7])];
      assert |Run(max, ops).batches[0]| == 2;
    }
  }

  ghost predicate Bounded(s: Progress, max: nat) {
    forall i :: 0 <= i < |s.batches| ==> |s.batches[i]| <= max
  }

  /** The client flushed when `n` packets had been written. */
  ghost predicate FlushedAt(ops: seq<Op>, n: nat) {
    exists j :: 0 <= j < |ops| && ops[j] == FlushNow && |Puts(ops[..j])| == n
  }

  /** Why a batch was handed over: it was full, or ended with a shorter packet, or the client flushed, or
      the next packet was larger than its segments. */
  ghost predicate EndsRightly(max: nat, ops: seq<Op>, batches: seq<seq<Packet>>, i: nat)
    requires i < |batches| && batches[i] != []
  {
    var b, n := batches[i], |Concat(batches[..i + 1])|;
    || |b| == max || |b[|b| - 1]| < |b[0]| || FlushedAt(ops, n)
    || (n < |Puts(ops)| && |Puts(ops)[n]| > |b[0]|)
  }

  lemma StillRight(max: nat, ops: seq<Op>, op: Op, batches: seq<seq<Packet>>, batches': seq<seq<Packet>>, i: nat)
    requires i < |batches| && batches[i] != [] && batches <= batches' && EndsRightly(max, ops, batches, i)
    ensures EndsRightly(max, ops + [op], batches', i)
  {
    hide Puts, Concat, FlushedAt;
    PutsGrow(ops, op);
    assert batches'[..i + 1] == batches[..i + 1];
    FlushedStays(ops, op, |Concat(batches[..i + 1])|);
  }

  lemma PutsGrow(ops: seq<Op>, op: Op)
    ensures Puts(ops) <= Puts(ops + [op])
  {
    assert (ops + [op])[..|ops|] == ops;
  }

  lemma FlushedStays(ops: seq<Op>, op: Op, n: nat)
    ensures FlushedAt(ops, n) ==> FlushedAt(ops + [op], n)
  {
    hide Puts;
    if FlushedAt(ops, n) {
      var j :| 0 <= j < |ops| && ops[j] == FlushNow && |Puts(ops[..j])| == n;
      assert (ops + [op])[j] == FlushNow && (ops + [op])[..j] == ops[..j];
    }
  }

  lemma FlushedNow(ops: seq<Op>)
    ensures FlushedAt(ops + [FlushNow], |Puts(ops)|)
  {
    assert (ops + [FlushNow])[|ops|] == FlushNow && (ops + [FlushNow])[..|ops|] == ops;
  }

  /** A flush hands over everything written. */
  lemma AllHandedOver(max: nat, ops: seq<Op>)
    ensures var s := Run(max, ops);
            s.pending != [] ==> |Concat(s.batches + [s.pending])| == |Puts(ops)|
  {
    var s := Run(max, ops);
    NothingLost(max, ops);
    assert (s.batches + [s.pending])[..|s.batches|] == s.batches;
  }

  /** No batch is handed over too early. */
  lemma {:induction false} NoneTooEarly(max: nat, ops: seq<Op>)
    requires max >= 2 && WithContent(ops)
    ensures var s := Run(max, ops);
            forall i :: 0 <= i < |s.batches| ==> s.batches[i] != [] && EndsRightly(max, ops, s.batches, i)
  {
    hide Run, EndsRightly, Good;
    if ops == [] {
      NothingRun(max);
    } else {
      var n := |ops| - 1;
      var before, op := ops[..n], ops[n];
      assert before + [op] == ops;
      NoneTooEarly(max, before);
      BatchesAreGood(max, before);
      RunStep(max, before, op);
      var s, r := Run(max, before), Run(max, ops);
      forall i | 0 <= i < |s.batches| ensures EndsRightly(max, ops, r.batches, i) {
        StillRight(max, before, op, s.batches, r.batches, i);
      }
      if r.batches != s.batches {
        LastEndsRightly(max, before, op);
      }
    }
  }

  lemma LastEndsRightly(max: nat, ops: seq<Op>, op: Op)
    requires Good(Run(max, ops), max) && (op.Put? ==> op.packet != [])
    requires Run(max, ops + [op]).batches != Run(max, ops).batches
    ensures var s, r := Run(max, ops).batches, Run(max, ops + [op]).batches;
            && |r| == |s| + 1 && r[..|s|] == s && r[|s|] != []
            && EndsRightly(max, ops + [op], r, |s|)
  {
    hide Run, Puts, Concat, FlushedAt;
    var s, r := Run(max, ops), Run(max, ops + [op]);
    RunStep(max, ops, op);
    AllHandedOver(max, ops);
    assert r.batches[..|s.batches| + 1] == r.batches;
    FlushedNow(ops);
  }

  /** On packets with content the in-place writer hands over the same batches. */
  lemma {:induction false} InplaceRefinesChained(max: nat, ops: seq<Op>)
    requires WithContent(ops)
    ensures RunInplace(max, ops) == Run(max, ops)
    ensures var s := Run(max, ops); forall i :: 0 <= i < |s.pending| ==> s.pending[i] != []
  {
    if ops != [] {
      var op := ops[|ops| - 1];
      InplaceRefinesChained(max, ops[..|ops| - 1]);
      if op.Put? {
        WritersAgree(max, Run(max, ops[..|ops| - 1]), op.packet);
      }
    }
  }

  /** The packets into which `data` is cut at multiples of `gro`. */
  function Segments(data: seq<byte>, gro: nat): seq<Packet>
    requires gro > 0
  {
    if data == [] then []
    else if |data| > gro then [data[..gro]] + Segments(data[gro..], gro)
    else [data]
  }

  /** The loop in `onDataAvailable` that splits what the kernel delivered in one go. */
  method SplitGro(data: seq<byte>, gro: nat) returns (packets: seq<Packet>)
    requires gro > 0
    ensures packets == Segments(data, gro)
  {
    packets := [];
    var remaining, offset := |data|, 0;
    while remaining != 0
      invariant offset + remaining == |data| && offset >= 0 && remaining >= 0
      invariant packets + Segments(data[offset..], gro) == Segments(data, gro)
      decreases remaining
    {
      if remaining > gro {
        assert data[offset..][gro..] == data[offset + gro..];
        assert data[offset..][..gro] == data[offset..offset + gro];
        packets := packets + [data[offset..offset + gro]];
        offset := offset + gro;
        remaining := remaining - gro;
      } else {
        packets := packets + [data[offset..]];
        assert data[|data|..] == [];
        offset, remaining := |data|, 0;
      }
    }
  }

  /** Cutting the bytes of a batch at the size of its first packet restores the packets. */
  lemma {:induction false} SegmentsRestore(batch: seq<Packet>)
    requires Uniform(batch)
    ensures Segments(Flatten(batch), |batch[0]|) == batch
  {
    var g, data := |batch[0]|, Flatten(batch);
    if |batch| == 1 {
      assert batch == [batch[0]];
      FlattenOne(batch[0]);
    } else {
      assert Uniform(batch[1..]) && |batch[1..][0]| <= g;
      assert data == batch[0] + Flatten(batch[1..]);
      assert data[..g] == batch[0] && data[g..] == Flatten(batch[1..]);
      assert batch[1..] != [] && Flatten(batch[1..]) == batch[1] + Flatten(batch[1..][1..]);
      if |batch| > 2 {
        assert |batch[1]| == g;
        SegmentsRestore(batch[1..]);
      } else {
        assert batch[1..] == [batch[1]];
        FlattenOne(batch[1]);
      }
      assert batch == [batch[0]] + batch[1..];
    }
  }

  /** What arrives at the far side of the network. */
  function Arrive(e: Emission): seq<Packet> {
    if e.segment == 0 then [e.bytes] else Segments(e.bytes, e.segment)
  }

  /** What arrives if the socket takes some of what it is handed. */
  ghost function ArriveTaken(es: seq<Emission>, taken: seq<bool>): seq<Packet>
    requires |es| == |taken|
  {
    if es == [] then []
    else
      var n := |es| - 1;
      ArriveTaken(es[..n], taken[..n]) + if taken[n] then Arrive(es[n]) else []
  }

  /** The batches that the socket took. */
  ghost function TakenOf(batches: seq<seq<Packet>>, taken: seq<bool>): seq<seq<Packet>>
    requires |batches| == |taken|
  {
    if batches == [] then []
    else
      var n := |batches| - 1;
      TakenOf(batches[..n], taken[..n]) + if taken[n] then [batches[n]] else []
  }

  ghost predicate AllTaken(taken: seq<bool>) {
    forall i :: 0 <= i < |taken| ==> taken[i]
  }

  lemma ArriveEmission(batch: seq<Packet>)
    requires Uniform(batch)
    ensures Arrive(Emit(batch)) == batch
  {
    SegmentsRestore(batch);
    if |batch| == 1 {
      assert batch == [batch[0]];
      FlattenOne(batch[0]);
    }
  }

  lemma ConcatMore(batches: seq<seq<Packet>>, b: seq<Packet>)
    ensures Concat(batches + [b]) == Concat(batches) + b
  {
    assert (batches + [b])[..|batches|] == batches;
  }

  /** What arrives is the concatenation of the batches that were taken. */
  lemma {:induction false} ArriveEmitted(batches: seq<seq<Packet>>, taken: seq<bool>)
    requires |batches| == |taken|
    requires forall i :: 0 <= i < |batches| ==> batches[i] != [] && Uniform(batches[i])
    ensures ArriveTaken(EmitAll(batches), taken) == Concat(TakenOf(batches, taken))
  {
    hide Uniform, Emit, Arrive, Concat;
    if batches == [] {
      assert Concat([]) == [] by { NoBatches(); }
    } else {
      var n := |batches| - 1;
      ArriveEmitted(batches[..n], taken[..n]);
      assert EmitAll(batches)[..n] == EmitAll(batches[..n]);
      ArriveEmission(batches[n]);
      ConcatMore(TakenOf(batches[..n], taken[..n]), batches[n]);
      assert TakenOf(batches[..n], taken[..n]) + [] == TakenOf(batches[..n], taken[..n]);
    }
  }

  lemma NoBatches()
    ensures Concat([]) == []
  {
  }

  /** A batch that was not taken is missing. */
  lemma {:induction false} MissingUnlessTaken(batches: seq<seq<Packet>>, taken: seq<bool>)
    requires |batches| == |taken| && forall i :: 0 <= i < |batches| ==> batches[i] != []
    ensures |Concat(TakenOf(batches, taken))| <= |Concat(batches)|
    ensures AllTaken(taken) ==> TakenOf(batches, taken) == batches
    ensures |Concat(TakenOf(batches, taken))| == |Concat(batches)| ==> AllTaken(taken)
  {
    hide Concat;
    if batches != [] {
      var n := |batches| - 1;
      MissingUnlessTaken(batches[..n], taken[..n]);
      ConcatMore(batches[..n], batches[n]);
      ConcatMore(TakenOf(batches[..n], taken[..n]), batches[n]);
      assert batches[..n] + [batches[n]] == batches;
      assert TakenOf(batches[..n], taken[..n]) + [] == TakenOf(batches[..n], taken[..n]);
    }
  }

  /** From end to end: what arrives are the batches the socket took; and the packets that arrive,
      followed by those still held back, are the packets written exactly if it took all of them. */
  lemma OffloadIsTransparent(max: nat, ops: seq<Op>, taken: seq<bool>)
    requires max >= 2 && WithContent(ops) && |taken| == |Run(max, ops).batches|
    ensures var s := Run(max, ops);
            && (forall i :: 0 <= i < |s.batches| ==> s.batches[i] != [])
            && ArriveTaken(EmitAll(s.batches), taken) == Concat(TakenOf(s.batches, taken))
            && (ArriveTaken(EmitAll(s.batches), taken) + s.pending == Puts(ops) <==> AllTaken(taken))
  {
    hide Run, Puts, ArriveTaken, TakenOf, Concat, EmitAll;
    var s := Run(max, ops);
    BatchesAreGood(max, ops);
    NothingLost(max, ops);
    ArriveEmitted(s.batches, taken);
    MissingUnlessTaken(s.batches, taken);
  }

  /** After a final flush everything written has arrived, exactly if the socket took every batch. */
  lemma FlushDeliversAll(max: nat, ops: seq<Op>, taken: seq<bool>)
    requires max >= 2 && WithContent(ops) && |taken| == |Run(max, ops + [FlushNow]).batches|
    ensures var s := Run(max, ops + [FlushNow]);
            && s.pending == [] && (forall i :: 0 <= i < |s.batches| ==> s.batches[i] != [])
            && (ArriveTaken(EmitAll(s.batches), taken) == Puts(ops) <==> AllTaken(taken))
  {
    hide ArriveTaken, EmitAll, Puts;
    RunStep(max, ops, FlushNow);
    OffloadIsTransparent(max, ops + [FlushNow], taken);
    var arrived := ArriveTaken(EmitAll(Run(max, ops + [FlushNow]).batches), taken);
    assert arrived + [] == arrived;
  }

  /** No packet is longer than `longest`. */
  ghost predicate Short(ops: seq<Op>, longest: nat) {
    forall i :: 0 <= i < |ops| && ops[i].Put? ==> |ops[i].packet| <= longest
  }

  /** With a maximum of at least 2, fewer packets than the maximum are held back, whatever they hold. */
  lemma {:induction false} FewArePending(max: nat, ops: seq<Op>, longest: nat)
    requires max >= 2 && Short(ops, longest)
    ensures var b := RunInplace(max, ops).pending;
            |b| < max && forall i :: 0 <= i < |b| ==> |b[i]| <= longest
  {
    if ops != [] {
      FewArePending(max, ops[..|ops| - 1], longest);
    }
  }

  lemma OneMoreFits(k: nat, max: nat, longest: nat)
    requires k < max
    ensures k * longest + longest <= max * longest
  {
    assert k * longest + longest == (k + 1) * longest;
  }

  lemma {:induction false} FlattenIsShort(ps: seq<Packet>, longest: nat)
    requires forall i :: 0 <= i < |ps| ==> |ps[i]| <= longest
    ensures |Flatten(ps)| <= |ps| * longest
  {
    if ps != [] {
      FlattenIsShort(ps[1..], longest);
      assert |ps| * longest == |ps[1..]| * longest + longest;
    }
  }
}

/** `IOBufQuicBatch` with the chained `GSOPacketBatchWriter`. */
module ChainedGso {
  import opened Bytes
  import opened GsoBatches

  class ChainedBatch {
    const maxBufs: nat
    var buf: seq<Packet>
    var currBufs: nat
    var prevSize: nat
    var packetsSent: nat
    var bytesSent: nat
    /** What was handed to the socket, and what of it the socket took. */
    var sent: seq<Emission>
    var taken: seq<bool>

    /** What the client did so far, and the batches it led to. */
    ghost var ops: seq<Op>
    ghost var progress: Progress

    /** The fields represent the progress of the batching. */
    ghost predicate Represents()
      reads this
    {
      && buf == progress.pending && currBufs == |buf|
      && prevSize == (if buf == [] then 0 else |buf[0]|)
      && Emits(progress.batches, sent) && |taken| == |sent|
    }

    ghost predicate Valid()
      reads this
    {
      && Represents() && progress == Run(maxBufs, ops)
      && packetsSent == |Puts(ops)| && bytesSent == |Flatten(Puts(ops))|
    }

    constructor (maxBufs: nat)
      ensures Valid() && ops == [] && sent == [] && taken == [] && this.maxBufs == maxBufs
    {
      this.maxBufs := maxBufs;
      buf, currBufs, prevSize, packetsSent, bytesSent, sent, taken := [], 0, 0, 0, 0, [], [];
      ops, progress := [], Progress([], []);
    }

    /** `GSOPacketBatchWriter::needsFlush`. */
    predicate NeedsFlush(size: nat)
      reads this
    {
      prevSize != 0 && size > prevSize
    }

    /** `GSOPacketBatchWriter::append`; the result asks for a flush. */
    method AppendPacket(p: Packet) returns (flush: bool)
      requires Represents()
      modifies `buf, `prevSize, `currBufs, `progress
      ensures Represents() && progress == old(progress.(pending := progress.pending + [p]))
      ensures flush <==> old(buf) != [] && (|p| != old(prevSize) || |buf| == maxBufs)
    {
      progress := progress.(pending := progress.pending + [p]);
      if buf == [] {
        buf := [p];
        prevSize := |p|;
        currBufs := 1;
        return false;
      }
      buf := buf + [p];
      currBufs := currBufs + 1;
      if |p| != prevSize {
        return true;
      }
      if currBufs == maxBufs {
        return true;
      }
      return false;
    }

    /** Hands the batch to the socket, whose answer is `consumed`, and starts anew whatever the
        answer. */
    method FlushBatch(consumed: int) returns (ok: bool)
      requires Represents()
      modifies `buf, `currBufs, `prevSize, `sent, `taken, `progress
      ensures Represents() && progress == Flush(old(progress))
      ensures ok <==> old(buf) == [] || consumed >= 0
      ensures taken == old(taken) + if old(buf) == [] then [] else [consumed >= 0]
    {
      ok := true;
      if buf != [] {
        EmitsMore(progress.batches, sent, buf);
        sent := sent + [Emission(Flatten(buf), if currBufs > 1 then prevSize else 0)];
        ok := consumed >= 0;
        taken := taken + [ok];
      }
      progress := Flush(progress);
      buf, currBufs, prevSize := [], 0, 0;
    }

    /** The flushes and the append of `IOBufQuicBatch::write`. */
    method Batch(p: Packet, consumed1: int, consumed2: int) returns (ok: bool)
      requires Represents()
      modifies `buf, `currBufs, `prevSize, `sent, `taken, `progress
      ensures Represents() && progress == Write(maxBufs, old(progress), p)
      ensures ok <==> (FlushesAfter(maxBufs, old(progress), p) ==> consumed2 >= 0)
      ensures taken == old(taken) + if FlushesFirst(old(progress), p) then [consumed1 >= 0]
                                    else if FlushesAfter(maxBufs, old(progress), p) then [consumed2 >= 0] else []
    {
      hide Emits;
      if NeedsFlush(|p|) {
        var _ := FlushBatch(consumed1);
      }
      var flush := AppendPacket(p);
      ok := true;
      if flush {
        ok := FlushBatch(consumed2);
      }
    }

    /** `IOBufQuicBatch::write`, with the answers of the socket to the flushes it may cause.
        The batches depend on what the client does alone. */
    method WritePacket(p: Packet, consumed1: int, consumed2: int) returns (ok: bool)
      requires Valid()
      modifies this
      ensures Valid() && ops == old(ops) + [Put(p)]
      // Only the flush of the packet's own batch is reported; one that makes room for it is not.
      ensures ok <==> (FlushesAfter(maxBufs, old(progress), p) ==> consumed2 >= 0)
      ensures taken == old(taken) + if FlushesFirst(old(progress), p) then [consumed1 >= 0]
                                    else if FlushesAfter(maxBufs, old(progress), p) then [consumed2 >= 0] else []
    {
      hide Run, Emits, Flatten, Write, Puts, FlushesFirst, FlushesAfter;
      RunStep(maxBufs, ops, Put(p));
      FlattenConcat(Puts(ops), [p]);
      FlattenOne(p);
      packetsSent := packetsSent + 1;
      bytesSent := bytesSent + |p|;
      ok := Batch(p, consumed1, consumed2);
      ops := ops + [Put(p)];
    }

    /** `IOBufQuicBatch::flush`. */
    method FlushPending(consumed: int) returns (ok: bool)
      requires Valid()
      modifies this
      ensures Valid() && ops == old(ops) + [FlushNow] && buf == []
      ensures ok <==> old(buf) == [] || consumed >= 0
      ensures taken == old(taken) + if old(buf) == [] then [] else [consumed >= 0]
    {
      hide Run, Emits, Flatten, Puts;
      RunStep(maxBufs, ops, FlushNow);
      ok := FlushBatch(consumed);
      ops := ops + [FlushNow];
    }

    /** With nothing pending, everything written has arrived, exactly if the socket took every batch. */
    lemma AllHasArrived()
      requires Valid() && buf == [] && maxBufs >= 2 && WithContent(ops)
      ensures ArriveTaken(sent, taken) == Puts(ops) <==> AllTaken(taken)
    {
      hide Puts, ArriveTaken, TakenOf, EmitAll;
      OffloadIsTransparent(maxBufs, ops, taken);
      assert ArriveTaken(sent, taken) + [] == ArriveTaken(sent, taken);
    }
  }

  /** A batch that is refused to make room for a larger packet is lost although every call succeeds. */
  method SilentRefusal() returns (d: ChainedBatch, ok: bool)
    ensures fresh(d) && d.Valid() && ok && d.buf == [] && d.ops == [Put([7]), Put([7, 7]), FlushNow]
    ensures ArriveTaken(d.sent, d.taken) != Puts(d.ops)
  {
    hide Puts, ArriveTaken, Flatten, Emits;
    d := new ChainedBatch(2);
    RunStep(2, [], Put([7]));
    RunStep(2, [Put([7])], Put([7, 7]));
    assert [] + [Put([7])] == [Put([7])] && [Put([7])] + [Put([7, 7])] == [Put([7]), Put([7, 7])];
    assert d.ops == [];
    var ok1 := d.WritePacket([7], 0, 0);
    assert d.progress == Progress([], [[7]]);
    var ok2 := d.WritePacket([7, 7], -1, 0);
    var ok3 := d.FlushPending(0);
    ok := ok1 && ok2 && ok3;
    assert !d.taken[0];
    d.AllHasArrived();
  }
}

/** `IOBufQuicBatch` with the `GSOInplacePacketBatchWriter`, which keeps all packets of a batch in
    one contiguous buffer that the packet builder writes into. */
module InplaceGso {
  import opened Wrappers
  import opened Bytes
  import opened GsoBatches

  /** The part of `folly::IOBuf` that is used: `length` bytes of `storage` from `data` on. */
  class ContiguousBuf {
    const storage: array<byte>
    var data: nat
    var length: nat

    ghost predicate Valid()
      reads this
    {
      data + length <= storage.Length
    }

    ghost function Content(): (c: seq<byte>)
      requires Valid()
      reads this, storage
      ensures |c| == length
    {
      storage[data..data + length]
    }

    constructor (capacity: nat)
      ensures Valid() && data == 0 && length == 0 && storage.Length == capacity && fresh(storage)
    {
      storage := new byte[capacity];
      data, length := 0, 0;
    }

    method TrimEnd(n: nat)
      requires Valid() && n <= length
      modifies this
      ensures Valid() && data == old(data) && length == old(length) - n
    {
      length := length - n;
    }

    method TrimStart(n: nat)
      requires Valid() && n <= length
      modifies this
      ensures Valid() && data == old(data) + n && length == old(length) - n
    {
      data, length := data + n, length - n;
    }

    /** Takes in `n` bytes that already lie behind the end. */
    method Append(n: nat)
      requires Valid() && data + length + n <= storage.Length
      modifies this
      ensures Valid() && data == old(data) && length == old(length) + n
    {
      length := length + n;
    }

    /** Moves the content `n` bytes towards the start of the storage. */
    method Retreat(n: nat)
      requires Valid() && n <= data
      modifies this, storage
      ensures Valid() && data == old(data) - n && length == old(length)
      ensures Content() == old(Content())
    {
      ghost var c := Content();
      var from, dest, i := data, data - n, 0;
      while i < length
        invariant 0 <= i <= length
        invariant forall j :: 0 <= j < i ==> storage[dest + j] == c[j]
        invariant forall j :: i <= j < length ==> storage[from + j] == c[j]
        modifies storage
      {
        storage[dest + i] := storage[from + i];
        i := i + 1;
      }
      data := dest;
    }

    method Clear()
      modifies this
      ensures Valid() && data == 0 && length == 0
    {
      data, length := 0, 0;
    }

    /** What `write` does with the buffer: the first `n` bytes are sent, and the bytes behind
        them become the content at the front of the storage. */
    method TakePrefix(n: nat) returns (bytes: seq<byte>)
      requires Valid() && data == 0 && n <= length
      modifies this, storage
      ensures Valid() && data == 0 && bytes == old(Content()[..n]) && Content() == old(Content()[n..])
    {
      var diffToEnd := length - n;
      ghost var c := Content();
      TrimEnd(diffToEnd);
      bytes := storage[data..data + length];
      if diffToEnd != 0 {
        TrimStart(n);
        Append(diffToEnd);
        assert Content() == c[n..];
        Retreat(n);
      } else {
        Clear();
      }
    }

    /** The packet builder writes a packet behind the content. */
    method Build(p: Packet)
      requires Valid() && data + length + |p| <= storage.Length
      modifies this, storage
      ensures Valid() && data == old(data) && Content() == old(Content()) + p
    {
      var i := 0;
      ghost var c := Content();
      while i < |p|
        invariant 0 <= i <= |p| && storage[data + length..data + length + i] == p[..i]
        invariant Content() == c
        modifies storage
      {
        storage[data + length + i] := p[i];
        i := i + 1;
      }
      length := length + |p|;
      assert Content() == c + p;
    }
  }

  class InplaceBatch {
    const maxPackets: nat
    const buf: ContiguousBuf
    var lastPacketEnd: Option<nat>
    var prevSize: nat
    var numPackets: nat
    var nextPacketSize: nat
    /** What was handed to the socket, and what of it the socket took. */
    var sent: seq<Emission>
    var taken: seq<bool>

    /** What the client did so far, and the batches it led to. */
    ghost var ops: seq<Op>
    ghost var progress: Progress

    /** The fields represent the progress of the batching; the buffer holds the pending
        packets, followed by `tail`, a packet that was built but not yet appended. */
    ghost predicate Represents(tail: seq<byte>)
      reads this, buf, buf.storage
    {
      && buf.Valid() && buf.data == 0 && buf.Content() == Flatten(progress.pending) + tail
      && numPackets == |progress.pending|
      && lastPacketEnd == (if progress.pending == [] then None else Some(|Flatten(progress.pending)|))
      && prevSize == (if progress.pending == [] then 0 else |progress.pending[0]|)
      && Emits(progress.batches, sent) && |taken| == |sent|
    }

    /** Between packets the buffer holds the pending packets and nothing else. */
    ghost predicate Valid()
      reads this, buf, buf.storage
    {
      Represents([]) && progress == RunInplace(maxPackets, ops)
    }

    constructor (maxPackets: nat, capacity: nat)
      ensures Valid() && ops == [] && this.maxPackets == maxPackets
      ensures fresh(buf) && fresh(buf.storage) && buf.storage.Length == capacity
    {
      this.maxPackets := maxPackets;
      buf := new ContiguousBuf(capacity);
      lastPacketEnd, prevSize, numPackets, nextPacketSize, sent, taken := None, 0, 0, 0, [], [];
      ops, progress := [], Progress([], []);
    }

    /** `needsFlush`, which also remembers the size of the packet that caused the flush. */
    method NeedsFlush(size: nat) returns (shouldFlush: bool)
      modifies `nextPacketSize
      ensures shouldFlush <==> prevSize != 0 && size > prevSize
      ensures nextPacketSize == if shouldFlush then size else old(nextPacketSize)
    {
      shouldFlush := prevSize != 0 && size > prevSize;
      if shouldFlush {
        nextPacketSize := size;
      }
    }

    /** `append`: the packet is in the buffer already. */
    method AppendPacket(size: nat, ghost p: Packet) returns (flush: bool)
      requires Represents(p) && |p| == size
      modifies `lastPacketEnd, `prevSize, `numPackets, `progress
      ensures Represents([]) && progress == old(progress.(pending := progress.pending + [p]))
      ensures flush <==> old(numPackets) != 0 && (old(prevSize) > size || numPackets == maxPackets)
    {
      FlattenConcat(progress.pending, [p]);
      FlattenOne(p);
      progress := progress.(pending := progress.pending + [p]);
      assert buf.Content() == Flatten(progress.pending) + [];
      if lastPacketEnd == None {
        prevSize := size;
        lastPacketEnd := Some(buf.data + buf.length);
        numPackets := 1;
        return false;
      }
      numPackets := numPackets + 1;
      lastPacketEnd := Some(buf.data + buf.length);
      return prevSize > size || numPackets == maxPackets;
    }

    /** `write`: sends the buffer up to the end of the last packet; what lies behind it, a
        packet that was held back, is moved to the front of the buffer. */
    method WriteOut(consumed: int, ghost tail: seq<byte>)
      requires Represents(tail) && progress.pending != []
      modifies this, buf, buf.storage
      ensures Represents(tail) && progress == Flush(old(progress)) && buf.Content() == tail
      ensures ops == old(ops) && taken == old(taken) + [consumed >= 0]
    {
      hide Emits, Flatten;
      FlattenEmpty();
      EmitsMore(progress.batches, sent, progress.pending);
      var bytes := buf.TakePrefix(lastPacketEnd.value - buf.data);
      sent, taken := sent + [Emission(bytes, if numPackets > 1 then prevSize else 0)], taken + [consumed >= 0];
      lastPacketEnd, prevSize, numPackets, nextPacketSize := None, 0, 0, 0;
      progress := Flush(progress);
      assert [] + tail == tail;
    }

    method FlushBatch(consumed: int, ghost tail: seq<byte>) returns (ok: bool)
      requires Represents(tail)
      modifies this, buf, buf.storage
      ensures Represents(tail) && progress == Flush(old(progress)) && ops == old(ops)
      ensures ok <==> old(numPackets) == 0 || consumed >= 0
      ensures taken == old(taken) + if old(numPackets) == 0 then [] else [consumed >= 0]
    {
      ok := true;
      if numPackets != 0 {
        WriteOut(consumed, tail);
        ok := consumed >= 0;
      }
      lastPacketEnd, prevSize, numPackets, nextPacketSize := None, 0, 0, 0;
    }

    /** The flushes and the append of `IOBufQuicBatch::write`. */
    method Batch(p: Packet, consumed1: int, consumed2: int) returns (ok: bool)
      requires Represents(p)
      modifies this, buf, buf.storage
      ensures Represents([]) && progress == WriteInplace(maxPackets, old(progress), p) && ops == old(ops)
      ensures ok <==> (FlushesAfterInplace(maxPackets, old(progress), p) ==> consumed2 >= 0)
      ensures taken == old(taken) + if FlushesFirst(old(progress), p) then [consumed1 >= 0]
                                    else if FlushesAfterInplace(maxPackets, old(progress), p) then [consumed2 >= 0] else []
    {
      hide Emits, Flatten;
      var needsFlush := NeedsFlush(|p|);
      if needsFlush {
        var _ := FlushBatch(consumed1, p);
      }
      var flush := AppendPacket(|p|, p);
      ok := true;
      if flush {
        ok := FlushBatch(consumed2, []);
      }
    }

    /** The packet is built behind the pending ones, then written as with the chained writer. */
    method WritePacket(p: Packet, consumed1: int, consumed2: int) returns (ok: bool)
      requires Valid() && |Flatten(progress.pending)| + |p| <= buf.storage.Length
      modifies this, buf, buf.storage
      ensures Valid() && ops == old(ops) + [Put(p)]
      ensures ok <==> (FlushesAfterInplace(maxPackets, old(progress), p) ==> consumed2 >= 0)
      ensures taken == old(taken) + if FlushesFirst(old(progress), p) then [consumed1 >= 0]
                                    else if FlushesAfterInplace(maxPackets, old(progress), p) then [consumed2 >= 0] else []
    {
      hide RunInplace, WriteInplace, Emits, Flatten, FlushesFirst, FlushesAfterInplace;
      RunStep(maxPackets, ops, Put(p));
      buf.Build(p);
      ok := Batch(p, consumed1, consumed2);
      ops := ops + [Put(p)];
    }

    /** `IOBufQuicBatch::flush`. */
    method FlushPending(consumed: int) returns (ok: bool)
      requires Valid()
      modifies this, buf, buf.storage
      ensures Valid() && ops == old(ops) + [FlushNow] && numPackets == 0 && buf.Content() == []
      ensures ok <==> old(numPackets) == 0 || consumed >= 0
      ensures taken == old(taken) + if old(numPackets) == 0 then [] else [consumed >= 0]
    {
      hide RunInplace, Emits;
      RunStep(maxPackets, ops, FlushNow);
      ok := FlushBatch(consumed, []);
      ops := ops + [FlushNow];
    }

    /** For packets with content, what is emitted is what the chained writer emits. */
    lemma EmitsAsChained(chained: seq<Emission>)
      requires Valid() && WithContent(ops) && Emits(Run(maxPackets, ops).batches, chained)
      ensures sent == chained
    {
      InplaceRefinesChained(maxPackets, ops);
    }

    /** With nothing pending, everything written has arrived, exactly if the socket took every batch. */
    lemma AllHasArrived()
      requires Valid() && numPackets == 0 && maxPackets >= 2 && WithContent(ops)
      ensures ArriveTaken(sent, taken) == Puts(ops) <==> AllTaken(taken)
    {
      hide Puts, ArriveTaken, TakenOf, EmitAll;
      InplaceRefinesChained(maxPackets, ops);
      OffloadIsTransparent(maxPackets, ops, taken);
      assert ArriveTaken(sent, taken) + [] == ArriveTaken(sent, taken);
    }

    /** A buffer for as many packets of the longest length as a batch may hold always has room. */
    lemma HasRoom(p: Packet, longest: nat)
      requires Valid() && maxPackets >= 2 && Short(ops, longest) && |p| <= longest
      requires maxPackets * longest <= buf.storage.Length
      ensures |Flatten(progress.pending)| + |p| <= buf.storage.Length
    {
      hide RunInplace, Flatten, Emits;
      FewArePending(maxPackets, ops, longest);
      FlattenIsShort(progress.pending, longest);
      OneMoreFits(|progress.pending|, maxPackets, longest);
    }
  }
}
