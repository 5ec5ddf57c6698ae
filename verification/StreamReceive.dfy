/** The receiving side of a stream: out-of-order, overlapping and repeated stretches of bytes are
    merged into a read buffer from which the application reads in order. */
module StreamReceive {
  import opened Wrappers
  import opened Bytes

  /** `StreamBuffer`: a stretch of the stream. */
  datatype StreamBuffer = StreamBuffer(data: seq<byte>, offset: nat, eof: bool) {
    function End(): nat {
      offset + |data|
    }

    predicate Has(x: nat) {
      offset <= x < End()
    }
  }

  /** A byte together with its position in the stream. */
  type Cell = (nat, byte)

  ghost function CellsOf(b: StreamBuffer): set<Cell> {
    set j | 0 <= j < |b.data| :: (b.offset + j, b.data[j])
  }

  ghost predicate Covers(bs: seq<StreamBuffer>, x: nat) {
    exists i :: 0 <= i < |bs| && bs[i].Has(x)
  }

  /** Stretches that are not empty, sorted, and with a gap between neighbours. */
  ghost predicate Separate(bs: seq<StreamBuffer>) {
    && (forall i :: 0 <= i < |bs| ==> bs[i].data != [])
    && (forall i, j :: 0 <= i < j < |bs| ==> bs[i].End() < bs[j].offset)
  }

  /** Every byte held was received at its position. */
  ghost predicate Sound(bs: seq<StreamBuffer>, cells: set<Cell>) {
    forall i :: 0 <= i < |bs| ==> CellsOf(bs[i]) <= cells
  }

  lemma CoversConcat(a: seq<StreamBuffer>, b: seq<StreamBuffer>, x: nat)
    ensures Covers(a + b, x) <==> Covers(a, x) || Covers(b, x)
  {
    if Covers(a, x) {
      var i :| 0 <= i < |a| && a[i].Has(x);
      assert (a + b)[i].Has(x);
    }
    if Covers(b, x) {
      var i :| 0 <= i < |b| && b[i].Has(x);
      assert (a + b)[|a| + i].Has(x);
    }
  }

  lemma OneCovers(b: StreamBuffer, x: nat)
    ensures Covers([b], x) <==> b.Has(x)
  {
    assert [b][0] == b;
  }

  /** Appending to a stretch the part of a later one that lies beyond its end. */
  function Extended(cur: StreamBuffer, b: StreamBuffer): (r: StreamBuffer)
    requires b.offset <= cur.End() <= b.End()
    ensures r.offset == cur.offset && r.End() == b.End()
  {
    cur.(data := cur.data + b.data[cur.End() - b.offset..])
  }

  lemma ExtendedIsSound(cur: StreamBuffer, b: StreamBuffer, cells: set<Cell>)
    requires b.offset <= cur.End() <= b.End() && CellsOf(cur) <= cells && CellsOf(b) <= cells
    ensures CellsOf(Extended(cur, b)) <= cells
  {
    var r := Extended(cur, b);
    forall j | 0 <= j < |r.data|
      ensures (r.offset + j, r.data[j]) in cells
    {
      if j < |cur.data| {
        assert (cur.offset + j, cur.data[j]) in CellsOf(cur);
      } else {
        var k := cur.offset + j - b.offset;
        assert (b.offset + k, b.data[k]) in CellsOf(b);
      }
    }
  }

  /** What the merging loop has achieved: `cur` is the union of the new stretch and of the
      stretches `lo..hi`, and lies clear of those before `lo`. */
  ghost predicate Merged(bs: seq<StreamBuffer>, new_: StreamBuffer, cur: StreamBuffer, lo: nat, hi: nat) {
    && lo <= hi <= |bs| && cur.data != []
    && (forall x :: cur.Has(x) <==> new_.Has(x) || Covers(bs[lo..hi], x))
    && (forall k :: 0 <= k < lo ==> bs[k].End() < cur.offset)
    && (forall k :: hi <= k < |bs| && lo < hi ==> cur.offset < bs[k].offset)
  }

  lemma CoversNext(bs: seq<StreamBuffer>, lo: nat, hi: nat, x: nat)
    requires lo <= hi < |bs|
    ensures Covers(bs[lo..hi + 1], x) <==> Covers(bs[lo..hi], x) || bs[hi].Has(x)
  {
    assert bs[lo..hi + 1] == bs[lo..hi] + [bs[hi]];
    CoversConcat(bs[lo..hi], [bs[hi]], x);
    assert [bs[hi]][0] == bs[hi];
  }

  /** The next stretch is swallowed: it lies inside `cur`. */
  lemma MergeSwallow(bs: seq<StreamBuffer>, new_: StreamBuffer, cur: StreamBuffer, lo: nat, hi: nat)
    requires Separate(bs) && Merged(bs, new_, cur, lo, hi) && hi < |bs|
    requires cur.offset <= bs[hi].offset && bs[hi].End() <= cur.End()
    ensures Merged(bs, new_, cur, lo, hi + 1)
  {
    forall x
      ensures cur.Has(x) <==> new_.Has(x) || Covers(bs[lo..hi + 1], x)
    {
      CoversNext(bs, lo, hi, x);
    }
  }

  /** The next stretch begins inside or at the end of `cur` and outlives it. */
  lemma MergeLeftOverlap(bs: seq<StreamBuffer>, new_: StreamBuffer, cur: StreamBuffer, lo: nat, hi: nat)
    requires Separate(bs) && Merged(bs, new_, cur, lo, hi) && hi < |bs|
    requires cur.offset <= bs[hi].offset <= cur.End() <= bs[hi].End()
    ensures Merged(bs, new_, Extended(cur, bs[hi]), lo, hi + 1)
  {
    var r := Extended(cur, bs[hi]);
    forall x
      ensures r.Has(x) <==> new_.Has(x) || Covers(bs[lo..hi + 1], x)
    {
      CoversNext(bs, lo, hi, x);
      assert r.Has(x) <==> cur.Has(x) || bs[hi].Has(x);
    }
  }

  /** The first stretch reached begins before `new_` and ends inside it. */
  lemma MergeRightOverlap(bs: seq<StreamBuffer>, new_: StreamBuffer, lo: nat)
    requires Separate(bs) && Merged(bs, new_, new_, lo, lo) && lo < |bs|
    requires bs[lo].offset < new_.offset <= bs[lo].End() < new_.End()
    ensures Merged(bs, new_, Extended(bs[lo], new_), lo, lo + 1)
  {
    var r := Extended(bs[lo], new_);
    forall x
      ensures r.Has(x) <==> new_.Has(x) || Covers(bs[lo..lo + 1], x)
    {
      CoversNext(bs, lo, lo, x);
      assert r.Has(x) <==> new_.Has(x) || bs[lo].Has(x);
    }
  }

  /** Replacing `lo..hi` by the merged stretch adds exactly the new positions. */
  lemma SpliceMerged(bs: seq<StreamBuffer>, new_: StreamBuffer, cur: StreamBuffer, lo: nat, hi: nat)
    requires Separate(bs) && Merged(bs, new_, cur, lo, hi)
    requires hi < |bs| ==> cur.End() < bs[hi].offset
    ensures var r := bs[..lo] + [cur] + bs[hi..];
            Separate(r) && forall x :: Covers(r, x) <==> Covers(bs, x) || new_.Has(x)
  {
    hide Covers, Separate;
    var r := bs[..lo] + [cur] + bs[hi..];
    forall x
      ensures Covers(r, x) <==> Covers(bs, x) || new_.Has(x)
    {
      CoversConcat(bs[..lo] + [cur], bs[hi..], x);
      CoversConcat(bs[..lo], [cur], x);
      OneCovers(cur, x);
      assert bs == bs[..lo] + bs[lo..hi] + bs[hi..];
      CoversConcat(bs[..lo] + bs[lo..hi], bs[hi..], x);
      CoversConcat(bs[..lo], bs[lo..hi], x);
    }
    SpliceIsSeparate(bs, cur, lo, hi);
  }

  lemma SpliceIsSeparate(bs: seq<StreamBuffer>, cur: StreamBuffer, lo: nat, hi: nat)
    requires Separate(bs) && lo <= hi <= |bs| && cur.data != []
    requires forall k :: 0 <= k < lo ==> bs[k].End() < cur.offset
    requires hi < |bs| ==> cur.End() < bs[hi].offset
    ensures Separate(bs[..lo] + [cur] + bs[hi..])
  {
    assert forall k :: hi <= k < |bs| ==> cur.End() < bs[k].offset;
  }

  /** A new stretch inside an existing one changes nothing. */
  lemma SubsetIsCovered(bs: seq<StreamBuffer>, new_: StreamBuffer, k: nat)
    requires k < |bs| && bs[k].offset <= new_.offset && new_.End() <= bs[k].End()
    ensures forall x :: Covers(bs, x) <==> Covers(bs, x) || new_.Has(x)
  {
    assert forall x :: new_.Has(x) ==> bs[k].Has(x);
  }

  lemma MergeNothing(bs: seq<StreamBuffer>, new_: StreamBuffer, first: nat)
    requires first <= |bs| && new_.data != [] && forall k :: 0 <= k < first ==> bs[k].End() < new_.offset
    ensures Merged(bs, new_, new_, first, first)
  {
  }

  lemma EndsIncrease(bs: seq<StreamBuffer>, k: nat)
    requires Separate(bs) && k < |bs|
    ensures bs[k].End() <= bs[|bs| - 1].End()
  {
  }

  lemma SoundSplice(bs: seq<StreamBuffer>, cur: StreamBuffer, lo: nat, hi: nat, cells: set<Cell>)
    requires Sound(bs, cells) && CellsOf(cur) <= cells && lo <= hi <= |bs|
    ensures Sound(bs[..lo] + [cur] + bs[hi..], cells)
  {
  }

  /** The state of the merging loop. */
  datatype Scan = Scan(current: StreamBuffer, it: nat, done: bool,
                       startOverlap: Option<nat>, endOverlap: Option<nat>, insertedAt: Option<nat>)

  /** One iteration of the merging loop, in the order in which the cases are tried. */
  function Step(bs: seq<StreamBuffer>, s: Scan): Scan
    requires s.it < |bs|
  {
    var b, cur := bs[s.it], s.current;
    var start := if s.startOverlap.None? then Some(s.it) else s.startOverlap;
    if cur.offset == b.offset && cur.End() == b.End() then s.(it := s.it + 1, done := true)
    else if cur.offset >= b.offset && cur.End() <= b.End() then s.(it := s.it + 1, done := true)
    else if cur.offset <= b.offset && cur.End() >= b.offset && cur.End() <= b.End() then
      s.(current := Extended(cur, b), it := s.it + 1, done := true,
         startOverlap := start, endOverlap := Some(s.it + 1))
    else if cur.offset < b.offset && cur.End() < b.offset then
      s.(it := s.it + 1, done := true, startOverlap := start,
         endOverlap := if s.startOverlap.None? then Some(s.it) else s.endOverlap)
    else if cur.offset <= b.offset && cur.End() > b.offset then
      s.(it := s.it + 1, startOverlap := start, endOverlap := Some(s.it + 1))
    else if cur.offset >= b.offset && cur.offset <= b.End() && cur.End() > b.End() then
      s.(current := Extended(b, cur), it := s.it + 1, insertedAt := Some(s.it),
         startOverlap := Some(s.it + 1), endOverlap := Some(s.it + 1))
    else s.(it := s.it + 1)
  }

  /** What holds between iterations: either the new stretch was found inside an element,
      or elements `first..hi` have been merged into `current`. */
  ghost predicate ScanInv(bs: seq<StreamBuffer>, new_: StreamBuffer, cells: set<Cell>, first: nat, s: Scan, hi: nat) {
    && first <= s.it <= |bs| && first <= hi <= |bs| && CellsOf(s.current) <= cells
    && Merged(bs, new_, s.current, first, hi) && (!s.done ==> hi == s.it)
    && (hi == first ==> s.current == new_)
    && (hi == first && !s.done ==> s.startOverlap.None?)
    && (s.insertedAt.None? && s.startOverlap.None? ==> hi == first)
    && (s.insertedAt.None? && s.startOverlap.Some? ==> s.startOverlap == Some(first) && s.endOverlap == Some(hi))
    && (s.insertedAt.Some? ==> s.insertedAt == Some(first) && first < hi
                               && s.startOverlap == Some(first + 1) && s.endOverlap == Some(hi))
    && (s.done && s.startOverlap.None? ==>
          first < |bs| && bs[first].offset <= new_.offset && new_.End() <= bs[first].End())
    && (s.done && s.startOverlap.Some? && hi < |bs| ==> s.current.End() < bs[hi].offset)
  }

  lemma StepKeepsInv(bs: seq<StreamBuffer>, new_: StreamBuffer, cells: set<Cell>, first: nat, s: Scan) returns (hi: nat)
    requires Separate(bs) && Sound(bs, cells) && new_.data != []
    requires first < |bs| ==> bs[first].End() >= new_.offset
    requires ScanInv(bs, new_, cells, first, s, s.it) && !s.done && s.it < |bs|
    ensures ScanInv(bs, new_, cells, first, Step(bs, s), hi)
  {
    hide CellsOf, Extended, Covers;
    var b, cur, it := bs[s.it], s.current, s.it;
    hi := it;
    if cur.offset >= b.offset && cur.End() <= b.End() {
    } else if cur.offset <= b.offset && cur.End() >= b.offset && cur.End() <= b.End() {
      hi := it + 1;
      MergeLeftOverlap(bs, new_, cur, first, it);
      ExtendedIsSound(cur, b, cells);
    } else if cur.offset < b.offset && cur.End() < b.offset {
    } else if cur.offset <= b.offset && cur.End() > b.offset {
      hi := it + 1;
      MergeSwallow(bs, new_, cur, first, it);
    } else {
      hi := it + 1;
      MergeRightOverlap(bs, new_, first);
      ExtendedIsSound(b, cur, cells);
    }
  }

  /** The part of `appendDataToReadBufferCommon` that places a stretch in the read buffer:
      `std::lower_bound` finds the first element that reaches it, the loop merges element
      after element, and the merged elements are erased. */
  method Place(bs: seq<StreamBuffer>, new_: StreamBuffer, ghost cells: set<Cell>) returns (r: seq<StreamBuffer>)
    requires Separate(bs) && new_.data != [] && Sound(bs, cells) && CellsOf(new_) <= cells
    ensures Separate(r) && Sound(r, cells)
    ensures forall x :: Covers(r, x) <==> Covers(bs, x) || new_.Has(x)
  {
    hide CellsOf, Covers, Step, Separate, Merged, Sound;
    if bs == [] {
      MergeNothing(bs, new_, 0);
      SpliceMerged(bs, new_, new_, 0, 0);
      SoundSplice(bs, new_, 0, 0, cells);
      assert bs[..0] + [new_] + bs[0..] == [new_];
      return [new_];
    }
    var first := LowerBound(bs, new_.offset);
    MergeNothing(bs, new_, first);
    var s := Scan(new_, first, false, None, None, None);
    ghost var hi := first;
    while s.it != |bs| && !s.done
      invariant ScanInv(bs, new_, cells, first, s, hi)
      decreases |bs| - s.it, !s.done
    {
      hi := StepKeepsInv(bs, new_, cells, first, s);
      StepAdvances(bs, s);
      s := Step(bs, s);
    }
    if s.startOverlap.Some? {
      SpliceMerged(bs, new_, s.current, first, hi);
      SoundSplice(bs, s.current, first, hi, cells);
    }
    if s.startOverlap.Some? && s.insertedAt.None? {
      r := bs[..s.startOverlap.value] + [s.current] + bs[s.endOverlap.value..];
    } else if s.insertedAt.Some? {
      r := bs[s.insertedAt.value := s.current];
      r := r[..s.startOverlap.value] + r[s.endOverlap.value..];
      assert r == bs[..first] + [s.current] + bs[hi..];
    } else {
      r := bs;
      var last := bs[|bs| - 1];
      if s.done {
        SubsetIsCovered(bs, new_, first);
        EndsIncrease(bs, first);
      } else {
        SpliceMerged(bs, new_, new_, first, first);
        SoundSplice(bs, new_, first, first, cells);
        assert bs[..first] + [new_] + bs[first..] == bs + [new_];
      }
      if s.current.offset > last.End() {
        r := bs + [s.current];
      }
    }
  }

  lemma StepAdvances(bs: seq<StreamBuffer>, s: Scan)
    requires s.it < |bs|
    ensures Step(bs, s).it == s.it + 1
  {
  }

  method LowerBound(bs: seq<StreamBuffer>, offset: nat) returns (first: nat)
    requires Separate(bs)
    ensures first <= |bs|
    ensures forall k :: 0 <= k < first ==> bs[k].End() < offset
    ensures first < |bs| ==> bs[first].End() >= offset
  {
    first := 0;
    var hi := |bs|;
    while first < hi
      invariant 0 <= first <= hi <= |bs|
      invariant forall k :: 0 <= k < first ==> bs[k].End() < offset
      invariant forall k :: hi <= k < |bs| ==> bs[k].End() >= offset
    {
      var mid := (first + hi) / 2;
      if bs[mid].End() < offset {
        first := mid + 1;
      } else {
        hi := mid;
      }
    }
  }

  ghost predicate Received(cells: set<Cell>, x: nat) {
    exists b: byte :: (x, b) in cells
  }

  /** Every byte is one that was received at its position. */
  ghost predicate ReceivedRun(cells: set<Cell>, start: nat, data: seq<byte>) {
    forall j :: 0 <= j < |data| ==> (start + j, data[j]) in cells
  }

  /** A stretch without the part below `from`. */
  function TrimmedTo(b: StreamBuffer, from: nat): (r: StreamBuffer)
    ensures forall x: nat :: r.Has(x) <==> b.Has(x) && x >= from
    ensures r.offset >= from
  {
    if b.offset < from then StreamBuffer(b.data[Min(from - b.offset, |b.data|)..], from, b.eof) else b
  }

  lemma TrimmedCells(b: StreamBuffer, from: nat)
    ensures CellsOf(TrimmedTo(b, from)) <= CellsOf(b)
    ensures forall c :: c in CellsOf(b) && c.0 >= from ==> TrimmedTo(b, from).Has(c.0)
  {
    var r := TrimmedTo(b, from);
    forall j | 0 <= j < |r.data|
      ensures (r.offset + j, r.data[j]) in CellsOf(b)
    {
      var k := r.offset + j - b.offset;
      assert (b.offset + k, b.data[k]) in CellsOf(b);
    }
  }

  lemma CellsBelow(b: StreamBuffer)
    ensures forall c :: c in CellsOf(b) ==> b.Has(c.0)
    ensures b.data == [] ==> CellsOf(b) == {}
  {
  }

  /** Nothing below `from` appears by placing a stretch that starts there. */
  lemma AllFrom(bs: seq<StreamBuffer>, b: StreamBuffer, r: seq<StreamBuffer>, from: nat)
    requires Separate(bs) && Separate(r) && b.offset >= from && (bs != [] ==> bs[0].offset >= from)
    requires forall x :: Covers(r, x) <==> Covers(bs, x) || b.Has(x)
    ensures r != [] ==> r[0].offset >= from
  {
    if r != [] {
      assert r[0].Has(r[0].offset) && Covers(r, r[0].offset);
    }
  }

  lemma SoundMonotone(bs: seq<StreamBuffer>, cells: set<Cell>, more: set<Cell>)
    requires Sound(bs, cells)
    ensures Sound(bs, cells + more)
  {
  }

  /** The read buffer after `n` bytes have been taken from its front. */
  function Consumed(bs: seq<StreamBuffer>, n: nat): seq<StreamBuffer>
    requires bs != [] && n <= |bs[0].data|
  {
    if n == |bs[0].data| then bs[1..]
    else [bs[0].(data := bs[0].data[n..], offset := bs[0].offset + n)] + bs[1..]
  }

  lemma FrontIsReceived(bs: seq<StreamBuffer>, cells: set<Cell>, max: nat)
    requires bs != [] && Separate(bs) && Sound(bs, cells) && forall c :: c in cells ==> c.0 < max
    ensures bs[0].data != [] && ReceivedRun(cells, bs[0].offset, bs[0].data) && bs[0].End() <= max
  {
    var b := bs[0];
    forall j | 0 <= j < |b.data|
      ensures (b.offset + j, b.data[j]) in cells
    {
      assert (b.offset + j, b.data[j]) in CellsOf(b);
    }
    assert (b.offset + (|b.data| - 1), b.data[|b.data| - 1]) in cells;
  }

  lemma ConsumedIsSeparate(bs: seq<StreamBuffer>, n: nat, cells: set<Cell>)
    requires bs != [] && n <= |bs[0].data| && Separate(bs) && Sound(bs, cells)
    ensures var r := Consumed(bs, n);
            Separate(r) && Sound(r, cells) && (r != [] ==> r[0].offset >= bs[0].offset + n)
  {
    hide CellsOf, TrimmedTo;
    var r, b := Consumed(bs, n), bs[0];
    if n == |b.data| {
      assert forall i :: 0 <= i < |r| ==> r[i] == bs[i + 1];
    } else {
      TrimmedCells(b, b.offset + n);
      TrimmedIs(b, n);
      assert forall i :: 1 <= i < |r| ==> r[i] == bs[i];
      assert r[0].End() == b.End();
    }
  }

  lemma TrimmedIs(b: StreamBuffer, n: nat)
    requires n <= |b.data|
    ensures TrimmedTo(b, b.offset + n) == b.(data := b.data[n..], offset := b.offset + n)
  {
  }

  lemma ConsumedCovers(bs: seq<StreamBuffer>, n: nat, x: nat)
    requires bs != [] && n <= |bs[0].data| && Covers(bs, x) && x >= bs[0].offset + n
    ensures Covers(Consumed(bs, n), x)
  {
    var r := Consumed(bs, n);
    var i :| 0 <= i < |bs| && bs[i].Has(x);
    assert r[if n == |bs[0].data| then i - 1 else i].Has(x);
  }

  lemma NothingAt(bs: seq<StreamBuffer>, x: nat)
    requires Separate(bs) && (bs != [] ==> bs[0].offset > x)
    ensures !Covers(bs, x)
  {
  }

  lemma RunConcat(cells: set<Cell>, start: nat, a: seq<byte>, b: seq<byte>)
    requires ReceivedRun(cells, start, a) && ReceivedRun(cells, start + |a|, b)
    ensures ReceivedRun(cells, start, a + b)
  {
    forall j | 0 <= j < |a + b|
      ensures (start + j, (a + b)[j]) in cells
    {
      if j >= |a| {
        var k := j - |a|;
        assert (start + |a| + k, b[k]) in cells;
      }
    }
  }

  class ReceiveStream {
    var readBuffer: seq<StreamBuffer>
    var currentReadOffset: nat
    var maxOffsetObserved: nat
    var finalReadOffset: Option<nat>

    /** Every byte the stream has accepted, with its position. */
    ghost var cells: set<Cell>
    /** Every byte handed to the application, in order. */
    ghost var delivered: seq<byte>

    /** Whether the application has been told of the end, which moves the read offset past it. */
    ghost predicate EndRead()
      reads this
    {
      finalReadOffset.Some? && currentReadOffset == finalReadOffset.value + 1
    }

    ghost predicate Valid()
      reads this
    {
      && Separate(readBuffer) && Sound(readBuffer, cells)
      && (readBuffer != [] ==> readBuffer[0].offset >= currentReadOffset)
      && (forall c :: c in cells ==> c.0 < maxOffsetObserved)
      && (forall c :: c in cells && c.0 >= currentReadOffset ==> Covers(readBuffer, c.0))
      && (finalReadOffset.Some? ==> maxOffsetObserved <= finalReadOffset.value)
      && |delivered| == (if EndRead() then finalReadOffset.value else currentReadOffset)
      && |delivered| <= maxOffsetObserved
      && ReceivedRun(cells, 0, delivered)
    }

    constructor ()
      ensures Valid() && cells == {} && delivered == [] && finalReadOffset == None && maxOffsetObserved == 0
    {
      readBuffer, currentReadOffset, maxOffsetObserved, finalReadOffset := [], 0, 0, None;
      cells, delivered := {}, [];
    }

    /** A stretch that contradicts what is known of the size of the stream (section 4.5 of
        RFC 9000). */
    predicate ViolatesFinalSize(b: StreamBuffer)
      reads this
    {
      if b.eof then (finalReadOffset.Some? && finalReadOffset.value != b.End()) || maxOffsetObserved > b.End()
      else b.data != [] && finalReadOffset.Some? && b.End() > finalReadOffset.value
    }

    /** `appendDataToReadBufferCommon`; a refusal stands for the exception. */
    method Append(b: StreamBuffer) returns (accepted: bool)
      requires Valid()
      modifies this
      ensures Valid() && (accepted <==> !old(ViolatesFinalSize(b)))
      ensures b.eof ==> (accepted <==> old(finalReadOffset == None || finalReadOffset == Some(b.End()))
                                       && old(maxOffsetObserved) <= b.End())
      ensures !b.eof ==> (accepted <==> b.data == [] || old(finalReadOffset) == None
                                        || b.End() <= old(finalReadOffset).value)
      ensures !accepted ==> unchanged(this)
      ensures accepted ==> cells == old(cells) + CellsOf(b)
      ensures accepted ==> finalReadOffset == if b.eof then Some(b.End()) else old(finalReadOffset)
      ensures accepted ==> maxOffsetObserved == if old(maxOffsetObserved) < b.End() && (b.data != [] || b.eof)
                                                then b.End() else old(maxOffsetObserved)
      ensures currentReadOffset == old(currentReadOffset) && delivered == old(delivered)
    {
      hide Separate, Sound, Covers, CellsOf, TrimmedTo;
      TrimmedCells(b, currentReadOffset);
      CellsBelow(b);
      SoundMonotone(readBuffer, cells, CellsOf(b));
      if !b.eof && |b.data| == 0 {
        return true;
      }
      if ViolatesFinalSize(b) {
        return false;
      }
      if b.eof {
        finalReadOffset := Some(b.End());
      }
      if maxOffsetObserved < b.End() {
        maxOffsetObserved := b.End();
      }
      cells := cells + CellsOf(b);
      accepted := true;
      if |b.data| == 0 {
        return;
      }
      var rest := TrimmedTo(b, currentReadOffset);
      if rest.data == [] {
        return;
      }
      ghost var before := readBuffer;
      readBuffer := Place(readBuffer, rest, cells);
      AllFrom(before, rest, readBuffer, currentReadOffset);
    }

    /** Takes `n` bytes from the element at the front, which starts at the read offset. */
    method TakeFront(n: nat) returns (data: seq<byte>)
      requires Valid() && !EndRead() && readBuffer != []
      requires readBuffer[0].offset == currentReadOffset && n <= |readBuffer[0].data|
      modifies `readBuffer, `currentReadOffset, `delivered
      ensures Valid() && !EndRead() && |data| == n
      ensures currentReadOffset == old(currentReadOffset) + n && delivered == old(delivered) + data
    {
      hide Separate, Sound, Covers, Consumed;
      data := readBuffer[0].data[..n];
      FrontIsReceived(readBuffer, cells, maxOffsetObserved);
      ConsumedIsSeparate(readBuffer, n, cells);
      forall c | c in cells && c.0 >= currentReadOffset + n
        ensures Covers(Consumed(readBuffer, n), c.0)
      {
        ConsumedCovers(readBuffer, n, c.0);
      }
      RunConcat(cells, 0, delivered, data);
      delivered := delivered + data;
      readBuffer := Consumed(readBuffer, n);
      currentReadOffset := currentReadOffset + n;
    }

    /** `readDataInOrderFromReadBuffer`: takes bytes from the front of the read buffer while
        they continue at the read offset; an `amount` of 0 asks for all there are. */
    method ReadInOrder(amount: nat) returns (data: seq<byte>)
      requires Valid() && !EndRead()
      modifies `readBuffer, `currentReadOffset, `delivered
      ensures Valid() && !EndRead()
      ensures currentReadOffset == old(currentReadOffset) + |data| && delivered == old(delivered) + data
      ensures amount != 0 ==> |data| <= amount
      ensures amount == 0 || |data| < amount ==> !Received(cells, currentReadOffset)
    {
      hide Separate, Sound, Covers, ReceivedRun;
      data := [];
      var remaining := amount;
      while (amount == 0 || remaining != 0) && readBuffer != []
        invariant Valid() && !EndRead()
        invariant currentReadOffset == old(currentReadOffset) + |data| && delivered == old(delivered) + data
        invariant amount != 0 ==> 0 <= remaining == amount - |data|
        decreases maxOffsetObserved - currentReadOffset
      {
        FrontIsReceived(readBuffer, cells, maxOffsetObserved);
        var curr := readBuffer[0];
        if curr.offset > currentReadOffset {
          break;
        }
        var toRead := Min(|curr.data|, if amount == 0 then |curr.data| else remaining);
        var splice := TakeFront(toRead);
        data := data + splice;
        if amount != 0 {
          remaining := remaining - toRead;
        }
      }
      if amount == 0 || |data| < amount {
        NothingAt(readBuffer, currentReadOffset);
      }
    }

    /** `readDataFromQuicStream`. The end is reported once every byte before it has been
        handed over. */
    method Read(amount: nat) returns (data: seq<byte>, eof: bool)
      requires Valid()
      modifies this
      ensures Valid() && unchanged(`cells, `maxOffsetObserved, `finalReadOffset)
      ensures delivered == old(delivered) + data
      ensures amount != 0 ==> |data| <= amount
      ensures amount == 0 || |data| < amount ==> !Received(cells, |delivered|)
      ensures eof <==> finalReadOffset == Some(|delivered|)
      ensures eof <==> EndRead()
    {
      hide Separate, Sound, Covers, ReceivedRun;
      if readBuffer != [] {
        FrontIsReceived(readBuffer, cells, maxOffsetObserved);
      }
      if finalReadOffset.Some? && currentReadOffset >= finalReadOffset.value {
        if currentReadOffset == finalReadOffset.value {
          currentReadOffset := currentReadOffset + 1;
        }
        assert delivered + [] == delivered;
        return [], true;
      }
      data := ReadInOrder(amount);
      if readBuffer != [] {
        FrontIsReceived(readBuffer, cells, maxOffsetObserved);
      }
      eof := finalReadOffset.Some? && currentReadOffset == finalReadOffset.value;
      if eof {
        currentReadOffset := currentReadOffset + 1;
      }
    }
  }
}
