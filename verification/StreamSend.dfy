/** The sending side of a stream: what the application writes is cut into frames, and each frame
    that goes out is booked as new data, as a retransmission or as a clone. */
module StreamSend {
  import opened Wrappers
  import opened Bytes
  import opened StreamReceive

  datatype Kind = NewData | Retransmission | Clone

  /** A frame that went out, with the bytes it carried. */
  datatype Frame = Frame(kind: Kind, offset: nat, data: seq<byte>, fin: bool) {
    function End(): nat {
      offset + |data|
    }

    predicate Has(x: nat) {
      offset <= x < End()
    }
  }

  /** The new frames among `frames`, in order. */
  ghost function NewFrames(frames: seq<Frame>): seq<Frame> {
    if frames == [] then []
    else
      var last := frames[|frames| - 1];
      NewFrames(frames[..|frames| - 1]) + if last.kind.NewData? then [last] else []
  }

  /** The number of bytes carried by the frames of kind `k`. */
  ghost function BytesOfKind(frames: seq<Frame>, k: Kind): nat {
    if frames == [] then 0
    else
      var last := frames[|frames| - 1];
      BytesOfKind(frames[..|frames| - 1], k) + if last.kind == k then |last.data| else 0
  }

  /** The number of bytes carried by all frames. */
  ghost function BytesOfAll(frames: seq<Frame>): nat {
    if frames == [] then 0
    else BytesOfAll(frames[..|frames| - 1]) + |frames[|frames| - 1].data|
  }

  /** Frames that start at 0 and continue each other, up to `next`; only the last may carry
      the FIN, which takes one offset of its own. */
  ghost predicate Tile(fs: seq<Frame>, next: nat) {
    && (fs == [] ==> next == 0)
    && (fs != [] ==> fs[0].offset == 0)
    && (forall i :: 0 <= i < |fs| - 1 ==> fs[i + 1].offset == fs[i].End() && !fs[i].fin)
    && (fs != [] ==> next == fs[|fs| - 1].End() + if fs[|fs| - 1].fin then 1 else 0)
  }

  /** A stretch that carries the application's bytes at its offset. */
  ghost predicate Carries(written: seq<byte>, offset: nat, data: seq<byte>) {
    offset + |data| <= |written| && data == written[offset..offset + |data|]
  }

  /** Stretches in order that do not overlap; a stretch without bytes stands for a lost FIN. */
  ghost predicate Ordered(bs: seq<StreamBuffer>) {
    && (forall i :: 0 <= i < |bs| ==> bs[i].data != [] || bs[i].eof)
    && (forall i, j :: 0 <= i < j < |bs| ==> bs[i].End() <= bs[j].offset && bs[i].offset < bs[j].offset)
  }

  lemma CarriesMore(written: seq<byte>, more: seq<byte>, offset: nat, data: seq<byte>)
    requires Carries(written, offset, data)
    ensures Carries(written + more, offset, data)
  {
  }

  lemma CarriesPart(written: seq<byte>, offset: nat, data: seq<byte>, n: nat)
    requires Carries(written, offset, data) && n <= |data|
    ensures Carries(written, offset, data[..n]) && Carries(written, offset + n, data[n..])
  {
  }

  lemma FramesAppend(frames: seq<Frame>, f: Frame)
    ensures NewFrames(frames + [f]) == if f.kind.NewData? then NewFrames(frames) + [f] else NewFrames(frames)
    ensures forall k :: BytesOfKind(frames + [f], k) == BytesOfKind(frames, k) + if f.kind == k then |f.data| else 0
    ensures BytesOfAll(frames + [f]) == BytesOfAll(frames) + |f.data|
  {
    assert (frames + [f])[..|frames|] == frames;
  }

  lemma {:induction false} NewFramesAreFrames(frames: seq<Frame>, f: Frame)
    ensures f in NewFrames(frames) ==> f in frames
  {
    if frames != [] {
      NewFramesAreFrames(frames[..|frames| - 1], f);
    }
  }

  lemma TileAppend(fs: seq<Frame>, next: nat, f: Frame)
    requires Tile(fs, next) && f.offset == next && (fs != [] ==> !fs[|fs| - 1].fin)
    ensures Tile(fs + [f], f.End() + if f.fin then 1 else 0)
  {
  }

  /** The loss buffer after a retransmission of `len` bytes of its element `k`: that element
      is gone if the frame carried all of it, and starts later otherwise. */
  function AfterRetransmission(bs: seq<StreamBuffer>, k: nat, len: nat, fin: bool): seq<StreamBuffer>
    requires k < |bs|
  {
    var b := bs[k];
    if len == |b.data| && fin == b.eof then bs[..k] + bs[k + 1..]
    else bs[k := b.(offset := b.offset + len, data := b.data[Min(len, |b.data|)..])]
  }

  /** Whether a frame is one that can be cut from element `k`: it is all of it, or leaves
      bytes behind, or leaves only the FIN. */
  predicate Fits(bs: seq<StreamBuffer>, k: nat, len: nat, fin: bool)
    requires k < |bs|
  {
    var b := bs[k];
    || (len == |b.data| && fin == b.eof)
    || len < |b.data|
    || (b.eof && (k + 1 < |bs| ==> b.offset + len < bs[k + 1].offset))
  }

  /** Booking a retransmission keeps the loss buffer in order exactly when the frame fits:
      the code does not check the frame against the element it finds. */
  lemma OrderKeptIffFits(bs: seq<StreamBuffer>, k: nat, len: nat, fin: bool)
    requires Ordered(bs) && k < |bs|
    ensures Ordered(AfterRetransmission(bs, k, len, fin)) <==> Fits(bs, k, len, fin)
  {
    var b, r := bs[k], AfterRetransmission(bs, k, len, fin);
    if !(len == |b.data| && fin == b.eof) {
      assert r[k] == b.(offset := b.offset + len, data := b.data[Min(len, |b.data|)..]);
      if k + 1 < |bs| {
        assert r[k + 1] == bs[k + 1];
      }
    }
  }

  /** The loss buffer after `insertIntoLossBuffer`, where `k` is the upper bound of the
      offset: a stretch that continues its predecessor is merged with it. */
  function AfterLoss(bs: seq<StreamBuffer>, b: StreamBuffer, k: nat): seq<StreamBuffer>
    requires k <= |bs|
  {
    if 0 < k && bs[k - 1].End() == b.offset then
      bs[k - 1 := bs[k - 1].(data := bs[k - 1].data + b.data, eof := b.eof)]
    else bs[..k] + [b] + bs[k..]
  }

  /** The stretch begins where another ends. */
  ghost predicate Continues(bs: seq<StreamBuffer>, b: StreamBuffer) {
    exists i :: 0 <= i < |bs| && bs[i].End() == b.offset
  }

  lemma MergesIff(bs: seq<StreamBuffer>, b: StreamBuffer, k: nat)
    requires Ordered(bs) && Disjoint(bs, b) && k <= |bs|
    requires forall i :: 0 <= i < k ==> bs[i].offset <= b.offset
    requires forall i :: k <= i < |bs| ==> bs[i].offset >= b.offset
    ensures |AfterLoss(bs, b, k)| == |bs| + if Continues(bs, b) then 0 else 1
  {
    if i :| 0 <= i < |bs| && bs[i].End() == b.offset {
      assert i < k;
      assert i < k - 1 ==> bs[i].End() <= bs[k - 1].offset;
    }
  }

  /** A lost stretch comes from a frame, so it meets no stretch that is lost already. */
  ghost predicate Disjoint(bs: seq<StreamBuffer>, b: StreamBuffer) {
    forall i :: 0 <= i < |bs| ==>
      && (bs[i].End() <= b.offset || b.End() <= bs[i].offset)
      && bs[i].offset != b.offset && !(bs[i].eof && b.eof)
  }

  /** The loss buffer holds, in order, bytes that have gone out; the FIN only at their end. */
  ghost predicate LossSound(bs: seq<StreamBuffer>, written: seq<byte>, sent: nat, finSent: bool) {
    && Ordered(bs)
    && (forall i :: 0 <= i < |bs| ==> Carries(written, bs[i].offset, bs[i].data))
    && (forall i :: 0 <= i < |bs| ==> bs[i].End() <= sent)
    && (forall i :: 0 <= i < |bs| && bs[i].eof ==> finSent && bs[i].End() == sent)
  }

  lemma FittingLength(bs: seq<StreamBuffer>, written: seq<byte>, sent: nat, finSent: bool,
                      k: nat, len: nat, fin: bool)
    requires LossSound(bs, written, sent, finSent) && k < |bs| && bs[k].offset + len <= sent
    requires Fits(bs, k, len, fin)
    ensures len <= |bs[k].data|
    ensures CarriesAll(bs, written) && Ordered(bs)
  {
  }

  ghost predicate CarriesAll(bs: seq<StreamBuffer>, written: seq<byte>) {
    forall i :: 0 <= i < |bs| ==> Carries(written, bs[i].offset, bs[i].data)
  }

  lemma RetransmissionKeepsLossSound(bs: seq<StreamBuffer>, written: seq<byte>, sent: nat, finSent: bool,
                                     k: nat, len: nat, fin: bool)
    requires LossSound(bs, written, sent, finSent) && k < |bs| && bs[k].offset + len <= sent
    requires Fits(bs, k, len, fin)
    ensures LossSound(AfterRetransmission(bs, k, len, fin), written, sent, finSent)
  {
    hide Ordered, Carries, Fits;
    var b, r := bs[k], AfterRetransmission(bs, k, len, fin);
    FittingLength(bs, written, sent, finSent, k, len, fin);
    OrderKeptIffFits(bs, k, len, fin);
    CarriesPart(written, b.offset, b.data, len);
    forall i | 0 <= i < |r|
      ensures Carries(written, r[i].offset, r[i].data) && r[i].End() <= sent
      ensures r[i].eof ==> finSent && r[i].End() == sent
    {
      if len == |b.data| && fin == b.eof {
        assert r[i] == bs[if i < k then i else i + 1];
      } else {
        assert i != k ==> r[i] == bs[i];
      }
    }
  }

  lemma OrderedConcat(a: seq<StreamBuffer>, b: seq<StreamBuffer>)
    requires Ordered(a) && Ordered(b)
    requires forall i, j :: 0 <= i < |a| && 0 <= j < |b| ==> a[i].End() <= b[j].offset && a[i].offset < b[j].offset
    ensures Ordered(a + b)
  {
  }

  lemma InsertedKeepsOrder(bs: seq<StreamBuffer>, b: StreamBuffer, k: nat)
    requires Ordered(bs) && k <= |bs| && (b.data != [] || b.eof)
    requires forall i :: 0 <= i < k ==> bs[i].offset < b.offset && bs[i].End() <= b.offset
    requires forall i :: k <= i < |bs| ==> bs[i].offset > b.offset && b.End() <= bs[i].offset
    ensures Ordered(bs[..k] + [b] + bs[k..])
  {
    OrderedConcat(bs[..k], [b]);
    OrderedConcat(bs[..k] + [b], bs[k..]);
  }

  lemma LossKeepsOrder(bs: seq<StreamBuffer>, b: StreamBuffer, k: nat)
    requires Ordered(bs) && Disjoint(bs, b) && k <= |bs| && (b.data != [] || b.eof)
    requires forall i :: 0 <= i < k ==> bs[i].offset < b.offset
    requires forall i :: k <= i < |bs| ==> bs[i].offset > b.offset
    requires forall i :: 0 <= i < |bs| && bs[i].eof ==> b.End() <= bs[i].End()
    ensures Ordered(AfterLoss(bs, b, k))
  {
    assert forall i :: 0 <= i < k ==> bs[i].End() <= b.offset;
    assert forall i :: k <= i < |bs| ==> b.End() <= bs[i].offset;
    if 0 < k && bs[k - 1].End() == b.offset {
      LossMergeKeepsOrder(bs, b, k);
    } else {
      hide Ordered, Disjoint;
      InsertedKeepsOrder(bs, b, k);
    }
  }

  lemma LossMergeKeepsOrder(bs: seq<StreamBuffer>, b: StreamBuffer, k: nat)
    requires Ordered(bs) && 0 < k <= |bs| && bs[k - 1].End() == b.offset && (b.data != [] || b.eof)
    requires forall i :: k <= i < |bs| ==> b.End() <= bs[i].offset && bs[i].offset > b.offset
    ensures Ordered(bs[k - 1 := bs[k - 1].(data := bs[k - 1].data + b.data, eof := b.eof)])
  {
    var m := bs[k - 1].(data := bs[k - 1].data + b.data, eof := b.eof);
    var rest := bs[..k - 1] + bs[k..];
    assert Ordered(rest);
    assert rest[..k - 1] == bs[..k - 1] && rest[k - 1..] == bs[k..];
    InsertedKeepsOrder(rest, m, k - 1);
    assert rest[..k - 1] + [m] + rest[k - 1..] == bs[k - 1 := m];
  }

  lemma CarriesConcat(written: seq<byte>, offset: nat, a: seq<byte>, b: seq<byte>)
    requires Carries(written, offset, a) && Carries(written, offset + |a|, b)
    ensures Carries(written, offset, a + b)
  {
  }

  lemma LossKeepsLossSound(bs: seq<StreamBuffer>, written: seq<byte>, sent: nat, finSent: bool, b: StreamBuffer, k: nat)
    requires LossSound(bs, written, sent, finSent) && Disjoint(bs, b) && k <= |bs|
    requires Carries(written, b.offset, b.data) && b.End() <= sent && (b.eof ==> finSent && b.End() == sent)
    requires b.data != [] || b.eof
    requires forall i :: 0 <= i < k ==> bs[i].offset < b.offset
    requires forall i :: k <= i < |bs| ==> bs[i].offset > b.offset
    ensures LossSound(AfterLoss(bs, b, k), written, sent, finSent)
  {
    hide Ordered, Carries, Disjoint;
    LossKeepsOrder(bs, b, k);
    if 0 < k && bs[k - 1].End() == b.offset {
      CarriesConcat(written, bs[k - 1].offset, bs[k - 1].data, b.data);
    }
  }

  /** Putting back a lost stretch adds exactly its positions. */
  lemma LossCovers(bs: seq<StreamBuffer>, b: StreamBuffer, k: nat, x: nat)
    requires k <= |bs|
    ensures Covers(AfterLoss(bs, b, k), x) <==> Covers(bs, x) || b.Has(x)
  {
    var r := AfterLoss(bs, b, k);
    if 0 < k && bs[k - 1].End() == b.offset {
      if Covers(bs, x) {
        var i :| 0 <= i < |bs| && bs[i].Has(x);
        assert r[i].Has(x);
      }
      assert b.Has(x) ==> r[k - 1].Has(x);
      if Covers(r, x) {
        var i :| 0 <= i < |r| && r[i].Has(x);
        assert bs[i].Has(x) || b.Has(x);
      }
    } else {
      CoversConcat(bs[..k] + [b], bs[k..], x);
      CoversConcat(bs[..k], [b], x);
      CoversConcat(bs[..k], bs[k..], x);
      assert bs == bs[..k] + bs[k..];
      assert Covers([b], x) <==> [b][0].Has(x);
    }
  }

  /** Where one element lies, no other does. */
  lemma OthersLieElsewhere(bs: seq<StreamBuffer>, k: nat, x: nat)
    requires Ordered(bs) && k < |bs| && bs[k].Has(x)
    ensures !Covers(bs[..k], x) && !Covers(bs[k + 1..], x)
  {
    var front, rest := bs[..k], bs[k + 1..];
    forall i | 0 <= i < |front| ensures !front[i].Has(x) {
      assert front[i] == bs[i] && bs[i].End() <= bs[k].offset;
    }
    forall i | 0 <= i < |rest| ensures !rest[i].Has(x) {
      assert rest[i] == bs[k + 1 + i] && bs[k].End() <= bs[k + 1 + i].offset;
    }
  }

  lemma CoversSplit(bs: seq<StreamBuffer>, k: nat, mid: seq<StreamBuffer>, x: nat)
    requires k < |bs|
    ensures Covers(bs, x) <==> Covers(bs[..k], x) || bs[k].Has(x) || Covers(bs[k + 1..], x)
    ensures Covers(bs[..k] + mid + bs[k + 1..], x) <==> Covers(bs[..k], x) || Covers(mid, x) || Covers(bs[k + 1..], x)
  {
    CoversConcat(bs[..k] + [bs[k]], bs[k + 1..], x);
    CoversConcat(bs[..k], [bs[k]], x);
    CoversConcat(bs[..k] + mid, bs[k + 1..], x);
    CoversConcat(bs[..k], mid, x);
    assert bs == bs[..k] + [bs[k]] + bs[k + 1..];
    assert Covers([bs[k]], x) <==> [bs[k]][0].Has(x);
  }

  /** Booking a retransmission takes away exactly the positions of the frame. */
  lemma RetransmissionUncovers(bs: seq<StreamBuffer>, k: nat, len: nat, fin: bool, x: nat)
    requires Ordered(bs) && k < |bs| && len <= |bs[k].data|
    ensures Covers(AfterRetransmission(bs, k, len, fin), x)
            <==> Covers(bs, x) && !(bs[k].offset <= x < bs[k].offset + len)
  {
    hide Ordered, Covers;
    var b := bs[k];
    var m := b.(offset := b.offset + len, data := b.data[len..]);
    if b.Has(x) {
      OthersLieElsewhere(bs, k, x);
    }
    if len == |b.data| && fin == b.eof {
      CoversSplit(bs, k, [], x);
      assert bs[..k] + [] + bs[k + 1..] == bs[..k] + bs[k + 1..];
      NothingCovers(x);
    } else {
      CoversSplit(bs, k, [m], x);
      OneCovers(m, x);
      assert bs[..k] + [m] + bs[k + 1..] == bs[k := m];
    }
  }

  lemma NothingCovers(x: nat)
    ensures !Covers([], x)
  {
  }

  ghost predicate LostFin(bs: seq<StreamBuffer>) {
    exists i :: 0 <= i < |bs| && bs[i].eof
  }

  /** What was lost, bytes or FIN, is still lost or has gone out with one of `fs`. */
  ghost predicate LostUntilSent(before: seq<StreamBuffer>, after: seq<StreamBuffer>, fs: seq<Frame>) {
    && (forall x :: Covers(before, x) ==> Covers(after, x) || exists i :: 0 <= i < |fs| && fs[i].Has(x))
    && (LostFin(before) ==> LostFin(after) || exists i :: 0 <= i < |fs| && fs[i].fin)
  }

  lemma NothingChanged(bs: seq<StreamBuffer>, fs: seq<Frame>)
    ensures LostUntilSent(bs, bs, fs)
  {
  }

  lemma MoreLost(before: seq<StreamBuffer>, after: seq<StreamBuffer>, fs: seq<Frame>)
    requires forall x :: Covers(before, x) ==> Covers(after, x)
    requires LostFin(before) ==> LostFin(after)
    ensures LostUntilSent(before, after, fs)
  {
  }

  /** So over every run: what is lost stays lost until it goes out. */
  lemma LostUntilSentOverRuns(a: seq<StreamBuffer>, b: seq<StreamBuffer>, c: seq<StreamBuffer>, fs: seq<Frame>, gs: seq<Frame>)
    requires LostUntilSent(a, b, fs) && LostUntilSent(b, c, gs)
    ensures LostUntilSent(a, c, fs + gs)
  {
    var all := fs + gs;
    forall x | Covers(a, x) ensures Covers(c, x) || exists i :: 0 <= i < |all| && all[i].Has(x) {
      if i :| 0 <= i < |fs| && fs[i].Has(x) {
        assert all[i].Has(x);
      } else if i :| 0 <= i < |gs| && gs[i].Has(x) {
        assert all[|fs| + i].Has(x);
      }
    }
    if i :| 0 <= i < |fs| && fs[i].fin {
      assert all[i].fin;
    } else if i :| 0 <= i < |gs| && gs[i].fin {
      assert all[|fs| + i].fin;
    }
  }

  lemma LostFinConcat(a: seq<StreamBuffer>, b: seq<StreamBuffer>)
    ensures LostFin(a + b) <==> LostFin(a) || LostFin(b)
  {
    if LostFin(a) {
      var i :| 0 <= i < |a| && a[i].eof;
      assert (a + b)[i].eof;
    }
    if LostFin(b) {
      var i :| 0 <= i < |b| && b[i].eof;
      assert (a + b)[|a| + i].eof;
    }
  }

  lemma LostFinSplit(bs: seq<StreamBuffer>, k: nat, l: nat, m: StreamBuffer)
    requires k <= l <= |bs|
    ensures LostFin(bs[..k] + [m] + bs[l..]) <==> LostFin(bs[..k]) || m.eof || LostFin(bs[l..])
    ensures LostFin(bs) <==> LostFin(bs[..k]) || LostFin(bs[k..l]) || LostFin(bs[l..])
  {
    LostFinConcat(bs[..k] + [m], bs[l..]);
    LostFinConcat(bs[..k], [m]);
    LostFinConcat(bs[..k] + bs[k..l], bs[l..]);
    LostFinConcat(bs[..k], bs[k..l]);
    assert bs == bs[..k] + bs[k..l] + bs[l..];
    assert LostFin([m]) <==> [m][0].eof;
  }

  /** Putting back a lost stretch loses the FIN exactly if it carries it. */
  lemma LossOfFin(bs: seq<StreamBuffer>, b: StreamBuffer, k: nat)
    requires k <= |bs| && Disjoint(bs, b) && (b.data != [] || b.eof)
    requires forall i :: 0 <= i < |bs| && bs[i].eof ==> b.End() <= bs[i].End()
    ensures LostFin(AfterLoss(bs, b, k)) <==> LostFin(bs) || b.eof
  {
    hide LostFin;
    if 0 < k && bs[k - 1].End() == b.offset {
      var prev := bs[k - 1];
      var m := prev.(data := prev.data + b.data, eof := b.eof);
      assert !prev.eof;
      LostFinSplit(bs, k - 1, k, m);
      assert bs[k - 1..k] == [prev];
      assert bs[..k - 1] + [m] + bs[k..] == bs[k - 1 := m];
      OneFin(prev);
    } else {
      LostFinSplit(bs, k, k, b);
      NoFin();
      assert bs[k..k] == [];
    }
  }

  lemma OneFin(b: StreamBuffer)
    ensures LostFin([b]) <==> b.eof
  {
    assert [b][0] == b;
  }

  lemma NoFin()
    ensures !LostFin([])
  {
  }

  lemma RetransmissionSends(bs: seq<StreamBuffer>, k: nat, f: Frame)
    requires Ordered(bs) && k < |bs| && f.offset == bs[k].offset && |f.data| <= |bs[k].data|
    ensures LostUntilSent(bs, AfterRetransmission(bs, k, |f.data|, f.fin), [f])
  {
    hide Ordered;
    var r := AfterRetransmission(bs, k, |f.data|, f.fin);
    forall x | Covers(bs, x) && !Covers(r, x) ensures [f][0].Has(x) {
      RetransmissionUncovers(bs, k, |f.data|, f.fin, x);
    }
    if LostFin(bs) && !f.fin {
      var i :| 0 <= i < |bs| && bs[i].eof;
      if |f.data| == |bs[k].data| && f.fin == bs[k].eof {
        assert r[if i < k then i else i - 1] == bs[i];
      } else {
        assert r[i].eof;
      }
    }
    assert [f][0].fin == f.fin;
  }

  /** Every frame carried the application's bytes at its offset, and the FIN only at their end. */
  ghost predicate FramesSound(frames: seq<Frame>, written: seq<byte>, sent: nat, finSent: bool) {
    && (forall i :: 0 <= i < |frames| ==> Carries(written, frames[i].offset, frames[i].data))
    && (forall i :: 0 <= i < |frames| ==> frames[i].End() <= sent && (frames[i].data != [] || frames[i].fin))
    && (forall i :: 0 <= i < |frames| && frames[i].fin ==> finSent && frames[i].End() == |written|)
  }

  /** Sending more, before the FIN has gone out, keeps what was booked. */
  lemma SoundAfterNewData(bs: seq<StreamBuffer>, frames: seq<Frame>, written: seq<byte>, sent: nat, f: Frame, finSent: bool)
    requires LossSound(bs, written, sent, false) && FramesSound(frames, written, sent, false)
    requires f.offset == sent && Carries(written, f.offset, f.data) && (f.data != [] || f.fin)
    requires f.fin ==> finSent && f.End() == |written|
    ensures LossSound(bs, written, f.End(), finSent) && FramesSound(frames + [f], written, f.End(), finSent)
  {
  }

  lemma SoundAfterOldData(frames: seq<Frame>, written: seq<byte>, sent: nat, f: Frame, finSent: bool)
    requires FramesSound(frames, written, sent, finSent)
    requires Carries(written, f.offset, f.data) && f.End() <= sent && (f.data != [] || f.fin)
    requires f.fin ==> finSent && f.End() == |written|
    ensures FramesSound(frames + [f], written, sent, finSent)
  {
  }

  lemma CarriesNext(written: seq<byte>, sent: nat, len: nat)
    requires sent + len <= |written|
    ensures Carries(written, sent, written[sent..][..len]) && written[sent..][len..] == written[sent + len..]
  {
  }

  class SendStream {
    var writeBuffer: seq<byte>
    var currentWriteOffset: nat
    var finalWriteOffset: Option<nat>
    var lossBuffer: seq<StreamBuffer>
    var streamBytesSent: nat
    var newStreamBytesSent: nat
    var totalBytesRetransmitted: nat
    var totalStreamBytesCloned: nat

    /** Everything the application has written. */
    ghost var written: seq<byte>
    /** Every frame that went out. */
    ghost var frames: seq<Frame>

    ghost predicate FinSent()
      reads this
    {
      finalWriteOffset.Some? && currentWriteOffset == finalWriteOffset.value + 1
    }

    /** The number of bytes that have gone out at least once. */
    ghost function SentBytes(): nat
      reads this
    {
      if FinSent() then finalWriteOffset.value else currentWriteOffset
    }

    ghost predicate ValidWrites()
      reads this
    {
      && SentBytes() <= |written| && writeBuffer == written[SentBytes()..]
      && (finalWriteOffset.Some? ==> finalWriteOffset.value == |written|)
      && Tile(NewFrames(frames), currentWriteOffset)
    }

    ghost predicate ValidLoss()
      reads this
    {
      LossSound(lossBuffer, written, SentBytes(), FinSent())
    }

    ghost predicate ValidFrames()
      reads this
    {
      FramesSound(frames, written, SentBytes(), FinSent())
    }

    ghost predicate ValidCounts()
      reads this
    {
      && newStreamBytesSent == BytesOfKind(frames, NewData)
      && totalBytesRetransmitted == BytesOfKind(frames, Retransmission)
      && totalStreamBytesCloned == BytesOfKind(frames, Clone)
      && streamBytesSent == BytesOfAll(frames)
      && streamBytesSent == newStreamBytesSent + totalBytesRetransmitted + totalStreamBytesCloned
    }

    ghost predicate Valid()
      reads this
    {
      ValidWrites() && ValidLoss() && ValidFrames() && ValidCounts()
    }

    constructor ()
      ensures Valid() && written == [] && frames == [] && finalWriteOffset == None
      ensures lossBuffer == [] && currentWriteOffset == 0
    {
      writeBuffer, currentWriteOffset, finalWriteOffset, lossBuffer := [], 0, None, [];
      streamBytesSent, newStreamBytesSent, totalBytesRetransmitted, totalStreamBytesCloned := 0, 0, 0, 0;
      written, frames := [], [];
      new;
      hide LossSound, FramesSound, Tile, NewFrames, BytesOfKind, BytesOfAll;
      NothingIsSound();
    }

    /** `writeChain` and `writeDataToQuicStream`: a stream that has been ended, or whose sending state
        is no longer `open`, is closed for writing. */
    method Write(data: seq<byte>, eof: bool, open: bool) returns (ok: bool)
      requires Valid()
      modifies this
      ensures Valid() && (ok <==> open && old(finalWriteOffset) == None)
      ensures !ok ==> unchanged(this)
      ensures ok ==> written == old(written) + data && unchanged(`frames, `lossBuffer, `currentWriteOffset)
      ensures ok ==> finalWriteOffset == if eof then Some(|written|) else None
    {
      ok := open && finalWriteOffset == None;
      if ok { Extend(data, eof); }
    }

    method Extend(data: seq<byte>, eof: bool)
      requires Valid() && finalWriteOffset == None
      modifies this
      ensures Valid() && written == old(written) + data && unchanged(`frames, `lossBuffer, `currentWriteOffset)
      ensures finalWriteOffset == if eof then Some(|written|) else None
    {
      hide Carries, Ordered, Tile, NewFrames, BytesOfKind, BytesOfAll;
      forall o: nat, d | Carries(written, o, d)
        ensures Carries(written + data, o, d)
      {
        CarriesMore(written, data, o, d);
      }
      writeBuffer := writeBuffer + data;
      written := written + data;
      if eof {
        finalWriteOffset := Some(currentWriteOffset + |writeBuffer|);
      }
    }

    /** `std::lower_bound` in the loss buffer. */
    method FindLoss(offset: nat) returns (k: nat)
      requires Ordered(lossBuffer)
      ensures k <= |lossBuffer|
      ensures forall i :: 0 <= i < k ==> lossBuffer[i].offset < offset
      ensures forall i :: k <= i < |lossBuffer| ==> lossBuffer[i].offset >= offset
    {
      k := 0;
      var hi := |lossBuffer|;
      while k < hi
        invariant 0 <= k <= hi <= |lossBuffer|
        invariant forall i :: 0 <= i < k ==> lossBuffer[i].offset < offset
        invariant forall i :: hi <= i < |lossBuffer| ==> lossBuffer[i].offset >= offset
      {
        var mid := (k + hi) / 2;
        if lossBuffer[mid].offset < offset {
          k := mid + 1;
        } else {
          hi := mid;
        }
      }
    }

    /** What the schedulers promise of a frame before it is booked. */
    ghost predicate Sendable(offset: nat, data: seq<byte>, fin: bool)
      reads this
    {
      && offset <= currentWriteOffset && (data != [] || fin)
      && (offset == currentWriteOffset ==>
            && !FinSent() && |data| <= |writeBuffer| && data == writeBuffer[..|data|]
            && (fin ==> finalWriteOffset.Some? && |data| == |writeBuffer|))
      && (offset < currentWriteOffset ==>
            && offset + |data| <= SentBytes() && Carries(written, offset, data)
            && (fin ==> FinSent() && offset + |data| == |written|))
    }

    /** Whether a frame fits the loss element it is booked against, if there is one. */
    ghost predicate BookingFits(offset: nat, len: nat, fin: bool)
      reads this
    {
      offset < currentWriteOffset ==>
        forall k :: 0 <= k < |lossBuffer| && lossBuffer[k].offset == offset ==> Fits(lossBuffer, k, len, fin)
    }

    ghost predicate IsLost(offset: nat)
      reads this
    {
      exists k :: 0 <= k < |lossBuffer| && lossBuffer[k].offset == offset
    }

    /** Booking one frame in the counters, as `handleStreamWritten` and `updateConnection`
        do between them. */
    method Count(kind: Kind, len: nat, ghost f: Frame)
      requires ValidCounts() && f.kind == kind && |f.data| == len
      modifies `frames, `streamBytesSent, `newStreamBytesSent, `totalBytesRetransmitted, `totalStreamBytesCloned
      ensures ValidCounts() && frames == old(frames) + [f]
    {
      FramesAppend(frames, f);
      frames := frames + [f];
      match kind {
        case NewData => newStreamBytesSent := newStreamBytesSent + len;
        case Retransmission => totalBytesRetransmitted := totalBytesRetransmitted + len;
        case Clone => totalStreamBytesCloned := totalStreamBytesCloned + len;
      }
      streamBytesSent := streamBytesSent + len;
    }

    /** `handleNewStreamDataWritten`. */
    method HandleNewData(len: nat, fin: bool)
      requires Valid() && len <= |writeBuffer| && Sendable(currentWriteOffset, writeBuffer[..len], fin)
      modifies this
      ensures Valid() && written == old(written) && finalWriteOffset == old(finalWriteOffset)
      ensures frames == old(frames + [Frame(NewData, currentWriteOffset, writeBuffer[..len], fin)])
      ensures currentWriteOffset == old(currentWriteOffset) + len + if fin then 1 else 0
      ensures lossBuffer == old(lossBuffer)
    {
      hide LossSound, FramesSound, Carries, Tile, NewFrames, BytesOfKind, BytesOfAll;
      ghost var f := Frame(NewData, currentWriteOffset, writeBuffer[..len], fin);
      ghost var fs := NewFrames(frames);
      FramesAppend(frames, f);
      NewFramesLackFin(frames, written, SentBytes());
      CarriesNext(written, SentBytes(), len);
      SoundAfterNewData(lossBuffer, frames, written, SentBytes(), f, fin);
      TileAppend(fs, currentWriteOffset, f);
      Count(NewData, len, f);
      currentWriteOffset := currentWriteOffset + len;
      writeBuffer := writeBuffer[len..];
      currentWriteOffset := currentWriteOffset + if fin then 1 else 0;
    }

    /** `handleRetransmissionWritten`. */
    method HandleRetransmission(k: nat, len: nat, fin: bool)
      requires k < |lossBuffer|
      modifies `lossBuffer
      ensures lossBuffer == AfterRetransmission(old(lossBuffer), k, len, fin)
    {
      var b := lossBuffer[k];
      if len == |b.data| && fin == b.eof {
        lossBuffer := lossBuffer[..k] + lossBuffer[k + 1..];
      } else {
        b := b.(offset := b.offset + len);
        b := b.(data := b.data[Min(len, |b.data|)..]);
        lossBuffer := lossBuffer[k := b];
      }
    }

    /** The part of `handleStreamWritten` that books a frame with no new data. */
    method HandleOldData(offset: nat, len: nat, fin: bool, ghost data: seq<byte>)
      requires Valid() && |data| == len && offset < currentWriteOffset && Sendable(offset, data, fin)
      modifies this
      ensures ValidWrites() && ValidFrames() && ValidCounts() && unchanged(`written, `finalWriteOffset, `currentWriteOffset)
      ensures ValidLoss() <==> old(BookingFits(offset, len, fin))
      ensures frames == old(frames) + [Frame(if old(IsLost(offset)) then Retransmission else Clone, offset, data, fin)]
      ensures forall k :: 0 <= k < |old(lossBuffer)| && old(lossBuffer)[k].offset == offset ==>
        lossBuffer == AfterRetransmission(old(lossBuffer), k, len, fin)
      ensures !old(IsLost(offset)) ==> lossBuffer == old(lossBuffer)
    {
      hide LossSound, FramesSound, Carries, Tile, NewFrames, BytesOfKind, BytesOfAll, Fits, AfterRetransmission;
      LossIsOrdered(lossBuffer, written, SentBytes(), FinSent());
      var k := FindLoss(offset);
      OnlyOneAt(lossBuffer, k, offset);
      ghost var kind := if k != |lossBuffer| && lossBuffer[k].offset == offset then Retransmission else Clone;
      SoundAfterOldData(frames, written, SentBytes(), Frame(kind, offset, data, fin), FinSent());
      if k != |lossBuffer| && lossBuffer[k].offset == offset {
        RetransmissionIffFits(lossBuffer, written, SentBytes(), FinSent(), k, len, fin);
        FramesAppend(frames, Frame(Retransmission, offset, data, fin));
        HandleRetransmission(k, len, fin);
        Count(Retransmission, len, Frame(Retransmission, offset, data, fin));
      } else {
        FramesAppend(frames, Frame(Clone, offset, data, fin));
        Count(Clone, len, Frame(Clone, offset, data, fin));
      }
    }

    /** `handleStreamWritten`: books a frame that went out; `None` stands for the exception
        on a frame beyond the data sent so far.  The stream stays valid exactly if a frame that is
        booked against a loss element fits it. */
    method HandleStreamWritten(offset: nat, len: nat, fin: bool, ghost data: seq<byte>) returns (r: Option<bool>)
      requires Valid() && |data| == len && (offset <= currentWriteOffset ==> Sendable(offset, data, fin))
      modifies this
      ensures r == None <==> offset > old(currentWriteOffset)
      ensures r == None ==> unchanged(this)
      ensures r.Some? ==> (r.value <==> offset == old(currentWriteOffset))
      ensures ValidWrites() && ValidFrames() && ValidCounts()
      ensures Valid() <==> old(BookingFits(offset, len, fin))
      ensures written == old(written) && finalWriteOffset == old(finalWriteOffset)
      ensures r.Some? ==>
                var kind := if offset == old(currentWriteOffset) then NewData
                            else if old(IsLost(offset)) then Retransmission else Clone;
                frames == old(frames) + [Frame(kind, offset, data, fin)]
      ensures offset < old(currentWriteOffset) ==>
        forall k :: 0 <= k < |old(lossBuffer)| && old(lossBuffer)[k].offset == offset ==>
          lossBuffer == AfterRetransmission(old(lossBuffer), k, len, fin)
      ensures offset < old(currentWriteOffset) && !old(IsLost(offset)) ==> lossBuffer == old(lossBuffer)
      ensures offset >= old(currentWriteOffset) ==> lossBuffer == old(lossBuffer)
      ensures offset == old(currentWriteOffset) ==> currentWriteOffset == offset + len + if fin then 1 else 0
    {
      hide SendStream.ValidWrites, SendStream.ValidLoss, SendStream.ValidFrames, SendStream.ValidCounts;
      if offset == currentWriteOffset {
        HandleNewData(len, fin);
        return Some(true);
      } else if offset > currentWriteOffset {
        return None;
      }
      HandleOldData(offset, len, fin, data);
      return Some(false);
    }

    /** `writeStreamFrame`: a frame with new data, as long as the buffer, the flow control
        window and the packet allow, and with the FIN if it empties a finished stream. */
    method SendNew(flowControlLen: nat, space: nat)
      requires Valid() && !FinSent()
      modifies this
      ensures Valid() && written == old(written) && finalWriteOffset == old(finalWriteOffset)
      ensures var n := Min(Min(|old(writeBuffer)|, flowControlLen), space);
              var fin := n == |old(writeBuffer)| && finalWriteOffset.Some?;
              && frames == old(frames) + (if n > 0 || fin
                                          then [Frame(NewData, old(currentWriteOffset), old(writeBuffer)[..n], fin)] else [])
              && currentWriteOffset == old(currentWriteOffset) + n + if fin then 1 else 0
      ensures lossBuffer == old(lossBuffer)
    {
      hide LossSound, Tile, NewFrames, BytesOfKind, BytesOfAll, Carries;
      var bufferLen := |writeBuffer|;
      var canWriteFin := finalWriteOffset.Some? && bufferLen <= flowControlLen;
      var dataLen := Min(Min(bufferLen, flowControlLen), space);
      var fin := canWriteFin && dataLen == bufferLen;
      if dataLen == 0 && !fin {
        return;
      }
      var _ := HandleStreamWritten(currentWriteOffset, dataLen, fin, writeBuffer[..dataLen]);
    }

    /** One element of `writeStreamLossBuffers`: a frame with its first bytes, as many as there is
        room for, and with the FIN if it carries all of them; nothing if that leaves nothing. */
    method SendLost(k: nat, room: nat) returns (sent: bool)
      requires Valid() && k < |lossBuffer|
      modifies this
      ensures Valid() && written == old(written) && finalWriteOffset == old(finalWriteOffset)
      ensures sent <==> !NoFrame(FrameOf(old(lossBuffer)[k], room))
      ensures !sent ==> unchanged(this)
      ensures sent ==>
        && frames == old(frames) + [FrameOf(old(lossBuffer)[k], room)]
        && lossBuffer == old(lossBuffer)[..k] + Rest(old(lossBuffer)[k], room) + old(lossBuffer)[k + 1..]
    {
      hide LossSound, Tile, NewFrames, BytesOfKind, BytesOfAll, Carries, Ordered, FramesSound;
      var b := lossBuffer[k];
      var dataLen := Min(|b.data|, room);
      var fin := b.eof && dataLen == |b.data|;
      if dataLen == 0 && !fin {
        return false;
      }
      LostIsSendable(lossBuffer, written, SentBytes(), FinSent(), k, dataLen);
      RestIsLeft(lossBuffer, k, room);
      ghost var before := lossBuffer;
      var _ := HandleStreamWritten(b.offset, dataLen, fin, b.data[..dataLen]);
      assert before[k].offset == b.offset;
      assert lossBuffer == AfterRetransmission(before, k, dataLen, fin);
      return true;
    }

    /** The frame for element `count` of the `n` there were. */
    method SendNextLost(n: nat, rooms: seq<nat>, count: nat, ghost all: seq<StreamBuffer>, ghost before: seq<Frame>)
      returns (sent: bool)
      requires Valid() && count < n == |all| && count < |rooms|
      requires SentSoFar(all, rooms, count, before, frames, lossBuffer)
      modifies this
      ensures Valid() && written == old(written) && finalWriteOffset == old(finalWriteOffset)
      ensures sent <==> !NoFrame(FrameOf(all[count], rooms[count]))
      ensures SentSoFar(all, rooms, if sent then count + 1 else count, before, frames, lossBuffer)
    {
      hide SendStream.Valid, FrameOf, FramesOf, Rest, Rests;
      RestsStep(all, rooms, count, lossBuffer);
      FramesStep(all, rooms, count, before);
      sent := SendLost(|lossBuffer| - (n - count), rooms[count]);
    }

    /** `writeStreamLossBuffers`: one frame after the other for the elements there are, until one
        gets no room.  `rooms` says how many bytes the packet has left for each of them. */
    method SendAllLost(rooms: seq<nat>) returns (count: nat)
      requires Valid()
      modifies this
      ensures Valid() && written == old(written) && finalWriteOffset == old(finalWriteOffset)
      ensures count <= |old(lossBuffer)| && count <= |rooms|
      ensures count == |old(lossBuffer)| || count == |rooms| || NoFrame(FrameOf(old(lossBuffer)[count], rooms[count]))
      ensures SentSoFar(old(lossBuffer), rooms, count, old(frames), frames, lossBuffer)
      ensures old(frames) <= frames && LostUntilSent(old(lossBuffer), lossBuffer, frames[|old(frames)|..])
    {
      hide SendStream.Valid, FrameOf, SentSoFar, LostUntilSent;
      ghost var all := lossBuffer;
      var n := |lossBuffer|;
      count := 0;
      NothingSent(all, rooms, frames);
      var sent := true;
      while sent && count < n && count < |rooms|
        invariant Valid() && written == old(written) && finalWriteOffset == old(finalWriteOffset)
        invariant count <= n && count <= |rooms|
        invariant !sent ==> count < n && count < |rooms| && NoFrame(FrameOf(all[count], rooms[count]))
        invariant SentSoFar(all, rooms, count, old(frames), frames, lossBuffer)
        decreases sent, n - count
      {
        sent := SendNextLost(n, rooms, count, all, old(frames));
        if sent {
          count := count + 1;
        }
      }
      SentMeans(all, rooms, count, old(frames), frames, lossBuffer);
    }

    /** A clone of a frame that went out before; it is booked as a retransmission if its bytes are
        waiting for one. */
    method SendClone(f: Frame)
      requires Valid() && f in frames && BookingFits(f.offset, |f.data|, f.fin)
      modifies this
      ensures Valid() && written == old(written) && finalWriteOffset == old(finalWriteOffset)
      ensures frames == old(frames) + [f.(kind := if old(IsLost(f.offset)) then Retransmission else Clone)]
      ensures LostUntilSent(old(lossBuffer), lossBuffer, frames[|old(frames)|..])
    {
      hide LostUntilSent, Tile, NewFrames, BytesOfKind, BytesOfAll, Ordered, AfterRetransmission;
      ghost var g := f.(kind := if IsLost(f.offset) then Retransmission else Clone);
      assert (frames + [g])[|frames|..] == [g];
      NothingChanged(lossBuffer, [g]);
      if IsLost(f.offset) {
        var k :| 0 <= k < |lossBuffer| && lossBuffer[k].offset == f.offset;
        FittingLength(lossBuffer, written, SentBytes(), FinSent(), k, |f.data|, f.fin);
        RetransmissionSends(lossBuffer, k, g);
      }
      var _ := HandleStreamWritten(f.offset, |f.data|, f.fin, f.data);
    }

    /** `insertIntoLossBuffer`, for a stretch of a frame that was declared lost. */
    method Lose(b: StreamBuffer)
      requires Valid() && Disjoint(lossBuffer, b) && (b.data != [] || b.eof)
      requires Carries(written, b.offset, b.data) && b.End() <= SentBytes()
      requires b.eof ==> FinSent() && b.End() == SentBytes()
      modifies this
      ensures Valid() && unchanged(`written, `finalWriteOffset, `frames, `currentWriteOffset, `writeBuffer)
      ensures forall k :: 0 <= k <= |old(lossBuffer)| && UpperBound(old(lossBuffer), k, b.offset) ==>
        lossBuffer == AfterLoss(old(lossBuffer), b, k)
      ensures forall x :: Covers(lossBuffer, x) <==> Covers(old(lossBuffer), x) || b.Has(x)
      ensures LostFin(lossBuffer) <==> LostFin(old(lossBuffer)) || b.eof
      // It is merged exactly if it continues a stretch that is there.
      ensures |lossBuffer| == |old(lossBuffer)| + if Continues(old(lossBuffer), b) then 0 else 1
    {
      hide LossSound, Carries, Tile, NewFrames, BytesOfKind, BytesOfAll, Disjoint, LostUntilSent, Covers, LostFin;
      LossIsOrdered(lossBuffer, written, SentBytes(), FinSent());
      var k := FindLoss(b.offset);
      NoneAtOffset(lossBuffer, b);
      LossKeepsLossSound(lossBuffer, written, SentBytes(), FinSent(), b, k);
      EofIsLast(lossBuffer, written, SentBytes(), FinSent());
      LossOfFin(lossBuffer, b, k);
      MergesIff(lossBuffer, b, k);
      forall x ensures Covers(AfterLoss(lossBuffer, b, k), x) <==> Covers(lossBuffer, x) || b.Has(x) {
        LossCovers(lossBuffer, b, k, x);
      }
      if 0 < k && lossBuffer[k - 1].End() == b.offset {
        var prev := lossBuffer[k - 1];
        lossBuffer := lossBuffer[k - 1 := prev.(data := prev.data + b.data, eof := b.eof)];
      } else {
        lossBuffer := lossBuffer[..k] + [b] + lossBuffer[k..];
      }
    }
  }

  /** A frame of six bytes, of which the first two and the last are lost: a clone of it is booked
      against the first loss element and breaks the order of the loss buffer. */
  method LongerFrameBreaksOrder() returns (s: SendStream)
    ensures fresh(s) && !Ordered(s.lossBuffer) && !s.Valid()
  {
    hide LossSound, FramesSound, Tile, NewFrames, BytesOfKind, BytesOfAll, Ordered, Covers, LostFin;
    var data: seq<byte> := [1, 2, 3, 4, 5, 6];
    s := new SendStream();
    var ok := s.Write(data, false, true);
    s.SendNew(6, 6);
    assert s.written == data && s.currentWriteOffset == 6;
    var b, c := StreamBuffer([1, 2], 0, false), StreamBuffer([6], 5, false);
    assert data[0..2] == b.data && data[5..6] == c.data;
    s.Lose(b);
    assert UpperBound([], 0, 0) && s.lossBuffer == [b];
    s.Lose(c);
    assert UpperBound([b], 1, 5) && s.lossBuffer == [b, c];
    assert data[0..6] == data && !Fits(s.lossBuffer, 0, 6, false);
    LossIsOrdered(s.lossBuffer, s.written, s.SentBytes(), s.FinSent());
    OrderKeptIffFits(s.lossBuffer, 0, 6, false);
    var _ := s.HandleStreamWritten(0, 6, false, data);
  }

  /** `k` lies between the elements that start before `offset` and those that start after it. */
  ghost predicate UpperBound(bs: seq<StreamBuffer>, k: nat, offset: nat)
    requires k <= |bs|
  {
    && (forall i :: 0 <= i < k ==> bs[i].offset <= offset)
    && (forall i :: k <= i < |bs| ==> bs[i].offset > offset)
  }

  lemma EofIsLast(bs: seq<StreamBuffer>, written: seq<byte>, sent: nat, finSent: bool)
    requires LossSound(bs, written, sent, finSent)
    ensures forall i :: 0 <= i < |bs| && bs[i].eof ==> bs[i].End() == sent
  {
  }

  /** Sending loss elements takes nothing away but what goes out. */
  lemma SentMeans(bs: seq<StreamBuffer>, rooms: seq<nat>, count: nat,
                  before: seq<Frame>, frames: seq<Frame>, left: seq<StreamBuffer>)
    requires SentSoFar(bs, rooms, count, before, frames, left)
    ensures before <= frames && LostUntilSent(bs, left, frames[|before|..])
  {
    var fs := frames[|before|..];
    assert fs == FramesOf(bs, rooms, count);
    forall x | Covers(bs, x) ensures Covers(left, x) || exists i :: 0 <= i < |fs| && fs[i].Has(x) {
      var i :| 0 <= i < |bs| && bs[i].Has(x);
      var j := StillThere(bs, rooms, count, left, i);
      if i < count && !fs[i].Has(x) {
        assert left[j].Has(x);
      } else if i >= count {
        assert left[j].Has(x);
      }
    }
    if LostFin(bs) {
      var i :| 0 <= i < |bs| && bs[i].eof;
      var j := StillThere(bs, rooms, count, left, i);
      assert i < count ==> fs[i] == FrameOf(bs[i], rooms[i]);
      assert left != [] && (i >= count || Rest(bs[i], rooms[i]) != []) ==> left[j].eof;
    }
  }

  /** Where an element, or what is left of it, is found afterwards. */
  lemma StillThere(bs: seq<StreamBuffer>, rooms: seq<nat>, count: nat, left: seq<StreamBuffer>, i: nat) returns (j: nat)
    requires count <= |bs| && count <= |rooms| && left == Rests(bs, rooms, count) + bs[count..] && i < |bs|
    ensures i >= count ==> j < |left| && left[j] == bs[i]
    ensures i < count && Rest(bs[i], rooms[i]) != [] ==> j < |left| && left[j] == Rest(bs[i], rooms[i])[0]
  {
    j := 0;
    if i >= count {
      j := |Rests(bs, rooms, count)| + i - count;
    } else if Rest(bs[i], rooms[i]) != [] {
      j := RestAmong(bs, rooms, count, i);
    }
  }

  lemma {:induction false} RestAmong(bs: seq<StreamBuffer>, rooms: seq<nat>, count: nat, i: nat) returns (j: nat)
    requires i < count <= |bs| && count <= |rooms| && Rest(bs[i], rooms[i]) != []
    ensures j < |Rests(bs, rooms, count)| && Rests(bs, rooms, count)[j] == Rest(bs[i], rooms[i])[0]
    decreases count
  {
    if i == count - 1 {
      j := |Rests(bs, rooms, count - 1)|;
    } else {
      j := RestAmong(bs, rooms, count - 1, i);
    }
  }

  /** The frame with which a loss element is sent again, with room for `room` bytes. */
  function FrameOf(b: StreamBuffer, room: nat): (f: Frame)
    ensures f.kind == Retransmission && f.offset == b.offset && f.data <= b.data
    ensures |f.data| <= room && (|f.data| == room || f.data == b.data)
    ensures f.fin <==> b.eof && f.data == b.data
  {
    var n := Min(|b.data|, room);
    Frame(Retransmission, b.offset, b.data[..n], b.eof && n == |b.data|)
  }

  /** A frame that would carry nothing. */
  predicate NoFrame(f: Frame) {
    f.data == [] && !f.fin
  }

  function FramesOf(bs: seq<StreamBuffer>, rooms: seq<nat>, count: nat): (fs: seq<Frame>)
    requires count <= |bs| && count <= |rooms|
    ensures |fs| == count && forall i :: 0 <= i < count ==> fs[i] == FrameOf(bs[i], rooms[i])
  {
    seq(count, i requires 0 <= i < count => FrameOf(bs[i], rooms[i]))
  }

  /** What is left of it then. */
  function Rest(b: StreamBuffer, room: nat): seq<StreamBuffer> {
    if |b.data| <= room then [] else [b.(offset := b.offset + room, data := b.data[room..])]
  }

  function Rests(bs: seq<StreamBuffer>, rooms: seq<nat>, count: nat): seq<StreamBuffer>
    requires count <= |bs| && count <= |rooms|
  {
    if count == 0 then [] else Rests(bs, rooms, count - 1) + Rest(bs[count - 1], rooms[count - 1])
  }

  lemma LostIsSendable(bs: seq<StreamBuffer>, written: seq<byte>, sent: nat, finSent: bool, k: nat, n: nat)
    requires LossSound(bs, written, sent, finSent) && k < |bs| && n <= |bs[k].data|
    ensures var b := bs[k];
            && Carries(written, b.offset, b.data[..n]) && b.offset + n <= b.End() <= sent
            && (b.data != [] || b.eof) && (b.eof ==> finSent && b.End() == sent)
            && Fits(bs, k, n, b.eof && n == |b.data|)
            && forall i :: 0 <= i < |bs| && bs[i].offset == b.offset ==> i == k
  {
    CarriesPart(written, bs[k].offset, bs[k].data, n);
  }

  lemma OnlyOneAt(bs: seq<StreamBuffer>, k: nat, offset: nat)
    requires Ordered(bs) && k <= |bs|
    requires forall i :: 0 <= i < k ==> bs[i].offset < offset
    requires forall i :: k <= i < |bs| ==> bs[i].offset >= offset
    ensures forall i :: 0 <= i < |bs| && bs[i].offset == offset ==> i == k
  {
    forall i | k < i < |bs| ensures bs[i].offset > offset {
      assert bs[k].offset < bs[i].offset;
    }
  }

  lemma RestIsLeft(bs: seq<StreamBuffer>, k: nat, room: nat)
    requires k < |bs|
    ensures var f := FrameOf(bs[k], room);
            AfterRetransmission(bs, k, |f.data|, f.fin) == bs[..k] + Rest(bs[k], room) + bs[k + 1..]
  {
    if |bs[k].data| > room {
      assert bs == bs[..k] + [bs[k]] + bs[k + 1..];
    }
  }

  /** The first `count` loss elements were sent, as far as there was room; what was left of them and
      the others are still there, in order. */
  ghost predicate SentSoFar(bs: seq<StreamBuffer>, rooms: seq<nat>, count: nat,
                            before: seq<Frame>, frames: seq<Frame>, left: seq<StreamBuffer>)
  {
    && count <= |bs| && count <= |rooms|
    && frames == before + FramesOf(bs, rooms, count) && left == Rests(bs, rooms, count) + bs[count..]
  }

  lemma NothingSent(bs: seq<StreamBuffer>, rooms: seq<nat>, before: seq<Frame>)
    ensures SentSoFar(bs, rooms, 0, before, before, bs)
  {
  }

  lemma FramesStep(bs: seq<StreamBuffer>, rooms: seq<nat>, count: nat, before: seq<Frame>)
    requires count < |bs| && count < |rooms|
    ensures before + FramesOf(bs, rooms, count) + [FrameOf(bs[count], rooms[count])]
            == before + FramesOf(bs, rooms, count + 1)
  {
  }

  lemma RestsStep(bs: seq<StreamBuffer>, rooms: seq<nat>, count: nat, now: seq<StreamBuffer>)
    requires count < |bs| && count < |rooms| && now == Rests(bs, rooms, count) + bs[count..]
    ensures var k := |Rests(bs, rooms, count)|;
            && k < |now| && now[k] == bs[count]
            && now[..k] + Rest(bs[count], rooms[count]) + now[k + 1..] == Rests(bs, rooms, count + 1) + bs[count + 1..]
  {
    var k := |Rests(bs, rooms, count)|;
    assert now[..k] == Rests(bs, rooms, count) && now[k + 1..] == bs[count + 1..];
  }

  lemma RetransmissionIffFits(bs: seq<StreamBuffer>, written: seq<byte>, sent: nat, finSent: bool,
                              k: nat, len: nat, fin: bool)
    requires LossSound(bs, written, sent, finSent) && k < |bs| && bs[k].offset + len <= sent
    ensures LossSound(AfterRetransmission(bs, k, len, fin), written, sent, finSent) <==> Fits(bs, k, len, fin)
  {
    hide Ordered, Carries, Fits, AfterRetransmission;
    OrderKeptIffFits(bs, k, len, fin);
    if Fits(bs, k, len, fin) {
      RetransmissionKeepsLossSound(bs, written, sent, finSent, k, len, fin);
    }
  }

  lemma NewFramesLackFin(frames: seq<Frame>, written: seq<byte>, sent: nat)
    requires FramesSound(frames, written, sent, false)
    ensures var fs := NewFrames(frames); fs != [] ==> !fs[|fs| - 1].fin
  {
    var fs := NewFrames(frames);
    if fs != [] { NewFramesAreFrames(frames, fs[|fs| - 1]); }
  }

  lemma NothingIsSound()
    ensures LossSound([], [], 0, false) && FramesSound([], [], 0, false) && Tile(NewFrames([]), 0)
    ensures BytesOfAll([]) == 0 && forall k :: BytesOfKind([], k) == 0
  {
  }

  lemma LossIsOrdered(bs: seq<StreamBuffer>, written: seq<byte>, sent: nat, finSent: bool)
    requires LossSound(bs, written, sent, finSent)
    ensures Ordered(bs)
  {
  }

  lemma NoneAtOffset(bs: seq<StreamBuffer>, b: StreamBuffer)
    requires Disjoint(bs, b)
    ensures forall i :: 0 <= i < |bs| ==> bs[i].offset != b.offset
  {
  }
}
