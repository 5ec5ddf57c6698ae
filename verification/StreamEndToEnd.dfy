/** A sender, a network that loses, repeats and reorders frames, and a receiver: the application
    on the far side reads what the application on this side wrote. */
module StreamEndToEnd {
  import opened Wrappers
  import opened Bytes
  import opened StreamReceive
  import opened StreamSend

  /** One step of the system. `Deliver(f)` hands a frame that was ever sent to the receiver, at
      any time and any number of times; a frame that is never delivered is lost. */
  datatype Event =
    | AppWrite(data: seq<byte>, eof: bool, open: bool)
    | SendNewData(flowControlLen: nat, space: nat)
    | DeclareLost(b: StreamBuffer)
    | Retransmit(rooms: seq<nat>)
    | CloneFrame(f: Frame)
    | Deliver(f: Frame)
    | AppRead(amount: nat)

  /** The bytes held by the receiver are the bytes written, and it knows no end but the real one. */
  ghost predicate Agree(cells: set<Cell>, max: nat, finalRead: Option<nat>, written: seq<byte>, finalWrite: Option<nat>) {
    && (forall c :: c in cells ==> c.0 < |written| && written[c.0] == c.1)
    && max <= |written|
    && (finalRead.Some? ==> finalRead == finalWrite)
  }

  lemma AgreeMore(cells: set<Cell>, max: nat, finalRead: Option<nat>, written: seq<byte>, more: seq<byte>, finalWrite: Option<nat>)
    requires Agree(cells, max, finalRead, written, None)
    ensures Agree(cells, max, finalRead, written + more, finalWrite)
  {
  }

  /** A frame that carries the bytes written adds only bytes that agree. */
  lemma FrameAgrees(written: seq<byte>, f: Frame)
    requires Carries(written, f.offset, f.data)
    ensures forall c :: c in CellsOf(StreamBuffer(f.data, f.offset, f.fin)) ==> c.0 < |written| && written[c.0] == c.1
  {
  }

  lemma PrefixIsDelivered(cells: set<Cell>, delivered: seq<byte>, written: seq<byte>)
    requires ReceivedRun(cells, 0, delivered)
    requires forall c :: c in cells ==> c.0 < |written| && written[c.0] == c.1
    ensures delivered <= written
  {
    forall j | 0 <= j < |delivered|
      ensures j < |written| && delivered[j] == written[j]
    {
      assert (0 + j, delivered[j]) in cells;
    }
    assert delivered != [] ==> (0 + (|delivered| - 1), delivered[|delivered| - 1]) in cells;
  }

  /** Frames that tile leave no position out. */
  lemma {:induction false} TileCovers(fs: seq<Frame>, next: nat, x: nat) returns (i: nat)
    requires Tile(fs, next) && fs != [] && x < fs[|fs| - 1].End()
    ensures i < |fs| && fs[i].offset <= x < fs[i].End()
    decreases |fs|
  {
    i := |fs| - 1;
    if x < fs[i].offset {
      assert fs[..i][i - 1].End() == fs[i].offset;
      i := TileCovers(fs[..i], fs[i].offset, x);
    }
  }

  /** A frame that was delivered leaves none of its positions out. */
  lemma DeliveredIsReceived(cells: set<Cell>, f: Frame, x: nat)
    requires CellsOf(StreamBuffer(f.data, f.offset, f.fin)) <= cells && f.offset <= x < f.End()
    ensures Received(cells, x)
  {
    assert (x, f.data[x - f.offset]) in CellsOf(StreamBuffer(f.data, f.offset, f.fin));
  }

  /** A read takes what continues where the last one stopped, as much as it asked for or up to the first
      byte that is missing. */
  ghost predicate Reads(amount: nat, before: seq<byte>, after: seq<byte>, cells: set<Cell>) {
    && before <= after && (amount != 0 ==> |after| <= |before| + amount)
    && (amount == 0 || |after| < |before| + amount ==> !Received(cells, |after|))
  }

  /** Loss elements were sent one after the other until none was left, or there was no room for the next. */
  ghost predicate SentUntilFull(lost: seq<StreamBuffer>, rooms: seq<nat>, count: nat,
                                before: seq<Frame>, after: seq<Frame>, stillLost: seq<StreamBuffer>)
  {
    && SentSoFar(lost, rooms, count, before, after, stillLost)
    && (count < |lost| && count < |rooms| ==> NoFrame(FrameOf(lost[count], rooms[count])))
  }

  lemma SentWhat(lost: seq<StreamBuffer>, rooms: seq<nat>, count: nat,
                 before: seq<Frame>, after: seq<Frame>, stillLost: seq<StreamBuffer>)
    requires count <= |lost| && count <= |rooms| && SentSoFar(lost, rooms, count, before, after, stillLost)
    requires count == |lost| || count == |rooms| || NoFrame(FrameOf(lost[count], rooms[count]))
    ensures SentUntilFull(lost, rooms, count, before, after, stillLost)
  {
  }

  class System {
    const sender: SendStream
    const receiver: ReceiveStream

    ghost predicate Valid()
      reads this, sender, receiver
    {
      && sender.Valid() && receiver.Valid()
      && Agree(receiver.cells, receiver.maxOffsetObserved, receiver.finalReadOffset,
               sender.written, sender.finalWriteOffset)
    }

    constructor ()
      ensures Valid() && fresh(sender) && fresh(receiver)
    {
      sender := new SendStream();
      receiver := new ReceiveStream();
    }

    /** What the application has read is a prefix of what was written, and the end was only
        announced if it is all of it. */
    lemma InOrderDelivery()
      requires Valid()
      ensures receiver.delivered <= sender.written
      ensures receiver.EndRead() ==> receiver.delivered == sender.written
    {
      PrefixIsDelivered(receiver.cells, receiver.delivered, sender.written);
    }

    /** When every frame sent has been delivered, every byte sent has reached the receiver. */
    lemma EverySentByteArrives()
      requires Valid()
      requires forall i :: 0 <= i < |sender.frames| ==>
        CellsOf(StreamBuffer(sender.frames[i].data, sender.frames[i].offset, sender.frames[i].fin)) <= receiver.cells
      ensures forall x :: 0 <= x < sender.SentBytes() ==> Received(receiver.cells, x)
    {
      hide CellsOf, LossSound, NewFrames, BytesOfKind, BytesOfAll, Separate, Sound, Covers, ReceivedRun;
      var fs := NewFrames(sender.frames);
      forall x | 0 <= x < sender.SentBytes() ensures Received(receiver.cells, x) {
        NewFramesAreFrames(sender.frames, fs[|fs| - 1]);
        var i := TileCovers(fs, sender.currentWriteOffset, x);
        NewFramesAreFrames(sender.frames, fs[i]);
        var j :| 0 <= j < |sender.frames| && sender.frames[j] == fs[i];
        DeliveredIsReceived(receiver.cells, fs[i], x);
      }
    }

    /** When every byte has reached the receiver, one read hands over all that is left, and reports
        the end exactly if the FIN has reached it too. */
    method ReadRest() returns (data: seq<byte>, eof: bool)
      requires Valid() && forall x :: 0 <= x < |sender.written| ==> Received(receiver.cells, x)
      modifies receiver
      ensures Valid() && receiver.delivered == sender.written == old(receiver.delivered) + data
      ensures eof <==> receiver.EndRead()
      ensures eof <==> receiver.finalReadOffset.Some?
    {
      data, eof := receiver.Read(0);
      InOrderDelivery();
    }

    ghost predicate Enabled(e: Event)
      reads this, sender, receiver
    {
      match e
      case AppWrite(_, _, _) => true
      case SendNewData(_, _) => !sender.FinSent()
      case DeclareLost(b) =>
        && Disjoint(sender.lossBuffer, b) && (b.data != [] || b.eof)
        && Carries(sender.written, b.offset, b.data) && b.End() <= sender.SentBytes()
        && (b.eof ==> sender.FinSent() && b.End() == sender.SentBytes())
      case Retransmit(_) => true
      case CloneFrame(f) => f in sender.frames && sender.BookingFits(f.offset, |f.data|, f.fin)
      case Deliver(f) => f in sender.frames
      case AppRead(_) => true
    }

    /** The frames a step sends. */
    ghost predicate Sends(e: Event, writeBuffer: seq<byte>, finalWrite: Option<nat>, next: nat, before: seq<Frame>,
                          lost: seq<StreamBuffer>, after: seq<Frame>, stillLost: seq<StreamBuffer>)
    {
      match e
      case SendNewData(flowControlLen, space) =>
        var n := Min(Min(|writeBuffer|, flowControlLen), space);
        var fin := n == |writeBuffer| && finalWrite.Some?;
        after == before + if n > 0 || fin then [Frame(NewData, next, writeBuffer[..n], fin)] else []
      case Retransmit(rooms) => exists count: nat :: SentUntilFull(lost, rooms, count, before, after, stillLost)
      case CloneFrame(f) =>
        |after| == |before| + 1 && after[|before|] == f.(kind := after[|before|].kind)
      case _ => after == before
    }

    /** Every step keeps the system valid; frames are never refused by the receiver, and what
        was written, sent and read only grows. */
    method Step(e: Event)
      requires Valid() && Enabled(e)
      modifies sender, receiver
      ensures Valid()
      ensures old(sender.frames) <= sender.frames
      ensures var accepted := e.AppWrite? && e.open && old(sender.finalWriteOffset) == None;
              && sender.written == old(sender.written) + (if accepted then e.data else [])
              && sender.finalWriteOffset
                 == if accepted && e.eof then Some(|sender.written|) else old(sender.finalWriteOffset)
      ensures Sends(e, old(sender.writeBuffer), old(sender.finalWriteOffset), old(sender.currentWriteOffset),
                    old(sender.frames), old(sender.lossBuffer), sender.frames, sender.lossBuffer)
      ensures !e.AppRead? ==> receiver.delivered == old(receiver.delivered)
      ensures e.AppRead? ==> Reads(e.amount, old(receiver.delivered), receiver.delivered, receiver.cells)
      ensures receiver.cells == old(receiver.cells) +
                if e.Deliver? then CellsOf(StreamBuffer(e.f.data, e.f.offset, e.f.fin)) else {}
      ensures receiver.finalReadOffset ==
                if e.Deliver? && e.f.fin then Some(|sender.written|) else old(receiver.finalReadOffset)
      // What was declared lost waits in the loss buffer until a frame that carries it goes out.
      ensures LostUntilSent(old(sender.lossBuffer), sender.lossBuffer, sender.frames[|old(sender.frames)|..])
      ensures e.DeclareLost? ==>
        && (forall x :: Covers(sender.lossBuffer, x) <==> Covers(old(sender.lossBuffer), x) || e.b.Has(x))
        && (LostFin(sender.lossBuffer) <==> LostFin(old(sender.lossBuffer)) || e.b.eof)
    {
      hide SendStream.Valid, ReceiveStream.Valid, LostUntilSent, LostFin, Covers, SentSoFar;
      assert sender.frames[|sender.frames|..] == [];
      match e
      case AppWrite(data, eof, open) =>
        NothingChanged(sender.lossBuffer, []);
        if sender.finalWriteOffset == None {
          AgreeMore(receiver.cells, receiver.maxOffsetObserved, receiver.finalReadOffset, sender.written, data,
                    if eof then Some(|sender.written + data|) else None);
        }
        var _ := sender.Write(data, eof, open);
      case SendNewData(flowControlLen, space) =>
        sender.SendNew(flowControlLen, space);
        NothingChanged(sender.lossBuffer, sender.frames[|old(sender.frames)|..]);
      case DeclareLost(b) =>
        sender.Lose(b);
        MoreLost(old(sender.lossBuffer), sender.lossBuffer, sender.frames[|old(sender.frames)|..]);
      case Retransmit(rooms) =>
        var count := sender.SendAllLost(rooms);
        SentWhat(old(sender.lossBuffer), rooms, count, old(sender.frames), sender.frames, sender.lossBuffer);
      case CloneFrame(f) => sender.SendClone(f);
      case Deliver(f) =>
        NothingChanged(sender.lossBuffer, []);
        var _ := DeliverFrame(f);
      case AppRead(amount) =>
        NothingChanged(sender.lossBuffer, []);
        var data, eof := receiver.Read(amount);
    }

    /** A frame of the sender is accepted whenever it comes, and one with the FIN tells the end. */
    method DeliverFrame(f: Frame) returns (accepted: bool)
      requires Valid() && f in sender.frames
      modifies receiver
      ensures Valid() && receiver.delivered == old(receiver.delivered)
      ensures accepted && receiver.cells == old(receiver.cells) + CellsOf(StreamBuffer(f.data, f.offset, f.fin))
      ensures receiver.finalReadOffset == if f.fin then Some(|sender.written|) else old(receiver.finalReadOffset)
    {
      hide CellsOf, LossSound, Tile, NewFrames, BytesOfKind, BytesOfAll, Separate, Sound, Covers, ReceivedRun;
      FrameAgrees(sender.written, f);
      accepted := receiver.Append(StreamBuffer(f.data, f.offset, f.fin));
    }
  }
}
