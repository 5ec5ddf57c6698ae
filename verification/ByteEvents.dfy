/** Byte event callbacks of one type (acknowledged or transmitted): registered for a stream and an
    offset, and later told exactly once that the offset was reached or that the wait is over. */
module ByteEvents {
  import opened Wrappers

  type StreamId = nat
  type Callback = nat

  datatype Entry = Entry(offset: nat, callback: Callback)

  /** One invocation of a callback. */
  datatype Note =
    | Registered(id: StreamId, entry: Entry)
    | Delivered(id: StreamId, entry: Entry)
    | Cancelled(id: StreamId, entry: Entry)

  datatype Outcome = Success | InvalidOperation | ConnectionClosed | StreamNotExists

  type Queues = map<StreamId, seq<Entry>>

  /** Sorted by offset, and no callback waits twice for the same offset. */
  ghost predicate WellFormed(q: seq<Entry>) {
    forall i, j :: 0 <= i < j < |q| ==> q[i].offset <= q[j].offset && q[i] != q[j]
  }

  ghost predicate AllWellFormed(queues: Queues) {
    forall id :: id in queues ==> WellFormed(queues[id])
  }

  ghost function Waiting(queues: Queues, id: StreamId, e: Entry): int {
    if id in queues && e in queues[id] then 1 else 0
  }

  /** How many registrations of a callback have not been answered. */
  ghost function Outstanding(notes: seq<Note>, id: StreamId, e: Entry): int {
    var m := multiset(notes);
    m[Registered(id, e)] as int - m[Delivered(id, e)] as int - m[Cancelled(id, e)] as int
  }

  /** At no time was a callback told that had not registered, or told twice, or registered twice. */
  ghost predicate Answered(notes: seq<Note>) {
    forall k, id, e {:trigger Outstanding(notes[..k], id, e)} ::
      0 <= k <= |notes| ==> 0 <= Outstanding(notes[..k], id, e) <= 1
  }

  /** The queues hold exactly the registrations that have not been answered. */
  ghost predicate Told(notes: seq<Note>, queues: Queues) {
    && Answered(notes)
    && forall id, e {:trigger Outstanding(notes, id, e)} {:trigger Waiting(queues, id, e)} ::
         Outstanding(notes, id, e) == Waiting(queues, id, e)
  }

  /** What a note does to the number of unanswered registrations. */
  ghost function Effect(n: Note, id: StreamId, e: Entry): int {
    if n.id != id || n.entry != e then 0 else if n.Registered? then 1 else -1
  }

  ghost predicate Moves(queues: Queues, n: Note, queues': Queues) {
    forall id, e {:trigger Waiting(queues', id, e)} ::
      Waiting(queues', id, e) == Waiting(queues, id, e) + Effect(n, id, e)
  }

  lemma NoteMoves(notes: seq<Note>, queues: Queues, n: Note, queues': Queues)
    requires Told(notes, queues) && Moves(queues, n, queues')
    ensures Told(notes + [n], queues')
  {
    var longer := notes + [n];
    forall id, e ensures Outstanding(longer, id, e) == Waiting(queues', id, e) {
      assert Outstanding(longer, id, e) == Outstanding(notes, id, e) + Effect(n, id, e);
    }
    forall k, id, e | 0 <= k <= |longer| ensures 0 <= Outstanding(longer[..k], id, e) <= 1 {
      if k < |longer| {
        assert longer[..k] == notes[..k];
      } else {
        assert longer[..k] == longer;
      }
    }
  }

  /** Waiting is all that matters: a queue that is empty may as well be missing. */
  lemma SameWaiting(notes: seq<Note>, queues: Queues, queues': Queues)
    requires Told(notes, queues)
    requires forall id, e {:trigger Waiting(queues', id, e)} :: Waiting(queues', id, e) == Waiting(queues, id, e)
    ensures Told(notes, queues')
  {
  }

  lemma Removal(q: seq<Entry>, k: nat)
    requires WellFormed(q) && k < |q|
    ensures WellFormed(q[..k] + q[k + 1..])
    ensures forall e :: e in q[..k] + q[k + 1..] <==> e in q && e != q[k]
  {
    var r := q[..k] + q[k + 1..];
    forall e | e in q && e != q[k] ensures e in r {
      var i :| 0 <= i < |q| && q[i] == e;
      assert r[if i < k then i else i - 1] == e;
    }
  }

  lemma PopMoves(notes: seq<Note>, queues: Queues, id: StreamId, n: Note)
    requires AllWellFormed(queues) && Told(notes, queues) && id in queues && queues[id] != []
    requires !n.Registered? && n.id == id && n.entry == queues[id][0]
    ensures var queues' := queues[id := queues[id][1..]];
            AllWellFormed(queues') && Told(notes + [n], queues')
  {
    hide Told;
    var q := queues[id];
    Removal(q, 0);
    assert q[..0] + q[0 + 1..] == q[1..];
    NoteMoves(notes, queues, n, queues[id := q[1..]]);
  }

  lemma Insertion(q: seq<Entry>, k: nat, e: Entry)
    requires WellFormed(q) && k <= |q| && e !in q
    requires forall i :: 0 <= i < k ==> q[i].offset <= e.offset
    requires forall i :: k <= i < |q| ==> e.offset < q[i].offset
    ensures WellFormed(q[..k] + [e] + q[k..])
    ensures forall x :: x in q[..k] + [e] + q[k..] <==> x in q || x == e
  {
    var r := q[..k] + [e] + q[k..];
    forall i, j | 0 <= i < j < |r| ensures r[i].offset <= r[j].offset && r[i] != r[j] {
      assert r[i] == (if i < k then q[i] else if i == k then e else q[i - 1]);
      assert r[j] == (if j < k then q[j] else if j == k then e else q[j - 1]);
    }
    assert q == q[..k] + q[k..];
  }

  function QueueOf(queues: Queues, id: StreamId): seq<Entry> {
    if id in queues then queues[id] else []
  }

  function Answer(delivered: bool, id: StreamId, e: Entry): Note {
    if delivered then Delivered(id, e) else Cancelled(id, e)
  }

  function Answers(delivered: bool, id: StreamId, q: seq<Entry>): (notes: seq<Note>)
    ensures |notes| == |q| && forall i :: 0 <= i < |q| ==> notes[i] == Answer(delivered, id, q[i])
  {
    seq(|q|, i requires 0 <= i < |q| => Answer(delivered, id, q[i]))
  }

  /** Entries below a limit; no limit means all of them. */
  predicate Below(e: Entry, limit: Option<nat>) {
    limit.Some? ==> e.offset < limit.value
  }

  function UpTo(ready: Option<nat>): Option<nat> {
    Some(if ready.Some? then ready.value + 1 else 0)
  }

  ghost predicate SameQueues(before: Queues, after: Queues) {
    forall id :: QueueOf(after, id) == QueueOf(before, id)
  }

  ghost predicate OthersKept(before: Queues, after: Queues, id: StreamId) {
    forall other :: other != id ==> QueueOf(after, other) == QueueOf(before, other)
  }

  /** An entry was put after those of its own offset and before those of larger ones. */
  ghost predicate PlacedByOffset(before: seq<Entry>, after: seq<Entry>, e: Entry) {
    exists pos ::
      && 0 <= pos <= |before| && after == before[..pos] + [e] + before[pos..]
      && (forall i :: 0 <= i < pos ==> before[i].offset <= e.offset)
      && (forall i :: pos <= i < |before| ==> e.offset < before[i].offset)
  }

  ghost predicate TakenOut(before: seq<Entry>, after: seq<Entry>, e: Entry) {
    exists pos :: 0 <= pos < |before| && before[pos] == e && after == before[..pos] + before[pos + 1..]
  }

  /** The first `k` entries of one stream were taken out of the queue and told, in order. */
  ghost predicate TakenFirst(
    q0: Queues, n0: seq<Note>, q: Queues, n: seq<Note>, id: StreamId, delivered: bool, k: nat)
  {
    && k <= |QueueOf(q0, id)| && QueueOf(q, id) == QueueOf(q0, id)[k..]
    && n == n0 + Answers(delivered, id, QueueOf(q0, id)[..k])
    && OthersKept(q0, q, id)
  }

  /** Exactly the entries of one stream below the limit were taken out of the queue and told. */
  ghost predicate TakenBelow(
    q0: Queues, n0: seq<Note>, q: Queues, n: seq<Note>, id: StreamId, delivered: bool, limit: Option<nat>)
  {
    exists k: nat :: TakenFirst(q0, n0, q, n, id, delivered, k) && SplitsAt(QueueOf(q0, id), k, limit)
  }

  ghost predicate SplitsAt(q: seq<Entry>, k: nat, limit: Option<nat>) {
    k <= |q| && forall i :: 0 <= i < |q| ==> (Below(q[i], limit) <==> i < k)
  }

  ghost predicate PrefixBelow(q: seq<Entry>, k: nat, limit: Option<nat>) {
    k <= |q| && forall i :: 0 <= i < k ==> Below(q[i], limit)
  }

  lemma TakeNone(q0: Queues, n0: seq<Note>, id: StreamId, delivered: bool, limit: Option<nat>)
    ensures TakenFirst(q0, n0, q0, n0, id, delivered, 0) && PrefixBelow(QueueOf(q0, id), 0, limit)
  {
  }

  lemma TakeOne(
    q0: Queues, n0: seq<Note>, q: Queues, n: seq<Note>, id: StreamId, delivered: bool, limit: Option<nat>, k: nat)
    requires TakenFirst(q0, n0, q, n, id, delivered, k) && PrefixBelow(QueueOf(q0, id), k, limit)
    requires id in q && q[id] != [] && Below(q[id][0], limit)
    ensures TakenFirst(q0, n0, q[id := q[id][1..]], n + [Answer(delivered, id, q[id][0])], id, delivered, k + 1)
    ensures PrefixBelow(QueueOf(q0, id), k + 1, limit)
  {
    var all, e := QueueOf(q0, id), q[id][0];
    assert all[k..][0] == all[k] == e && all[k..][1..] == all[k + 1..];
    assert Answers(delivered, id, all[..k + 1]) == Answers(delivered, id, all[..k]) + [Answer(delivered, id, e)];
  }

  lemma TakeNoMore(
    q0: Queues, n0: seq<Note>, q: Queues, n: seq<Note>, id: StreamId, delivered: bool, limit: Option<nat>, k: nat)
    requires TakenFirst(q0, n0, q, n, id, delivered, k) && PrefixBelow(QueueOf(q0, id), k, limit)
    requires AllWellFormed(q0) && (QueueOf(q, id) == [] || !Below(QueueOf(q, id)[0], limit))
    ensures TakenBelow(q0, n0, q, n, id, delivered, limit)
    ensures forall q' :: SameQueues(q, q') ==> TakenBelow(q0, n0, q', n, id, delivered, limit)
  {
    var all := QueueOf(q0, id);
    assert k < |all| ==> all[k..][0] == all[k];
    assert SplitsAt(all, k, limit);
    forall q' | SameQueues(q, q')
      ensures TakenBelow(q0, n0, q', n, id, delivered, limit)
    {
      assert TakenFirst(q0, n0, q', n, id, delivered, k);
    }
  }

  /** `std::upper_bound` by offset. */
  method UpperBound(q: seq<Entry>, offset: nat) returns (pos: nat)
    requires WellFormed(q)
    ensures pos <= |q|
    ensures forall i :: 0 <= i < pos ==> q[i].offset <= offset
    ensures forall i :: pos <= i < |q| ==> offset < q[i].offset
  {
    pos := 0;
    var high := |q|;
    while pos < high
      invariant 0 <= pos <= high <= |q|
      invariant forall i :: 0 <= i < pos ==> q[i].offset <= offset
      invariant forall i :: high <= i < |q| ==> offset < q[i].offset
    {
      var mid := (pos + high) / 2;
      if offset < q[mid].offset { high := mid; } else { pos := mid + 1; }
    }
  }

  method Find(q: seq<Entry>, e: Entry) returns (pos: nat)
    ensures pos <= |q| && (pos < |q| ==> q[pos] == e) && e !in q[..pos]
  {
    pos := 0;
    while pos < |q| && q[pos] != e
      invariant pos <= |q| && e !in q[..pos]
    {
      pos := pos + 1;
    }
  }

  class Registry {
    var queues: Queues
    var reached: set<StreamId>    // streams whose offset moved since they were last looked at
    var closed: bool
    var notes: seq<Note>

    ghost predicate Valid()
      reads this
    {
      AllWellFormed(queues) && Told(notes, queues)
    }

    constructor ()
      ensures Valid() && notes == [] && queues == map[]
    {
      queues, reached, closed, notes := map[], {}, false, [];
    }

    /** Moves a callback into its queue and tells it so, or says why not.  `ready` is the offset the
        stream has reached; the result says whether an answer has to be scheduled at once. */
    method Register(id: StreamId, offset: nat, cb: Option<Callback>, receiving: bool, known: bool, ready: Option<nat>)
      returns (r: Outcome, schedule: bool)
      requires Valid()
      modifies `queues, `notes
      ensures Valid()
      ensures r == if receiving then InvalidOperation
                   else if closed then ConnectionClosed
                   else if !known then StreamNotExists
                   else if cb.Some? && old(Waiting(queues, id, Entry(offset, cb.value))) == 1 then InvalidOperation
                   else Success
      ensures notes == old(notes) + if r == Success && cb.Some? then [Registered(id, Entry(offset, cb.value))] else []
      ensures schedule <==> r == Success && cb.Some? && ready.Some? && offset <= ready.value
      ensures OthersKept(old(queues), queues, id) && (closed ==> queues == old(queues))
    {
      schedule := false;
      if receiving { return InvalidOperation, false; }
      if closed { return ConnectionClosed, false; }
      if !known { return StreamNotExists, false; }
      if cb == None { return Success, false; }
      var e := Entry(offset, cb.value);
      r := Success;
      var duplicate := Enqueue(id, e);
      if duplicate { return InvalidOperation, false; }
      schedule := ready.Some? && offset <= ready.value;
    }

    method Enqueue(id: StreamId, e: Entry) returns (duplicate: bool)
      requires Valid()
      modifies `queues, `notes
      ensures Valid() && (duplicate <==> old(Waiting(queues, id, e)) == 1)
      ensures duplicate ==> queues == old(queues) && notes == old(notes)
      ensures !duplicate ==> notes == old(notes) + [Registered(id, e)]
      ensures !duplicate ==> PlacedByOffset(QueueOf(old(queues), id), QueueOf(queues, id), e)
      ensures OthersKept(old(queues), queues, id)
    {
      hide Told;
      ghost var before := queues;
      if id !in queues {
        assert PlacedByOffset([], [][..0] + [e] + [][0..], e);
        queues := queues[id := [e]];
      } else {
        var q := queues[id];
        var pos := UpperBound(q, e.offset);
        if pos != 0 {
          var found := Find(q[..pos], e);
          if found != pos {
            assert q[..pos][found] == q[found];
            return true;
          }
          assert q[..pos][..pos] == q[..pos];
        }
        assert e !in q;
        Insertion(q, pos, e);
        assert PlacedByOffset(q, q[..pos] + [e] + q[pos..], e);
        queues := queues[id := q[..pos] + [e] + q[pos..]];
      }
      NoteMoves(notes, before, Registered(id, e), queues);
      notes := notes + [Registered(id, e)];
      duplicate := false;
    }

    /** The answer scheduled at registration: delivers the entry if it is still waiting. */
    method AnswerReady(id: StreamId, e: Entry)
      requires Valid()
      modifies `queues, `notes
      ensures Valid()
      ensures notes == old(notes) + if !closed && old(Waiting(queues, id, e)) == 1 then [Delivered(id, e)] else []
      ensures !closed ==> Waiting(queues, id, e) == 0
      ensures !closed && old(Waiting(queues, id, e)) == 1 ==> TakenOut(QueueOf(old(queues), id), QueueOf(queues, id), e)
      ensures closed || old(Waiting(queues, id, e)) == 0 ==> queues == old(queues)
      ensures OthersKept(old(queues), queues, id)
    {
      hide Told;
      if closed { return; }
      if id !in queues { return; }
      var q := queues[id];
      var pos := Find(q, e);
      if pos == |q| {
        assert q[..pos] == q;
        return;
      }
      Removal(q, pos);
      ghost var before := queues;
      queues := queues[id := q[..pos] + q[pos + 1..]];
      assert TakenOut(q, q[..pos] + q[pos + 1..], e);
      NoteMoves(notes, before, Delivered(id, e), queues);
      notes := notes + [Delivered(id, e)];
    }

    /** Takes the front entry of a queue and tells its callback. */
    method AnswerFront(id: StreamId, n: Note)
      requires Valid() && id in queues && queues[id] != []
      requires !n.Registered? && n.id == id && n.entry == queues[id][0]
      modifies `queues, `notes
      ensures Valid() && queues == old(queues)[id := old(queues)[id][1..]] && notes == old(notes) + [n]
    {
      hide Told, WellFormed;
      PopMoves(notes, queues, id, n);
      queues := queues[id := queues[id][1..]];
      notes := notes + [n];
    }

    /** A stream without waiting callbacks leaves the map. */
    method DropIfEmpty(id: StreamId)
      requires Valid()
      modifies `queues
      ensures Valid()
      ensures SameQueues(old(queues), queues) && (id in queues ==> queues[id] != [])
    {
      hide Answered;
      if id in queues && queues[id] == [] {
        SameWaiting(notes, queues, queues - {id});
        queues := queues - {id};
      }
    }

    /** One stream's turn in `handleDeliveryCallbacks`: up to the offset that was acknowledged. */
    method Deliver(id: StreamId, ready: Option<nat>)
      requires Valid()
      modifies `queues, `notes
      ensures Valid() && TakenBelow(old(queues), old(notes), queues, notes, id, true, UpTo(ready))
      ensures id in queues ==> queues[id] != []
    {
      hide Told, WellFormed, TakenFirst, TakenBelow, PrefixBelow;
      ghost var q0, n0, k := queues, notes, 0;
      TakeNone(q0, n0, id, true, UpTo(ready));
      while ready.Some?
        invariant Valid() && TakenFirst(q0, n0, queues, notes, id, true, k)
        invariant PrefixBelow(QueueOf(q0, id), k, UpTo(ready))
        decreases |QueueOf(queues, id)|
      {
        if id !in queues || queues[id] == [] {
          break;
        }
        if queues[id][0].offset > ready.value {
          break;
        }
        TakeOne(q0, n0, queues, notes, id, true, UpTo(ready), k);
        k := k + 1;
        AnswerFront(id, Delivered(id, queues[id][0]));
      }
      TakeNoMore(q0, n0, queues, notes, id, true, UpTo(ready), k);
      DropIfEmpty(id);
    }

    /** `cancelByteEventCallbacksForStream`: strictly below an offset, or all of a stream. */
    method CancelForStream(id: StreamId, offset: Option<nat>, receiving: bool)
      requires Valid()
      modifies `queues, `notes, `reached
      ensures Valid()
      ensures receiving ==> queues == old(queues) && notes == old(notes) && reached == old(reached)
      ensures !receiving ==> TakenBelow(old(queues), old(notes), queues, notes, id, false, offset)
      ensures !receiving ==> forall e ::
        e in QueueOf(queues, id) <==> e in QueueOf(old(queues), id) && offset.Some? && e.offset >= offset.value
      ensures !receiving ==> reached == if QueueOf(queues, id) == [] then old(reached) - {id} else old(reached)
      ensures !receiving && id in queues ==> queues[id] != []
    {
      hide Told, WellFormed, TakenFirst, TakenBelow, PrefixBelow;
      if receiving { return; }
      ghost var q0, n0, k := queues, notes, 0;
      TakeNone(q0, n0, id, false, offset);
      if id !in queues {
        TakeNoMore(q0, n0, queues, notes, id, false, offset, k);
        CancelledBelow(q0, n0, queues, notes, id, offset);
        reached := reached - {id};
        return;
      }
      while queues[id] != []
        invariant Valid() && TakenFirst(q0, n0, queues, notes, id, false, k) && PrefixBelow(QueueOf(q0, id), k, offset)
        invariant id in queues && reached == old(reached)
        decreases |queues[id]|
      {
        var e := queues[id][0];
        if offset == None || e.offset < offset.value {
          TakeOne(q0, n0, queues, notes, id, false, offset, k);
          k := k + 1;
          AnswerFront(id, Cancelled(id, e));
        } else {
          break;
        }
      }
      TakeNoMore(q0, n0, queues, notes, id, false, offset, k);
      if queues[id] == [] {
        reached := reached - {id};
        DropIfEmpty(id);
      }
      CancelledBelow(q0, n0, queues, notes, id, offset);
    }

    /** One stream's turn in `processCallbacksAfterWriteData`: up to the offset that was sent. */
    method DeliverSent(id: StreamId, ready: nat)
      requires Valid()
      modifies `queues, `notes
      ensures Valid() && TakenBelow(old(queues), old(notes), queues, notes, id, true, UpTo(Some(ready)))
      ensures id in queues && queues[id] == [] ==> id in old(queues) && old(queues)[id] == []
    {
      hide Told, WellFormed, TakenFirst, TakenBelow, PrefixBelow;
      ghost var q0, n0, k := queues, notes, 0;
      TakeNone(q0, n0, id, true, UpTo(Some(ready)));
      while id in queues && queues[id] != [] && queues[id][0].offset <= ready
        invariant Valid() && TakenFirst(q0, n0, queues, notes, id, true, k)
        invariant PrefixBelow(QueueOf(q0, id), k, UpTo(Some(ready)))
        invariant id in queues && queues[id] == [] ==> id in q0 && q0[id] == []
        decreases |QueueOf(queues, id)|
      {
        TakeOne(q0, n0, queues, notes, id, true, UpTo(Some(ready)), k);
        k := k + 1;
        AnswerFront(id, Delivered(id, queues[id][0]));
        TakenFirstStays(q0, n0, queues, notes, id, true, k);
        DropIfEmpty(id);
      }
      TakeNoMore(q0, n0, queues, notes, id, true, UpTo(Some(ready)), k);
    }

    /** `handleDeliveryCallbacks`: afterwards no stream that moved has a callback left whose offset
        was reached, and no other stream was touched. */
    method HandleDeliveries(ready: StreamId -> Option<nat>)
      requires Valid()
      modifies `queues, `notes, `reached
      ensures Valid() && reached == {} && old(notes) <= notes
      ensures AnsweredAs(old(notes), old(queues), notes, queues, true)
      ensures forall id :: id in old(reached) ==>
        Settled(QueueOf(old(queues), id), QueueOf(queues, id), UpTo(ready(id)))
      ensures DrainedUpTo(old(reached), old(queues), queues, ready)
      ensures forall id :: id !in old(reached) ==> QueueOf(queues, id) == QueueOf(old(queues), id)
    {
      hide Told, WellFormed, TakenBelow, Settled, QueueOf, AnsweredAs, DrainedUpTo;
      ghost var q0 := queues;
      while reached != {}
        invariant Valid() && reached <= old(reached) && AllAre(old(notes), notes, true)
        invariant forall id :: id in old(reached) - reached ==>
          Settled(QueueOf(q0, id), QueueOf(queues, id), UpTo(ready(id)))
        invariant forall id :: id !in old(reached) - reached ==> QueueOf(queues, id) == QueueOf(q0, id)
      {
        var id :| id in reached;
        reached := reached - {id};
        ghost var q, n := queues, notes;
        Deliver(id, ready(id));
        TakenMeans(q, n, queues, notes, id, true, UpTo(ready(id)));
      }
      LeftWaiting(old(reached), q0, queues, ready);
      AllAnswered(old(notes), q0, notes, queues, true);
    }

    /** `processCallbacksAfterWriteData`: the same for offsets that were sent, unless the connection is
        closed. */
    method HandleSent(ready: StreamId -> nat)
      requires Valid()
      modifies `queues, `notes, `reached
      ensures Valid() && AnsweredAs(old(notes), old(queues), notes, queues, true)
      ensures closed ==> queues == old(queues) && notes == old(notes) && reached == old(reached)
      ensures !closed ==> reached == {}
      ensures !closed ==> forall id :: id in old(reached) ==>
        Settled(QueueOf(old(queues), id), QueueOf(queues, id), UpTo(Some(ready(id))))
      ensures !closed ==> DrainedUpTo(old(reached), old(queues), queues, id => Some(ready(id)))
      ensures forall id :: id !in old(reached) ==> QueueOf(queues, id) == QueueOf(old(queues), id)
    {
      hide Told, WellFormed, Settled, QueueOf, AnsweredAs, DrainedUpTo;
      if closed {
        AllAnswered(notes, queues, notes, queues, true);
      } else {
        DeliverAllSent(ready);
        LeftWaiting(old(reached), old(queues), queues, id => Some(ready(id)));
      }
    }

    method DeliverAllSent(ready: StreamId -> nat)
      requires Valid()
      modifies `queues, `notes, `reached
      ensures Valid() && reached == {} && AnsweredAs(old(notes), old(queues), notes, queues, true)
      ensures forall id :: id in old(reached) ==>
        Settled(QueueOf(old(queues), id), QueueOf(queues, id), UpTo(Some(ready(id))))
      ensures forall id :: id !in old(reached) ==> QueueOf(queues, id) == QueueOf(old(queues), id)
    {
      hide Told, WellFormed, TakenBelow, Settled, QueueOf, AnsweredAs, UpTo;
      ghost var q0 := queues;
      while reached != {}
        invariant Valid() && reached <= old(reached) && AllAre(old(notes), notes, true)
        invariant forall id :: id in old(reached) - reached ==>
          Settled(QueueOf(q0, id), QueueOf(queues, id), UpTo(Some(ready(id))))
        invariant forall id :: id !in old(reached) - reached ==> QueueOf(queues, id) == QueueOf(q0, id)
      {
        var id :| id in reached;
        reached := reached - {id};
        ghost var q, n := queues, notes;
        DeliverSent(id, ready(id));
        TakenMeans(q, n, queues, notes, id, true, UpTo(Some(ready(id))));
      }
      AllAnswered(old(notes), q0, notes, queues, true);
    }

    /** `cancelByteEventCallbacks`: every registration there ever was has now been answered. */
    method CancelAll()
      requires Valid()
      modifies `queues, `notes
      ensures Valid() && queues == map[] && old(notes) <= notes
      ensures AnsweredAs(old(notes), old(queues), notes, queues, false)
      ensures forall id, e {:trigger Outstanding(notes, id, e)} :: Outstanding(notes, id, e) == 0
    {
      hide WellFormed, Answered, AnsweredAs;
      var moved := queues;
      queues := map[];
      while moved != map[]
        invariant AllWellFormed(moved) && Told(notes, moved) && AllAre(old(notes), notes, false)
        invariant queues == map[]
        decreases moved.Keys
      {
        var id :| id in moved;
        var q := moved[id];
        for i := 0 to |q|
          invariant AllWellFormed(moved[id := q[i..]]) && Told(notes, moved[id := q[i..]])
          invariant AllAre(old(notes), notes, false)
          invariant queues == map[]
        {
          CancelOne(notes, moved, id, q, i);
          notes := notes + [Cancelled(id, q[i])];
        }
        SameWaiting(notes, moved[id := q[|q|..]], moved - {id});
        moved := moved - {id};
      }
      AllAnswered(old(notes), old(queues), notes, queues, false);
    }

    /** The connection closes: whoever still waits is told, and every registration has been answered. */
    method Close()
      requires Valid()
      modifies `closed, `queues, `notes
      ensures Valid() && closed && NoneWaiting(queues)
      ensures AnsweredAs(old(notes), old(queues), notes, queues, false)
      ensures forall id, e {:trigger Outstanding(notes, id, e)} :: Outstanding(notes, id, e) == 0
    {
      hide Told, AnsweredAs;
      closed := true;
      CancelAll();
    }

    /** One call into the registry.  Once it is closed and nobody waits, nobody is told anything. */
    method Perform(op: Op)
      requires Valid()
      modifies this
      ensures Valid() && closed == old(closed)
      ensures op.Does(closed, old(reached), old(queues), old(notes), queues, notes)
      ensures old(closed && NoneWaiting(queues)) ==> NoneWaiting(queues) && notes == old(notes)
    {
      hide Told, TakenBelow, AnsweredAs, Settled, NoneWaiting, QueueOf, DrainedUpTo;
      ghost var q0, n0 := queues, notes;
      match op
      case DoRegister(id, offset, cb, receiving, known, ready) =>
        var _, _ := Register(id, offset, cb, receiving, known, ready);
        assert closed ==> n0 + [] == n0;
      case DoAnswer(id, e) =>
        AnswerReady(id, e);
        assert closed ==> n0 + [] == n0;
      case DoDeliveries(ready) =>
        HandleDeliveries(ready);
        SilentIfNoneWait(n0, q0, notes, queues, true);
      case DoSent(ready) =>
        HandleSent(ready);
        SilentIfNoneWait(n0, q0, notes, queues, true);
      case DoCancel(id, offset, receiving) =>
        CancelForStream(id, offset, receiving);
        if !receiving {
          TakenMeans(q0, n0, queues, notes, id, false, offset);
          AllAnswered(n0, q0, notes, queues, false);
        }
        SilentIfNoneWait(n0, q0, notes, queues, false);
      case DoCancelAll =>
        CancelAll();
        SilentIfNoneWait(n0, q0, notes, queues, false);
    }

    /** Nobody is told anything after the connection has closed. */
    method CloseThenPerform(ops: seq<Op>)
      requires Valid()
      modifies this
      ensures Valid() && AnsweredAs(old(notes), old(queues), notes, queues, false)
      ensures forall id, e {:trigger Outstanding(notes, id, e)} :: Outstanding(notes, id, e) == 0
    {
      hide Told, AnsweredAs;
      Close();
      ghost var n, q := notes, queues;
      for i := 0 to |ops|
        invariant Valid() && closed && NoneWaiting(queues) && notes == n
      {
        Perform(ops[i]);
      }
      SameAnswers(old(notes), old(queues), n, q, queues, false);
    }
  }

  datatype Op =
    | DoRegister(id: StreamId, offset: nat, cb: Option<Callback>, receiving: bool, known: bool, ready: Option<nat>)
    | DoAnswer(id: StreamId, entry: Entry)
    | DoDeliveries(acked: StreamId -> Option<nat>)
    | DoSent(sent: StreamId -> nat)
    | DoCancel(id: StreamId, limit: Option<nat>, receiving: bool)
    | DoCancelAll
  {
    /** Who is told what by a call, and who waits afterwards. */
    ghost predicate Does(closed: bool, reached: set<StreamId>, q0: Queues, n0: seq<Note>, q: Queues, n: seq<Note>) {
      match this
      case DoRegister(id, offset, cb, receiving, known, _) =>
        var taken := !receiving && !closed && known && cb.Some? && Waiting(q0, id, Entry(offset, cb.value)) == 0;
        n == n0 + (if taken then [Registered(id, Entry(offset, cb.value))] else []) && OthersKept(q0, q, id)
      case DoAnswer(id, e) =>
        n == n0 + (if !closed && Waiting(q0, id, e) == 1 then [Delivered(id, e)] else []) && OthersKept(q0, q, id)
      case DoDeliveries(acked) =>
        && AnsweredAs(n0, q0, n, q, true)
        && DrainedUpTo(reached, q0, q, acked)
        && (forall id :: id !in reached ==> QueueOf(q, id) == QueueOf(q0, id))
      case DoSent(sent) =>
        && (closed ==> q == q0 && n == n0)
        && (!closed ==>
              && AnsweredAs(n0, q0, n, q, true)
              && DrainedUpTo(reached, q0, q, id => Some(sent(id)))
              && (forall id :: id !in reached ==> QueueOf(q, id) == QueueOf(q0, id)))
      case DoCancel(id, limit, receiving) =>
        && (receiving ==> q == q0 && n == n0)
        && (!receiving ==> AnsweredAs(n0, q0, n, q, false) && OthersKept(q0, q, id))
        && (!receiving ==> forall e ::
              e in QueueOf(q, id) <==> e in QueueOf(q0, id) && limit.Some? && e.offset >= limit.value)
      case DoCancelAll => AnsweredAs(n0, q0, n, q, false) && q == map[]
    }
  }

  /** In the streams that moved, exactly the entries beyond the offset that was reached still wait. */
  ghost predicate DrainedUpTo(reached: set<StreamId>, q0: Queues, q: Queues, ready: StreamId -> Option<nat>) {
    forall id, e :: id in reached ==>
      (e in QueueOf(q, id) <==> e in QueueOf(q0, id) && !(ready(id).Some? && e.offset <= ready(id).value))
  }

  ghost predicate NoneWaiting(queues: Queues) {
    forall id :: QueueOf(queues, id) == []
  }

  lemma SilentIfNoneWait(n0: seq<Note>, q0: Queues, n: seq<Note>, q: Queues, delivered: bool)
    requires AnsweredAs(n0, q0, n, q, delivered) || (n == n0 && q == q0)
    ensures NoneWaiting(q0) ==> n == n0 && NoneWaiting(q)
  {
    if NoneWaiting(q0) && AnsweredAs(n0, q0, n, q, delivered) {
      var new_ := n[|n0|..];
      forall id, e ensures multiset(new_)[Answer(delivered, id, e)] == Waiting(q, id, e) == 0 {
        assert QueueOf(q0, id) == [];
      }
      assert new_ != [] ==> multiset(new_)[new_[0]] > 0 && new_[0] == n[|n0|];
      assert new_ != [] ==> new_[0] == Answer(delivered, new_[0].id, new_[0].entry);
      assert n == n0 + new_;
      forall id ensures QueueOf(q, id) == [] {
        assert QueueOf(q, id) != [] ==> Waiting(q, id, QueueOf(q, id)[0]) == 1;
      }
    }
  }

  lemma SameAnswers(n0: seq<Note>, q0: Queues, n: seq<Note>, q: Queues, q': Queues, delivered: bool)
    requires AnsweredAs(n0, q0, n, q, delivered) && NoneWaiting(q) && NoneWaiting(q')
    ensures AnsweredAs(n0, q0, n, q', delivered)
  {
    forall id, e ensures Waiting(q', id, e) == Waiting(q, id, e) {
      assert QueueOf(q, id) == [] && QueueOf(q', id) == [];
    }
  }

  /** All notes after `n0` say delivered, or all say cancelled. */
  ghost predicate AllAre(n0: seq<Note>, n: seq<Note>, delivered: bool) {
    n0 <= n && forall i :: |n0| <= i < |n| ==> if delivered then n[i].Delivered? else n[i].Cancelled?
  }

  /** And they went, once each, to exactly the entries that left the queues. */
  ghost predicate AnsweredAs(n0: seq<Note>, q0: Queues, n: seq<Note>, q: Queues, delivered: bool) {
    && AllAre(n0, n, delivered)
    && forall id, e {:trigger Waiting(q, id, e)} ::
         multiset(n[|n0|..])[Answer(delivered, id, e)] == Waiting(q0, id, e) - Waiting(q, id, e)
  }

  lemma AllAnswered(n0: seq<Note>, q0: Queues, n: seq<Note>, q: Queues, delivered: bool)
    requires Told(n0, q0) && Told(n, q) && AllAre(n0, n, delivered)
    ensures AnsweredAs(n0, q0, n, q, delivered)
  {
    hide Answered;
    var new_ := n[|n0|..];
    assert n == n0 + new_;
    forall id, e
      ensures multiset(new_)[Answer(delivered, id, e)] == Waiting(q0, id, e) - Waiting(q, id, e)
    {
      assert Outstanding(n, id, e) == Outstanding(n0, id, e) + Outstanding(new_, id, e);
      assert Registered(id, e) !in new_ && Answer(!delivered, id, e) !in new_;
    }
  }

  lemma CancelOne(notes: seq<Note>, moved: Queues, id: StreamId, q: seq<Entry>, i: nat)
    requires i < |q| && AllWellFormed(moved[id := q[i..]]) && Told(notes, moved[id := q[i..]])
    ensures AllWellFormed(moved[id := q[i + 1..]]) && Told(notes + [Cancelled(id, q[i])], moved[id := q[i + 1..]])
  {
    hide Told, WellFormed;
    var q1 := moved[id := q[i..]];
    PopMoves(notes, q1, id, Cancelled(id, q[i]));
    assert q1[id := q1[id][1..]] == moved[id := q[i + 1..]];
  }

  /** What is left of a queue is its end, from the first entry that is not below the limit. */
  ghost predicate Settled(before: seq<Entry>, after: seq<Entry>, limit: Option<nat>) {
    && |after| <= |before| && after == before[|before| - |after|..]
    && forall i :: 0 <= i < |before| ==> (Below(before[i], limit) <==> i < |before| - |after|)
  }

  lemma StillIn(before: seq<Entry>, after: seq<Entry>, limit: Option<nat>, e: Entry)
    requires Settled(before, after, limit)
    ensures e in after <==> e in before && !Below(e, limit)
  {
    var k := |before| - |after|;
    if e in before {
      var i :| 0 <= i < |before| && before[i] == e;
      assert i >= k ==> after[i - k] == e;
    }
    if e in after {
      var i :| 0 <= i < |after| && after[i] == e;
      assert before[k + i] == e;
    }
  }

  lemma LeftWaiting(reached: set<StreamId>, q0: Queues, q: Queues, ready: StreamId -> Option<nat>)
    requires forall id :: id in reached ==> Settled(QueueOf(q0, id), QueueOf(q, id), UpTo(ready(id)))
    ensures DrainedUpTo(reached, q0, q, ready)
  {
    hide Settled, QueueOf;
    forall id, e | id in reached
      ensures e in QueueOf(q, id) <==> e in QueueOf(q0, id) && !(ready(id).Some? && e.offset <= ready(id).value)
    {
      StillIn(QueueOf(q0, id), QueueOf(q, id), UpTo(ready(id)), e);
    }
  }

  lemma CancelledBelow(q0: Queues, n0: seq<Note>, q: Queues, n: seq<Note>, id: StreamId, offset: Option<nat>)
    requires TakenBelow(q0, n0, q, n, id, false, offset)
    ensures forall e :: e in QueueOf(q, id) <==> e in QueueOf(q0, id) && offset.Some? && e.offset >= offset.value
  {
    hide Settled, QueueOf, TakenBelow;
    TakenMeans(q0, n0, q, n, id, false, offset);
    forall e ensures e in QueueOf(q, id) <==> e in QueueOf(q0, id) && offset.Some? && e.offset >= offset.value {
      StillIn(QueueOf(q0, id), QueueOf(q, id), offset, e);
    }
  }

  lemma TakenFirstStays(q0: Queues, n0: seq<Note>, q: Queues, n: seq<Note>, id: StreamId, delivered: bool, k: nat)
    requires TakenFirst(q0, n0, q, n, id, delivered, k)
    ensures forall q' :: SameQueues(q, q') ==> TakenFirst(q0, n0, q', n, id, delivered, k)
  {
  }

  lemma TakenMeans(
    q0: Queues, n0: seq<Note>, q: Queues, n: seq<Note>, id: StreamId, delivered: bool, limit: Option<nat>)
    requires TakenBelow(q0, n0, q, n, id, delivered, limit)
    ensures AllAre(n0, n, delivered) && Settled(QueueOf(q0, id), QueueOf(q, id), limit)
    ensures forall other :: other != id ==> QueueOf(q, other) == QueueOf(q0, other)
  {
    var k: nat :| TakenFirst(q0, n0, q, n, id, delivered, k) && SplitsAt(QueueOf(q0, id), k, limit);
  }
}
