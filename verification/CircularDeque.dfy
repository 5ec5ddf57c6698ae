/** The index geometry of the circular deque: which slot holds which element, and how
    iterators walk over the slots. Everything here is a function of the three numbers
    `capacity_`, `begin_` and `end_`. */
module RingLayout {

  /** The slot `k` steps after slot `b` on a ring of `cap` slots. */
  function Wrap(b: nat, k: nat, cap: nat): (slot: nat)
    requires b < cap && k <= cap
    ensures slot < cap
  {
    if b + k < cap then b + k else b + k - cap
  }

  lemma WrapSuccessor(b: nat, k: nat, cap: nat)
    requires b < cap && k < cap
    ensures Wrap(b, k + 1, cap) == if Wrap(b, k, cap) == cap - 1 then 0 else Wrap(b, k, cap) + 1
  {
  }

  datatype Layout = Layout(capacity: nat, begin: nat, end: nat) {

    /** At least one slot always stays free once storage is allocated. The end may be
        written `capacity` (not wrapped) or `0` (wrapped) when the last slot is in use. */
    ghost predicate Valid() {
      if capacity == 0 then begin == 0 && end == 0
      else begin < capacity && end <= capacity && Size() < capacity
    }

    function Size(): int {
      end - begin + if end < begin then capacity else 0
    }

    function MaxSize(): nat {
      if capacity == 0 then 0 else capacity - 1
    }

    predicate Wrapped() {
      begin > end
    }

    /** The iterator index of logical position `k`; position `Size()` is the end. */
    function IndexOf(k: nat): nat
      requires Valid() && k <= Size()
    {
      if !Wrapped() || begin + k < capacity then begin + k else begin + k - capacity
    }

    /** The indices that denote a position of the deque, the end included. */
    ghost predicate InRange(index: nat) {
      if Wrapped() then begin <= index < capacity || index <= end
      else begin <= index <= end
    }

    ghost function Position(index: nat): (k: nat)
      requires Valid() && InRange(index)
      ensures k <= Size() && IndexOf(k) == index
    {
      if index >= begin then index - begin else capacity - begin + index
    }

    lemma PositionOfIndex(k: nat)
      requires Valid() && k <= Size()
      ensures InRange(IndexOf(k)) && Position(IndexOf(k)) == k
      ensures k < Size() ==> k < capacity && begin < capacity && IndexOf(k) == Wrap(begin, k, capacity)
    {
    }

    lemma EndIndices()
      requires Valid()
      ensures Size() >= 0 && IndexOf(0) == begin && IndexOf(Size()) == end
      ensures capacity > 0 ==> Size() < capacity && begin < capacity && Wrap(begin, 0, capacity) == begin
      ensures begin < Modulus() || capacity == 0
    {
    }

    lemma DistinctIndices(k: nat, n: nat)
      requires Valid() && k + n <= Size()
      ensures IndexOf(k) == IndexOf(k + n) ==> n == 0
    {
    }

    /** Moving `begin` one slot back adds a first position; position `p - 1` becomes `p`. */
    lemma RetreatBegin(p: nat)
      requires Valid() && 0 < p < Size() <= capacity - 2
      ensures var b := if begin == 0 then capacity - 1 else begin - 1;
              var i := if IndexOf(p) == 0 then capacity - 1 else IndexOf(p) - 1;
              var shape := Layout(capacity, b, end);
              && b == Wrap(begin, capacity - 1, capacity) && i == Wrap(begin, p - 1, capacity)
              && shape.Valid() && shape.Size() == Size() + 1
              && shape.InRange(i) && shape.Position(i) == p
    {
    }

    /** Moving `begin` to position `r` drops the first `r` positions. */
    lemma AdvanceBegin(r: nat, f: nat)
      requires Valid() && r < Size() && f + r <= Size()
      ensures var shape := Layout(capacity, IndexOf(r), end);
              && IndexOf(r) == Wrap(begin, r, capacity)
              && shape.Valid() && shape.Size() == Size() - r
              && shape.InRange(IndexOf(f + r)) && shape.Position(IndexOf(f + r)) == f
    {
    }

    /** Moving `end` to position `m` drops the positions after it. */
    lemma TruncateEnd(m: nat, f: nat)
      requires Valid() && f <= m <= Size()
      ensures var shape := Layout(capacity, begin, IndexOf(m));
              && shape.Valid() && shape.Size() == m
              && shape.InRange(IndexOf(f)) && shape.Position(IndexOf(f)) == f
    {
    }

    function Increment(index: nat): nat {
      var next := index + 1;
      var next := if next > capacity then 0 else next;
      if Wrapped() && next == capacity then 0 else next
    }

    function Decrement(index: nat): nat
      requires capacity > 0
    {
      if index == 0 then (if Wrapped() then capacity - 1 else capacity) else index - 1
    }

    /** The number of distinct iterator indices, and so the modulus of `advance`. */
    function Modulus(): nat {
      if Wrapped() then capacity else capacity + 1
    }

    function AdvanceForward(index: nat, n: nat): nat
      requires Modulus() > 0
    {
      if n == 0 then index else (index + n) % Modulus()
    }

    ghost function IncrementTimes(index: nat, n: nat): nat {
      if n == 0 then index else Increment(IncrementTimes(index, n - 1))
    }

    /** The modular jump is the same as `n` single steps, from any index and for any `n`. */
    lemma {:induction false} AdvanceIsIteratedIncrement(index: nat, n: nat)
      requires index < Modulus()
      ensures AdvanceForward(index, n) == IncrementTimes(index, n) < Modulus()
    {
      if n == 0 {
      } else {
        AdvanceIsIteratedIncrement(index, n - 1);
        ModSuccessor(index + n - 1, Modulus());
        if n == 1 { ModSmall(index, Modulus()); }
      }
    }

    lemma AdvanceByOne(index: nat)
      requires index < Modulus()
      ensures AdvanceForward(index, 1) == Increment(index)
    {
      AdvanceIsIteratedIncrement(index, 1);
      assert IncrementTimes(index, 0) == index;
    }

    lemma DecrementUndoesIncrement(index: nat)
      requires capacity > 0 && index < Modulus()
      ensures Decrement(Increment(index)) == index
      ensures Increment(Decrement(index)) == index
    {
    }

    /** Single steps move the logical position by one. */
    lemma StepMovesPosition(k: nat)
      requires Valid() && k <= Size()
      ensures k < Size() ==> Increment(IndexOf(k)) == IndexOf(k + 1)
      ensures 0 < k ==> capacity > 0 && Decrement(IndexOf(k)) == IndexOf(k - 1)
    {
    }

    /** A jump moves the logical position by the distance jumped. */
    lemma JumpMovesPosition(k: nat, n: nat)
      requires Valid() && k + n <= Size()
      ensures Modulus() > 0 && AdvanceForward(IndexOf(k), n) == IndexOf(k + n)
    {
      if n > 0 {
        var m := Modulus();
        if IndexOf(k) + n < m {
          ModSmall(IndexOf(k) + n, m);
        } else {
          ModOnce(IndexOf(k) + n, m);
        }
      }
    }

    /** `advance(n)`: one jump forward, or single steps backward. */
    method Advance(index: nat, n: int) returns (r: nat)
      requires Valid() && InRange(index) && 0 <= Position(index) + n <= Size()
      ensures InRange(r) && Position(r) == Position(index) + n
    {
      ghost var k := Position(index);
      if n > 0 {
        JumpMovesPosition(k, n);
        PositionOfIndex(k + n);
        return AdvanceForward(index, n);
      }
      r := index;
      var left := n;
      while left != 0
        invariant n <= left <= 0
        invariant InRange(r) && Position(r) == k + n - left
        decreases -left
      {
        StepMovesPosition(Position(r));
        PositionOfIndex(Position(r) - 1);
        r := Decrement(r);
        left := left + 1;
      }
    }

    /** `distance_to`: walks from one iterator to the other, having first decided in which
        direction to walk; the answer is the difference of the logical positions. */
    method DistanceTo(index: nat, other: nat) returns (counter: int)
      requires Valid() && InRange(index) && InRange(other)
      ensures counter == Position(other) - Position(index)
    {
      if index == other {
        return 0;
      }
      var backward;
      if Wrapped() {
        if (index >= begin && other >= begin) || (index <= end && other <= end) {
          backward := index > other;
        } else {
          backward := index < other;
        }
      } else {
        backward := index > other;
      }
      ghost var start: int, goal: int := Position(index), Position(other);
      assert backward <==> goal < start;
      counter := 0;
      var iter := index;
      if backward {
        while iter != other
          invariant InRange(iter) && goal <= Position(iter) == start + counter
          decreases Position(iter)
        {
          StepMovesPosition(Position(iter));
          PositionOfIndex(Position(iter) - 1);
          iter := Decrement(iter);
          counter := counter - 1;
        }
      } else {
        while iter != other
          invariant InRange(iter) && Position(iter) == start + counter <= goal
          decreases goal - start - counter
        {
          StepMovesPosition(Position(iter));
          PositionOfIndex(Position(iter) + 1);
          iter := Increment(iter);
          counter := counter + 1;
        }
      }
    }

    /** `wrappedDistance`. */
    function WrappedDistance(first: nat, last: nat): int {
      if last >= first then last - first else capacity - first + last
    }

    lemma WrappedDistanceIsPositionDifference(first: nat, last: nat)
      requires Valid() && InRange(first) && InRange(last) && Position(first) <= Position(last)
      ensures WrappedDistance(first, last) == Position(last) - Position(first)
    {
    }
  }

  lemma AtLeastOneMultiple(d: int, m: nat)
    ensures d >= 1 ==> d * m >= m
    ensures d <= -1 ==> d * m <= -1 * m
  {
    if d >= 1 {
      assert (d - 1) * m >= 0;
    } else if d <= -1 {
      assert (-1 - d) * m >= 0;
    }
  }

  lemma ModUnique(x: nat, q: nat, r: nat, m: nat)
    requires r < m && x == q * m + r
    ensures x % m == r
  {
    var d := x / m - q;
    assert x % m - r == -(d * m) by {
      assert d * m == (x / m) * m - q * m;
    }
    AtLeastOneMultiple(d, m);
  }

  lemma ModSmall(x: nat, m: nat)
    requires x < m
    ensures x % m == x
  {
    ModUnique(x, 0, x, m);
  }

  lemma ModOnce(x: nat, m: nat)
    requires m <= x < 2 * m
    ensures x % m == x - m
  {
    ModUnique(x, 1, x - m, m);
  }

  lemma ModSuccessor(x: nat, m: nat)
    requires m > 0
    ensures (x + 1) % m == if x % m + 1 == m then 0 else x % m + 1
  {
    var q, r := x / m, x % m;
    if r + 1 == m {
      assert x + 1 == (q + 1) * m;
      ModUnique(x + 1, q + 1, 0, m);
    } else {
      ModUnique(x + 1, q, r + 1, m);
    }
  }
}

/** `CircularDeque<T>`: a growable ring buffer that refines a mathematical sequence. */
module CircularDeques {
  import opened Wrappers
  import opened RingLayout

  const INIT_CAPACITY: nat := 10

  function GrowCapacity(capacity: nat): nat {
    capacity * 3 / 2
  }

  function Max(a: nat, b: nat): nat {
    if a < b then b else a
  }

  /** The ring `s` read once around from slot `b`. */
  ghost function Rotate<T>(s: seq<T>, b: nat): (r: seq<T>)
    requires b < |s| || b == |s| == 0
    ensures |r| == |s|
  {
    seq(|s|, j requires 0 <= j < |s| => s[Wrap(b, j, |s|)])
  }

  lemma RotateUpdate<T>(s: seq<T>, b: nat, j: nat, x: T)
    requires b < |s| && j < |s|
    ensures Rotate(s[Wrap(b, j, |s|) := x], b) == Rotate(s, b)[j := x]
  {
  }

  lemma RotateFromZero<T>(s: seq<T>)
    ensures Rotate(s, 0) == s
  {
  }

  lemma RotateStraight<T>(s: seq<T>, b: nat, e: nat)
    requires b <= e <= |s| && (b < |s| || |s| == 0)
    ensures Rotate(s, b)[..e - b] == s[b..e]
  {
  }

  lemma RotateAgain<T>(s: seq<T>, b: nat, j: nat)
    requires b < |s| && j < |s|
    ensures Rotate(s, Wrap(b, j, |s|)) == Rotate(s, b)[j..] + Rotate(s, b)[..j]
  {
  }

  lemma RotateBack<T>(s: seq<T>, b: nat, x: T)
    requires b < |s|
    ensures var b' := if b == 0 then |s| - 1 else b - 1;
            Rotate(s[b' := x], b') == [x] + Rotate(s, b)[..|s| - 1]
  {
  }

  /** `r` with elements `p..p + n` copied `k` places towards the front. */
  ghost function ShiftedDown<T>(r: seq<T>, p: nat, n: nat, k: nat): (t: seq<T>)
    requires k <= p && p + n <= |r|
    ensures |t| == |r|
    ensures n == 0 ==> t == r
  {
    r[..p - k] + r[p..p + n] + r[p - k + n..]
  }

  /** `r` with elements `p + lo..p + n` copied `k` places towards the back. */
  ghost function ShiftedUp<T>(r: seq<T>, p: nat, lo: nat, n: nat, k: nat): (t: seq<T>)
    requires lo <= n && p + n + k <= |r|
    ensures |t| == |r|
    ensures lo == n ==> t == r
  {
    r[..p + k + lo] + r[p + lo..p + n] + r[p + n + k..]
  }

  /** Copying front to back reads every element before it is overwritten. */
  lemma ShiftedDownStep<T>(r: seq<T>, p: nat, i: nat, k: nat)
    requires 0 < k <= p && p + i < |r|
    ensures var t := ShiftedDown(r, p, i, k);
            t[p - k + i := t[p + i]] == ShiftedDown(r, p, i + 1, k)
  {
  }

  /** Copying back to front reads every element before it is overwritten. */
  lemma ShiftedUpStep<T>(r: seq<T>, p: nat, i: nat, n: nat, k: nat)
    requires 0 < k && 0 < i <= n && p + n + k <= |r|
    ensures var t := ShiftedUp(r, p, i, n, k);
            t[p + k + i - 1 := t[p + i - 1]] == ShiftedUp(r, p, i - 1, n, k)
  {
  }

  ghost function Inserted<T>(v: seq<T>, p: nat, x: T): seq<T>
    requires p <= |v|
  {
    v[..p] + [x] + v[p..]
  }

  ghost function Removed<T>(v: seq<T>, f: nat, r: nat): seq<T>
    requires f + r <= |v|
  {
    v[..f] + v[f + r..]
  }

  /** Opening a hole at position `p` of the first `n` by moving what follows one back. */
  lemma OpenedTowardsBack<T>(r: seq<T>, n: nat, p: nat, x: T)
    requires 0 < p < n < |r|
    ensures ShiftedUp(r[n := r[n - 1]], p, 0, n - 1 - p, 1)[p := x][..n + 1] == Inserted(r[..n], p, x)
  {
  }

  /** Opening a hole at position `p` of the first `n` by moving what precedes one forward. */
  lemma OpenedTowardsFront<T>(r: seq<T>, n: nat, p: nat, x: T)
    requires 0 < p < n < |r|
    ensures var t := ShiftedDown(r[|r| - 1 := r[0]], 1, p - 1, 1)[p - 1 := x];
            (t[|r| - 1..] + t[..|r| - 1])[..n + 1] == Inserted(r[..n], p, x)
  {
    var t := ShiftedDown(r[|r| - 1 := r[0]], 1, p - 1, 1)[p - 1 := x];
    MovedForward(r, p, x);
    hide ShiftedDown;
    var u, v := (t[|r| - 1..] + t[..|r| - 1])[..n + 1], Inserted(r[..n], p, x);
    forall i | 0 <= i < n + 1 ensures u[i] == v[i] {
      assert u[i] == t[if i == 0 then |r| - 1 else i - 1];
      assert v[i] == if i < p then r[i] else if i == p then x else r[i - 1];
    }
  }

  /** What precedes position `p` one place forward on the ring, and `x` before it. */
  lemma MovedForward<T>(r: seq<T>, p: nat, x: T)
    requires 0 < p < |r| - 1
    ensures var t := ShiftedDown(r[|r| - 1 := r[0]], 1, p - 1, 1)[p - 1 := x];
            && |t| == |r| && t[|r| - 1] == r[0] && t[p - 1] == x
            && (forall j :: 0 <= j < p - 1 ==> t[j] == r[j + 1])
            && (forall j :: p <= j < |r| - 1 ==> t[j] == r[j])
  {
    var q := r[|r| - 1 := r[0]];
    var d := ShiftedDown(q, 1, p - 1, 1);
    assert d == q[1..p] + q[p - 1..];
  }

  /** Closing the hole at `f..f + r` of the first `n` by moving what precedes it back. */
  lemma ClosedFromFront<T>(v: seq<T>, n: nat, f: nat, r: nat)
    requires f + r <= n <= |v| && r < |v|
    ensures var t := ShiftedUp(v, 0, 0, f, r);
            (t[r..] + t[..r])[..n - r] == Removed(v[..n], f, r)
  {
    var t := ShiftedUp(v, 0, 0, f, r);
    assert t[r..] == v[..f] + v[f + r..];
    assert (t[r..] + t[..r])[..n - r] == t[r..][..n - r];
  }

  /** Closing the hole at `f..f + r` of the first `n` by moving what follows it forward. */
  lemma ClosedFromBack<T>(v: seq<T>, n: nat, f: nat, r: nat)
    requires f + r <= n <= |v|
    ensures ShiftedDown(v, f + r, n - f - r, r)[..n - r] == Removed(v[..n], f, r)
  {
    assert v[..n][f + r..] == v[f + r..n];
  }

  /** Dropping a slice at the front of the first `n`, or at their back. */
  lemma DroppedAtEnds<T>(v: seq<T>, n: nat, r: nat)
    requires r <= n <= |v| && r < |v|
    ensures (v[r..] + v[..r])[..n - r] == Removed(v[..n], 0, r)
    ensures v[..n - r] == Removed(v[..n], n - r, r)
  {
    assert v[..n][r..] == v[r..n];
  }

  class CircularDeque<T(0)> {
    var storage: array<T>
    var begin: nat
    var end: nat

    function Shape(): Layout
      reads this
    {
      Layout(storage.Length, begin, end)
    }

    ghost predicate Valid()
      reads this
    {
      Shape().Valid()
    }

    /** All slots, read once around from the first element. */
    ghost function Slots(): (r: seq<T>)
      requires Valid()
      reads this, storage
      ensures |r| == storage.Length
    {
      Rotate(storage[..], begin)
    }

    ghost function Contents(): (v: seq<T>)
      requires Valid()
      reads this, storage
      ensures |v| == Shape().Size()
    {
      Slots()[..Shape().Size()]
    }

    constructor ()
      ensures Valid() && Contents() == [] && begin == 0 && Shape().MaxSize() == 0 == storage.Length
      ensures fresh(storage)
    {
      storage := new T[0];
      begin, end := 0, 0;
    }

    predicate NeedSpace()
      reads this
    {
      Shape().Size() == Shape().MaxSize()
    }

    /** `uninitialized_copy(begin(), end(), dst)`. */
    method CopyTo(dst: array<T>)
      requires Valid() && |Contents()| <= dst.Length && (dst != storage || Contents() == [])
      modifies dst
      ensures dst[..|Contents()|] == Contents() == old(Contents())
    {
      var shape := Shape();
      ghost var all := Contents();
      var iter, i := begin, 0;
      while iter != end
        invariant i <= shape.Size() && iter == shape.IndexOf(i)
        invariant dst[..i] == all[..i]
        invariant Contents() == all
        decreases shape.Size() - i
      {
        shape.StepMovesPosition(i);
        assert all[..i + 1] == all[..i] + [storage[iter]];
        dst[i] := storage[iter];
        iter := shape.Increment(iter);
        i := i + 1;
      }
      shape.DistinctIndices(i, shape.Size() - i);
    }

    /** `resize`: copies all elements into storage for `count` elements. The copy writes
        `size()` slots of a block of `count + 1`, so at most one element may be dropped. */
    method Resize(count: nat)
      requires Valid() && |Contents()| <= count + 1
      modifies this
      ensures Valid() && (storage == old(storage) || fresh(storage))
      ensures Shape().MaxSize() == count
      ensures Contents() == old(Contents()[..if count < |Contents()| then count else |Contents()|])
      ensures old(Shape().MaxSize()) != count ==> begin == 0 && storage.Length == count + 1
      ensures old(Shape().MaxSize()) == count ==> unchanged(this)
    {
      if Shape().MaxSize() == count {
        return;
      }
      var newSize := if count < Shape().Size() then count else Shape().Size();
      var newStorage := new T[count + 1];
      CopyTo(newStorage);
      storage := newStorage;
      begin, end := 0, newSize;
    }

    method Grow()
      requires Valid()
      modifies this
      ensures Valid() && (storage == old(storage) || fresh(storage))
      ensures Contents() == old(Contents())
      ensures |Contents()| <= storage.Length - 2
      ensures old(NeedSpace()) ==> begin == 0 && Shape().MaxSize() > old(Shape().MaxSize())
      ensures old(NeedSpace()) ==>
        Shape().MaxSize() == if old(storage.Length) == 0 then 10 else old(storage.Length) * 3 / 2
      ensures !old(NeedSpace()) ==> unchanged(this)
    {
      if NeedSpace() {
        Resize(if storage.Length == 0 then INIT_CAPACITY else GrowCapacity(storage.Length));
      }
    }

    /** `emplace_front` and `push_front`. */
    method EmplaceFront(x: T)
      requires Valid()
      modifies this, storage
      ensures Valid() && (storage == old(storage) || fresh(storage))
      ensures Contents() == [x] + old(Contents())
      ensures Shape().MaxSize() >= old(Shape().MaxSize())
    {
      Grow();
      hide Rotate;
      ghost var s := storage[..];
      RotateBack(s, begin, x);
      begin := if begin == 0 then storage.Length - 1 else begin - 1;
      storage[begin] := x;
      assert storage[..] == s[begin := x];
    }

    /** `emplace_back` and `push_back`. */
    method EmplaceBack(x: T)
      requires Valid()
      modifies this, storage
      ensures Valid() && (storage == old(storage) || fresh(storage))
      ensures Contents() == old(Contents()) + [x]
      ensures Shape().MaxSize() >= old(Shape().MaxSize())
      ensures begin == if old(NeedSpace()) then 0 else old(begin)
      ensures Shape().MaxSize() == if !old(NeedSpace()) then old(Shape().MaxSize())
                                   else if old(storage.Length) == 0 then 10 else old(storage.Length) * 3 / 2
    {
      Grow();
      ghost var s, n := storage[..], Shape().Size();
      if end == storage.Length {
        end := 0;
      }
      storage[end] := x;
      end := end + 1;
      RotateUpdate(s, begin, n, x);
    }

    method PopFront()
      requires Valid() && Contents() != []
      modifies this
      ensures Valid() && storage == old(storage)
      ensures Contents() == old(Contents())[1..]
      ensures begin == if old(begin) + 1 == storage.Length then 0 else old(begin) + 1
    {
      RotateAgain(storage[..], begin, 1);
      begin := begin + 1;
      if begin == storage.Length {
        begin := 0;
        if end == storage.Length {
          end := begin;
        }
      }
    }

    method PopBack()
      requires Valid() && Contents() != []
      modifies this
      ensures Valid() && storage == old(storage)
      ensures Contents() == old(Contents()[..|Contents()| - 1])
    {
      if end == 0 {
        end := storage.Length;
      }
      end := end - 1;
    }

    method Clear()
      requires Valid()
      modifies this
      ensures Valid() && storage == old(storage)
      ensures Contents() == []
      ensures begin == if old(Contents()) == [] then old(begin) else 0
    {
      if begin == end || storage.Length == 0 {
        return;
      }
      begin, end := 0, 0;
    }

    /** `at`, which throws when the index is out of bounds, and so also `operator[]`. */
    method At(i: nat) returns (r: Option<T>)
      requires Valid()
      ensures r == if i < |Contents()| then Some(Contents()[i]) else None
    {
      if i >= Shape().Size() {
        return None;
      }
      var index := Shape().Advance(begin, i);
      Shape().PositionOfIndex(i);
      return Some(storage[index]);
    }

    /** `front` and `back`. */
    method FrontAndBack() returns (front: T, back: T)
      requires Valid() && Contents() != []
      ensures front == Contents()[0] && back == Contents()[|Contents()| - 1]
    {
      front := storage[begin];
      back := storage[(if end == 0 then storage.Length else end) - 1];
    }

    /** `*to = std::move(*from)`, seen from the first element on. */
    method MoveSlot(from: nat, to: nat, ghost i: nat, ghost j: nat)
      requires Valid() && i < storage.Length && j < storage.Length
      requires from == Wrap(begin, i, storage.Length) && to == Wrap(begin, j, storage.Length)
      modifies storage
      ensures Slots() == old(Slots()[j := Slots()[i]])
    {
      RotateUpdate(storage[..], begin, j, storage[from]);
      ghost var s := storage[..];
      storage[to] := storage[from];
      assert storage[..] == s[to := s[from]];
    }

    /** `moveOrCopy`: moves positions `[p, p + n)` to the positions from `p - k` on, front
        to back. */
    method MoveOrCopy(first: nat, last: nat, dest: nat, ghost p: nat, ghost n: nat, ghost k: nat)
      requires Valid() && 0 < k <= p && p + n <= Shape().Size()
      requires first == Shape().IndexOf(p) && last == Shape().IndexOf(p + n)
      requires dest == Shape().IndexOf(p - k)
      modifies storage
      ensures Slots() == ShiftedDown(old(Slots()), p, n, k)
    {
      if first == last || first == dest {
        Shape().DistinctIndices(p - k, k);
        Shape().DistinctIndices(p, n);
        return;
      }
      Shape().PositionOfIndex(p - k);
      MoveForward(Shape(), first, last, dest, p, n, k);
    }

    method MoveForward(shape: Layout, first: nat, last: nat, dest: nat,
                       ghost p: nat, ghost n: nat, ghost k: nat)
      requires Valid() && shape == Shape() && begin < storage.Length
      requires 0 < k <= p && p + n <= shape.Size() < storage.Length
      requires first == shape.IndexOf(p) && last == shape.IndexOf(p + n)
      requires dest == Wrap(begin, p - k, storage.Length)
      modifies storage
      ensures Slots() == ShiftedDown(old(Slots()), p, n, k)
    {
      hide Slots, ShiftedDown, Wrap, Layout.Valid, Layout.Size, Layout.IndexOf, Layout.Increment;
      ghost var r := Slots();
      var iter, destFirst := first, dest;
      ghost var i := 0;
      while iter != last
        invariant 0 <= i <= n && iter == shape.IndexOf(p + i)
        invariant destFirst == Wrap(begin, p - k + i, storage.Length)
        invariant Slots() == ShiftedDown(r, p, i, k)
        decreases n - i
      {
        shape.StepMovesPosition(p + i);
        shape.PositionOfIndex(p + i);
        WrapSuccessor(begin, p - k + i, storage.Length);
        ShiftedDownStep(r, p, i, k);
        MoveSlot(iter, destFirst, p + i, p - k + i);
        iter := shape.Increment(iter);
        destFirst := if destFirst == storage.Length - 1 then 0 else destFirst + 1;
        i := i + 1;
      }
      shape.DistinctIndices(p + i, n - i);
    }

    /** `reverseMoveOrCopy`: moves positions `[p, p + n)` so that they end just before
        position `p + n + k`, back to front. */
    method ReverseMoveOrCopy(first: nat, last: nat, dest: nat, ghost p: nat, ghost n: nat, ghost k: nat)
      requires Valid() && 0 < k && p + n + k <= Shape().Size()
      requires first == Shape().IndexOf(p) && last == Shape().IndexOf(p + n)
      requires dest == Shape().IndexOf(p + n + k)
      modifies storage
      ensures Slots() == ShiftedUp(old(Slots()), p, 0, n, k)
    {
      if first == last || last == dest {
        Shape().DistinctIndices(p + n, k);
        Shape().DistinctIndices(p, n);
        return;
      }
      MoveBackward(Shape(), first, last, dest, p, n, k);
    }

    method MoveBackward(shape: Layout, first: nat, last: nat, dest: nat,
                        ghost p: nat, ghost n: nat, ghost k: nat)
      requires Valid() && shape == Shape() && begin < storage.Length
      requires 0 < k && p + n + k <= shape.Size() < storage.Length
      requires first == shape.IndexOf(p) && last == shape.IndexOf(p + n)
      requires Wrap(begin, p + k + n - 1, storage.Length) == if dest == 0 then storage.Length - 1 else dest - 1
      modifies storage
      ensures Slots() == ShiftedUp(old(Slots()), p, 0, n, k)
    {
      hide Slots, ShiftedUp, Wrap, Layout.Valid, Layout.Size, Layout.IndexOf, Layout.Decrement;
      ghost var r := Slots();
      var iter, destLast := last, dest;
      ghost var i := n;
      while iter != first
        invariant 0 <= i <= n && iter == shape.IndexOf(p + i)
        invariant Wrap(begin, p + k + i - 1, storage.Length)
                  == if destLast == 0 then storage.Length - 1 else destLast - 1
        invariant Slots() == ShiftedUp(r, p, i, n, k)
        decreases i
      {
        shape.StepMovesPosition(p + i);
        shape.PositionOfIndex(p + i - 1);
        WrapSuccessor(begin, p + k + i - 2, storage.Length);
        ShiftedUpStep(r, p, i, n, k);
        destLast := if destLast == 0 then storage.Length - 1 else destLast - 1;
        iter := shape.Decrement(iter);
        MoveSlot(iter, destLast, p + i - 1, p + k + i - 1);
        i := i - 1;
      }
      shape.DistinctIndices(p, i);
    }

    /** `storage_[slot] = x`, seen from the first element on. */
    method SetSlot(slot: nat, x: T, ghost j: nat)
      requires Valid() && j < storage.Length && slot == Wrap(begin, j, storage.Length)
      modifies storage
      ensures Slots() == old(Slots())[j := x]
    {
      RotateUpdate(storage[..], begin, j, x);
      ghost var s := storage[..];
      storage[slot] := x;
      assert storage[..] == s[slot := x];
    }

    /** The part of `emplace` that moves the elements from `index` on towards the back. */
    method EmplaceTowardsBack(index: nat, x: T, ghost p: nat)
      requires Valid() && 0 < p < Shape().Size() <= storage.Length - 2 && index == Shape().IndexOf(p)
      modifies this, storage
      ensures Valid() && storage == old(storage) && begin == old(begin)
      ensures Contents() == old(Inserted(Contents(), p, x))
      ensures Shape().InRange(index) && Shape().Position(index) == p
    {
      hide Rotate, ShiftedUp, Inserted, Layout.AdvanceForward;
      var shape := Shape();
      ghost var n, r := shape.Size(), Slots();
      var prev := if end == 0 then storage.Length - 1 else end - 1;
      shape.AdvanceByOne(end);
      var wrappedEnd := if end == storage.Length then shape.AdvanceForward(end, 1) else end;
      MoveSlot(prev, wrappedEnd, n - 1, n);
      shape.StepMovesPosition(n);
      shape.PositionOfIndex(p);
      ReverseMoveOrCopy(index, shape.Decrement(end), end, p, n - 1 - p, 1);
      SetSlot(index, x, p);
      shape.AdvanceByOne(wrappedEnd);
      end := shape.AdvanceForward(wrappedEnd, 1);
      OpenedTowardsBack(r, n, p, x);
    }

    /** The part of `emplace` that moves the elements before `pos` towards the front. */
    method EmplaceTowardsFront(pos: nat, x: T, ghost p: nat) returns (index: nat)
      requires Valid() && 0 < p < Shape().Size() <= storage.Length - 2 && pos == Shape().IndexOf(p)
      modifies this, storage
      ensures Valid() && storage == old(storage)
      ensures Contents() == old(Inserted(Contents(), p, x))
      ensures Shape().InRange(index) && Shape().Position(index) == p
      ensures begin == if old(begin) == 0 then storage.Length - 1 else old(begin) - 1
    {
      hide Rotate, ShiftedDown, Inserted, Wrap, Layout.AdvanceForward, Layout.Modulus, Layout.Increment,
           Layout.InRange, Layout.Position, Layout.Valid, Layout.IndexOf, Layout.Size;
      var shape := Shape();
      ghost var n, r := shape.Size(), Slots();
      shape.RetreatBegin(p);
      shape.EndIndices();
      var destIndex := if begin == 0 then storage.Length - 1 else begin - 1;
      MoveSlot(begin, destIndex, 0, storage.Length - 1);
      shape.AdvanceByOne(begin);
      shape.StepMovesPosition(0);
      MoveOrCopy(shape.AdvanceForward(begin, 1), pos, begin, 1, p - 1, 1);
      index := if pos == 0 then storage.Length - 1 else pos - 1;
      SetSlot(index, x, p - 1);
      RotateAgain(storage[..], begin, storage.Length - 1);
      begin := destIndex;
      OpenedTowardsFront(r, n, p, x);
    }

    /** `emplace` and `insert`. The returned index designates the new element. */
    method Emplace(pos: nat, x: T) returns (index: nat)
      requires Valid() && Shape().InRange(pos)
      modifies this, storage
      ensures Valid() && (storage == old(storage) || fresh(storage))
      ensures Contents() == old(Inserted(Contents(), Shape().Position(pos), x))
      ensures Shape().InRange(index) && Shape().Position(index) == old(Shape().Position(pos))
    {
      hide Slots;
      index := pos;
      ghost var p, v := Shape().Position(pos), Contents();
      if index == end {
        Shape().PositionOfIndex(Shape().Size());
        assert v[..p] == v;
        EmplaceBack(x);
        Shape().PositionOfIndex(Shape().Size() - 1);
        return if end == 0 then storage.Length - 1 else end - 1;
      }
      if index == begin {
        EmplaceFront(x);
        return begin;
      }
      index := EmplaceMiddle(pos, x, p);
    }

    method EmplaceMiddle(pos: nat, x: T, ghost p: nat) returns (index: nat)
      requires Valid() && 0 < p < Shape().Size() && pos == Shape().IndexOf(p)
      modifies this, storage
      ensures Valid() && (storage == old(storage) || fresh(storage))
      ensures Contents() == old(Inserted(Contents(), p, x))
      ensures Shape().InRange(index) && Shape().Position(index) == p
      // The side with fewer elements is moved.
      ensures var n, start := old(|Contents()|), if old(NeedSpace()) then 0 else old(begin);
              begin == if n - p <= p then start else if start == 0 then storage.Length - 1 else start - 1
    {
      hide Slots, Inserted, Layout.AdvanceForward, Layout.Modulus;
      index := pos;
      Shape().PositionOfIndex(p);
      var dist := Shape().DistanceTo(begin, pos);
      if NeedSpace() {
        Grow();
        index := Shape().Advance(begin, dist);
      }
      Shape().WrappedDistanceIsPositionDifference(begin, index);
      Shape().WrappedDistanceIsPositionDifference(index, end);
      if Shape().WrappedDistance(index, end) <= Shape().WrappedDistance(begin, index) {
        EmplaceTowardsBack(index, x, p);
      } else {
        index := EmplaceTowardsFront(index, x, p);
      }
    }

    /** The part of `erase` that moves the `f` elements before the slice towards the back. */
    method EraseFromFront(first: nat, last: nat, ghost f: nat, ghost r: nat)
      requires Valid() && 0 < f && 0 < r && f + r < Shape().Size()
      requires first == Shape().IndexOf(f) && last == Shape().IndexOf(f + r)
      modifies this, storage
      ensures Valid() && storage == old(storage)
      ensures Contents() == old(Removed(Contents(), f, r))
      ensures Shape().InRange(last) && Shape().Position(last) == f
      ensures begin == old(Shape().IndexOf(r))
    {
      hide Rotate, ShiftedUp, Removed, Wrap, Layout.InRange, Layout.Position, Layout.Valid, Layout.IndexOf,
           Layout.Size;
      var shape := Shape();
      ghost var n, v := shape.Size(), Slots();
      shape.EndIndices();
      shape.AdvanceBegin(r, f);
      shape.PositionOfIndex(0);
      shape.PositionOfIndex(f);
      shape.PositionOfIndex(f + r);
      var d := shape.DistanceTo(begin, first);
      var newBegin := shape.Advance(last, -d);
      ReverseMoveOrCopy(begin, first, last, 0, f, r);
      shape.PositionOfIndex(r);
      RotateAgain(storage[..], begin, r);
      begin := newBegin;
      ClosedFromFront(v, n, f, r);
    }

    /** The part of `erase` that moves the elements after the slice towards the front. */
    method EraseFromBack(first: nat, last: nat, ghost f: nat, ghost r: nat)
      requires Valid() && 0 < f && 0 < r && f + r < Shape().Size()
      requires first == Shape().IndexOf(f) && last == Shape().IndexOf(f + r)
      modifies this, storage
      ensures Valid() && storage == old(storage)
      ensures Contents() == old(Removed(Contents(), f, r))
      ensures Shape().InRange(first) && Shape().Position(first) == f
      ensures begin == old(begin)
    {
      hide Rotate, ShiftedDown, Removed, Layout.InRange, Layout.Position, Layout.Valid, Layout.IndexOf,
           Layout.Size;
      var shape := Shape();
      ghost var n, v := shape.Size(), Slots();
      shape.EndIndices();
      shape.TruncateEnd(n - r, f);
      shape.PositionOfIndex(f);
      shape.PositionOfIndex(f + r);
      shape.PositionOfIndex(n);
      var elemsRemoved := shape.DistanceTo(first, last);
      MoveOrCopy(last, end, first, f + r, n - f - r, r);
      var newEnd := shape.Advance(end, -elemsRemoved);
      end := newEnd;
      ClosedFromBack(v, n, f, r);
    }

    /** The part of `erase` that drops a slice at either end. */
    method EraseAtEnd(first: nat, last: nat, ghost f: nat, ghost r: nat) returns (index: nat)
      requires Valid() && 0 < r < Shape().Size() && f + r <= Shape().Size()
      requires first == Shape().IndexOf(f) && last == Shape().IndexOf(f + r)
      requires first == begin || last == end
      modifies this
      ensures Valid() && storage == old(storage)
      ensures Contents() == old(Removed(Contents(), f, r))
      ensures Shape().InRange(index) && Shape().Position(index) == f
    {
      hide Rotate, Removed, Layout.InRange, Layout.Position;
      var shape := Shape();
      shape.DistinctIndices(0, f);
      shape.DistinctIndices(f + r, shape.Size() - f - r);
      shape.AdvanceBegin(r, f);
      shape.TruncateEnd(f, f);
      DroppedAtEnds(Slots(), shape.Size(), r);
      if first == begin {
        RotateAgain(storage[..], begin, r);
        begin := last;
        return last;
      } else {
        end := first;
        return first;
      }
    }

    /** The part of `erase` that closes a gap in the middle: the side with fewer elements is moved. */
    method EraseMiddle(first: nat, last: nat, ghost f: nat, ghost r: nat) returns (index: nat)
      requires Valid() && 0 < f && 0 < r && f + r < Shape().Size()
      requires first == Shape().IndexOf(f) && last == Shape().IndexOf(f + r)
      modifies this, storage
      ensures Valid() && storage == old(storage)
      ensures Contents() == old(Removed(Contents(), f, r))
      ensures Shape().InRange(index) && Shape().Position(index) == f
      ensures begin == if f < old(|Contents()|) - f - r then old(Shape().IndexOf(r)) else old(begin)
    {
      hide Slots, Removed;
      var shape := Shape();
      shape.PositionOfIndex(f);
      shape.PositionOfIndex(f + r);
      shape.WrappedDistanceIsPositionDifference(begin, first);
      shape.WrappedDistanceIsPositionDifference(last, end);
      if shape.WrappedDistance(begin, first) < shape.WrappedDistance(last, end) {
        EraseFromFront(first, last, f, r);
        return last;
      }
      EraseFromBack(first, last, f, r);
      return first;
    }

    /** `erase(first, last)`. The returned index designates the element that followed the
        slice, or the end. */
    method Erase(first: nat, last: nat) returns (index: nat)
      requires Valid() && Shape().InRange(first) && Shape().InRange(last)
      requires Shape().Position(first) <= Shape().Position(last)
      modifies this, storage
      ensures Valid() && storage == old(storage)
      ensures Contents() == old(Removed(Contents(), Shape().Position(first),
                                        Shape().Position(last) - Shape().Position(first)))
      ensures Shape().InRange(index) && Shape().Position(index) == old(Shape().Position(first))
    {
      hide Slots;
      ghost var f, r := Shape().Position(first), Shape().Position(last) - Shape().Position(first);
      if first == last {
        return last;
      }
      Shape().WrappedDistanceIsPositionDifference(first, last);
      if Shape().WrappedDistance(first, last) == Shape().Size() {
        Clear();
        return end;
      }
      if first == begin || last == end {
        index := EraseAtEnd(first, last, f, r);
        return;
      }
      index := EraseMiddle(first, last, f, r);
    }

    /** `erase(pos)`. */
    method EraseOne(pos: nat) returns (index: nat)
      requires Valid() && Shape().InRange(pos) && Shape().Position(pos) < Shape().Size()
      modifies this, storage
      ensures Valid() && storage == old(storage)
      ensures Contents() == old(Removed(Contents(), Shape().Position(pos), 1))
      ensures Shape().InRange(index) && Shape().Position(index) == old(Shape().Position(pos))
    {
      var next := Shape().Advance(pos, 1);
      index := Erase(pos, next);
    }

    /** Whether an assignment of `n` elements keeps a `begin_` other than 0: `clear()` leaves
        an empty deque as it is, and no reallocation follows. */
    ghost predicate KeepsStaleBegin(reallocates: bool)
      requires Valid()
      reads this, storage
    {
      Contents() == [] && begin != 0 && !reallocates
    }

    /** Copy assignment. The copy starts at slot 0, so it is lost in part when a stale
        `begin_` survives, and entirely when a deque is assigned to itself. */
    method AssignCopy(other: CircularDeque<T>)
      requires Valid() && other.Valid() && (other != this ==> other.storage != storage)
      modifies this, storage
      ensures Valid() && (storage == old(storage) || fresh(storage))
      ensures Contents() == old(if other == this then []
                                else if KeepsStaleBegin(Shape().MaxSize() != |other.Contents()|)
                                then other.Contents()[begin..] else other.Contents())
      ensures Contents() == old(other.Contents()) <==>
              old(!KeepsStaleBegin(Shape().MaxSize() != |other.Contents()|)
                  && (other == this ==> other.Contents() == []))
    {
      Clear();
      ghost var v := other.Contents();
      Resize(other.Shape().Size());
      other.CopyTo(storage);
      end := other.Shape().Size();
      assert other != this ==> storage[..|v|] == v;
    }

    /** Initializer-list assignment. It stores the list exactly when no stale `begin_`
        survives; otherwise even the number of elements is wrong. */
    method AssignList(list: seq<T>)
      requires Valid()
      modifies this, storage
      ensures Valid() && (storage == old(storage) || fresh(storage))
      ensures Contents() == list <==> !old(KeepsStaleBegin(|list| > Shape().MaxSize()))
      ensures old(KeepsStaleBegin(|list| > Shape().MaxSize())) && old(begin) <= |list| ==>
        Contents() == list[old(begin)..]
      ensures |Contents()| == |list| <==> Contents() == list
      ensures Shape().MaxSize() == if |list| <= old(Shape().MaxSize()) then old(Shape().MaxSize())
                                   else if |list| < 10 then 10 else |list|
    {
      hide Rotate;
      Clear();
      if |list| > Shape().MaxSize() {
        Resize(Max(|list|, INIT_CAPACITY));
      }
      CopyList(list, storage);
      end := |list|;
      RotateFromZero(storage[..]);
      if begin <= end {
        RotateStraight(storage[..], begin, end);
      }
    }

    /** `uninitialized_copy(ilist.begin(), ilist.end(), storage_)`. */
    static method CopyList(list: seq<T>, slots: array<T>)
      requires |list| <= slots.Length
      modifies slots
      ensures slots[..|list|] == list
    {
      var i := 0;
      while i < |list|
        invariant 0 <= i <= |list| && slots[..i] == list[..i]
      {
        slots[i] := list[i];
        i := i + 1;
      }
    }
  }

  /** One operation of a client, with positions given as `begin() + k`. */
  datatype Op<T> =
    | PushFront(x: T)
    | PushBack(x: T)
    | PopFront
    | PopBack
    | InsertAt(k: nat, x: T)
    | EraseSlice(k: nat, n: nat)
    | ResizeTo(count: nat)
    | ClearAll

  /** What the operation asks of its caller. */
  predicate Enabled<T>(v: seq<T>, op: Op<T>) {
    match op
    case PopFront => |v| > 0
    case PopBack => |v| > 0
    case InsertAt(k, _) => k <= |v|
    case EraseSlice(k, n) => k + n <= |v|
    case ResizeTo(count) => |v| <= count
    case _ => true
  }

  ghost function Meaning<T>(v: seq<T>, op: Op<T>): seq<T>
    requires Enabled(v, op)
  {
    match op
    case PushFront(x) => [x] + v
    case PushBack(x) => v + [x]
    case PopFront => v[1..]
    case PopBack => v[..|v| - 1]
    case InsertAt(k, x) => Inserted(v, k, x)
    case EraseSlice(k, n) => Removed(v, k, n)
    case ResizeTo(_) => v
    case ClearAll => []
  }

  ghost predicate EnabledAll<T>(v: seq<T>, ops: seq<Op<T>>)
    decreases ops
  {
    ops != [] ==> Enabled(v, ops[0]) && EnabledAll(Meaning(v, ops[0]), ops[1..])
  }

  ghost function MeaningAll<T>(v: seq<T>, ops: seq<Op<T>>): seq<T>
    requires EnabledAll(v, ops)
    decreases ops
  {
    if ops == [] then v else MeaningAll(Meaning(v, ops[0]), ops[1..])
  }

  method PerformInsertion<T(0)>(d: CircularDeque<T>, k: nat, x: T)
    requires d.Valid() && k <= |d.Contents()|
    modifies d, d.storage
    ensures d.Valid() && (d.storage == old(d.storage) || fresh(d.storage))
    ensures d.Contents() == Inserted(old(d.Contents()), k, x)
  {
    hide CircularDeque.Contents, CircularDeque.Slots;
    var pos := d.Shape().Advance(d.begin, k);
    var _ := d.Emplace(pos, x);
  }

  method PerformErasure<T(0)>(d: CircularDeque<T>, k: nat, n: nat)
    requires d.Valid() && k + n <= |d.Contents()|
    modifies d, d.storage
    ensures d.Valid() && d.storage == old(d.storage)
    ensures d.Contents() == Removed(old(d.Contents()), k, n)
  {
    hide CircularDeque.Contents, CircularDeque.Slots, Removed;
    var first := d.Shape().Advance(d.begin, k);
    var last := d.Shape().Advance(first, n);
    var _ := d.Erase(first, last);
  }

  method Perform<T(0)>(d: CircularDeque<T>, op: Op<T>)
    requires d.Valid() && Enabled(d.Contents(), op)
    modifies d, d.storage
    ensures d.Valid() && (d.storage == old(d.storage) || fresh(d.storage))
    ensures d.Contents() == Meaning(old(d.Contents()), op)
  {
    hide CircularDeque.Contents, CircularDeque.NeedSpace;
    match op
    case PushFront(x) => d.EmplaceFront(x);
    case PushBack(x) => d.EmplaceBack(x);
    case PopFront => d.PopFront();
    case PopBack => d.PopBack();
    case InsertAt(k, x) => PerformInsertion(d, k, x);
    case EraseSlice(k, n) => PerformErasure(d, k, n);
    case ResizeTo(count) => d.Resize(count);
    case ClearAll => d.Clear();
  }

  /** Over every run of operations the deque behaves as the sequence does. */
  method PerformAll<T(0)>(d: CircularDeque<T>, ops: seq<Op<T>>)
    requires d.Valid() && EnabledAll(d.Contents(), ops)
    modifies d, d.storage
    ensures d.Valid() && d.Contents() == MeaningAll(old(d.Contents()), ops)
  {
    hide CircularDeque.Contents;
    var i := 0;
    while i < |ops|
      invariant 0 <= i <= |ops| && d.Valid() && (d.storage == old(d.storage) || fresh(d.storage))
      invariant EnabledAll(d.Contents(), ops[i..])
      invariant MeaningAll(d.Contents(), ops[i..]) == MeaningAll(old(d.Contents()), ops)
    {
      assert ops[i..][1..] == ops[i + 1..];
      Perform(d, ops[i]);
      i := i + 1;
    }
  }

  /** A deque that was filled and emptied again does not store all of a list assigned to it. */
  method ListIsLost<T(0)>(x: T, y: T) returns (d: CircularDeque<T>)
    ensures fresh(d) && d.Valid() && d.Contents() == [y]
  {
    d := new CircularDeque<T>();
    d.EmplaceBack(x);
    d.PopFront();
    d.AssignList([x, y]);
    assert [x, y][1..] == [y];
  }

  /** Nor a copy of a deque of just as many elements as fit. */
  method CopyIsLost<T(0)>(x: T) returns (d: CircularDeque<T>, source: CircularDeque<T>)
    ensures fresh(d) && fresh(source) && d.Valid() && source.Valid()
    ensures |source.Contents()| == 10 && d.Contents() == source.Contents()[1..]
  {
    hide CircularDeque.Contents;
    d := new CircularDeque<T>();
    d.EmplaceBack(x);
    d.PopFront();
    var room := d.Shape().MaxSize();
    source := new CircularDeque<T>();
    ghost var slots := d.storage;
    for i := 0 to room
      invariant source.Valid() && fresh(source.storage) && |source.Contents()| == i
      invariant source.storage != slots
      invariant d.Valid() && d.Contents() == [] && d.begin == 1 && d.Shape().MaxSize() == room == 10 && d.storage == slots
    {
      source.EmplaceBack(x);
    }
    d.AssignCopy(source);
  }

  /** A deque assigned to itself is emptied. */
  method SelfAssignmentEmpties<T(0)>(x: T) returns (d: CircularDeque<T>, ghost before: seq<T>)
    ensures fresh(d) && d.Valid() && before == [x] && d.Contents() == []
  {
    d := new CircularDeque<T>();
    d.EmplaceBack(x);
    before := d.Contents();
    d.AssignCopy(d);
  }
}
