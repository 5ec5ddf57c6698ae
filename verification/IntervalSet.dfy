/** `IntervalSet<uint64_t, 1>`: a set of 64-bit numbers kept as sorted, disjoint intervals that
    do not touch. Every arithmetic operation below is on `uint64`, so the verifier also checks
    that none of them overflows. */
module IntervalSets {
  import opened Wrappers

  newtype uint64 = x: int | 0 <= x < 0x1_0000_0000_0000_0000

  const UNIT: uint64 := 1
  const MAX: uint64 := 0xFFFF_FFFF_FFFF_FFFF

  datatype Interval = Interval(start: uint64, end: uint64) {

    /** What the constructor checks before it accepts the bounds. */
    predicate Valid() {
      start <= end && end <= MAX - UNIT
    }

    ghost predicate Has(x: int) {
      start as int <= x <= end as int
    }
  }

  /** The constructor of `Interval`, which throws on bad bounds. */
  function MakeInterval(start: uint64, end: uint64): (r: Option<Interval>)
    ensures r.Some? <==> Interval(start, end).Valid()
    ensures r.Some? ==> forall x :: r.value.Has(x) <==> start as int <= x <= end as int
  {
    if start > end || end > MAX - UNIT then None else Some(Interval(start, end))
  }

  /** Whether some interval of `c` holds `x`. */
  ghost predicate Covers(c: seq<Interval>, x: int) {
    exists i :: 0 <= i < |c| && c[i].Has(x)
  }

  /** The numbers the container stands for. */
  ghost function Points(c: seq<Interval>): iset<int> {
    iset x | Covers(c, x)
  }

  ghost function Range(iv: Interval): iset<int> {
    iset x | iv.Has(x)
  }

  /** Valid intervals, sorted, with at least one uncovered number between neighbours. */
  ghost predicate Canonical(c: seq<Interval>) {
    && (forall i :: 0 <= i < |c| ==> c[i].Valid())
    && (forall i, j :: 0 <= i < j < |c| ==> c[i].end as int + 1 < c[j].start as int)
  }

  /** The intervals `first..last` are those of `c` that overlap or touch `iv`. */
  ghost predicate IsIntersectingRange(c: seq<Interval>, iv: Interval, first: nat, last: nat) {
    && first <= last <= |c|
    && (forall i :: 0 <= i < first ==> c[i].end as int + 1 < iv.start as int)
    && (forall i :: first <= i < last ==> iv.start as int <= c[i].end as int + 1)
    && (forall i :: first <= i < last ==> c[i].start as int <= iv.end as int + 1)
    && (forall i :: last <= i < |c| ==> iv.end as int + 1 < c[i].start as int)
  }

  /** The container after `insert`. */
  ghost function Inserted(c: seq<Interval>, iv: Interval, first: nat, last: nat): seq<Interval>
    requires first <= last <= |c|
  {
    c[..first] + [Hull(c, iv, first, last)] + c[last..]
  }

  ghost function Hull(c: seq<Interval>, iv: Interval, first: nat, last: nat): Interval
    requires first <= last <= |c|
  {
    if first == last then iv
    else Interval(if iv.start < c[first].start then iv.start else c[first].start,
                  if iv.end > c[last - 1].end then iv.end else c[last - 1].end)
  }

  lemma CoversConcat(c: seq<Interval>, d: seq<Interval>, x: int)
    ensures Covers(c + d, x) <==> Covers(c, x) || Covers(d, x)
  {
    if Covers(c, x) {
      var i :| 0 <= i < |c| && c[i].Has(x);
      assert (c + d)[i].Has(x);
    }
    if Covers(d, x) {
      var i :| 0 <= i < |d| && d[i].Has(x);
      assert (c + d)[|c| + i].Has(x);
    }
  }

  lemma CoversOne(iv: Interval, x: int)
    ensures Covers([iv], x) <==> iv.Has(x)
  {
    assert [iv][0] == iv;
  }

  /** Replacing `first..last` by `mid` replaces what that part covers. */
  lemma CoversSpliced(c: seq<Interval>, first: nat, last: nat, mid: seq<Interval>, x: int)
    requires first <= last <= |c|
    ensures Covers(c, x) <==> Covers(c[..first], x) || Covers(c[first..last], x) || Covers(c[last..], x)
    ensures Covers(c[..first] + mid + c[last..], x)
            <==> Covers(c[..first], x) || Covers(mid, x) || Covers(c[last..], x)
  {
    assert c == c[..first] + c[first..last] + c[last..];
    CoversConcat(c[..first] + c[first..last], c[last..], x);
    CoversConcat(c[..first], c[first..last], x);
    CoversConcat(c[..first] + mid, c[last..], x);
    CoversConcat(c[..first], mid, x);
  }

  /** The gaps between intervals that meet `iv` lie inside `iv`. */
  lemma HullIsUnion(c: seq<Interval>, iv: Interval, first: nat, last: nat, x: int)
    requires Canonical(c) && iv.Valid() && IsIntersectingRange(c, iv, first, last)
    ensures Hull(c, iv, first, last).Has(x) <==> iv.Has(x) || Covers(c[first..last], x)
  {
    var h, mid := Hull(c, iv, first, last), c[first..last];
    if first < last {
      assert mid[0] == c[first] && mid[|mid| - 1] == c[last - 1];
      if h.Has(x) && !iv.Has(x) {
        assert mid[0].Has(x) || mid[|mid| - 1].Has(x);
      }
      if Covers(mid, x) {
        var i :| 0 <= i < |mid| && mid[i].Has(x);
        assert mid[i] == c[first + i];
      }
    }
  }

  lemma CanonicalConcat(c: seq<Interval>, d: seq<Interval>)
    requires Canonical(c) && Canonical(d)
    requires forall i, j :: 0 <= i < |c| && 0 <= j < |d| ==> c[i].end as int + 1 < d[j].start as int
    ensures Canonical(c + d)
  {
  }

  lemma InsertedIsCanonical(c: seq<Interval>, iv: Interval, first: nat, last: nat)
    requires Canonical(c) && iv.Valid() && IsIntersectingRange(c, iv, first, last)
    ensures Canonical(Inserted(c, iv, first, last))
  {
    var mid := [Hull(c, iv, first, last)];
    CanonicalConcat(c[..first], mid);
    CanonicalConcat(c[..first] + mid, c[last..]);
  }

  lemma InsertedIsUnion(c: seq<Interval>, iv: Interval, first: nat, last: nat)
    requires Canonical(c) && iv.Valid() && IsIntersectingRange(c, iv, first, last)
    ensures Points(Inserted(c, iv, first, last)) == Points(c) + Range(iv)
  {
    var h := Hull(c, iv, first, last);
    forall x
      ensures Covers(Inserted(c, iv, first, last), x) <==> Covers(c, x) || iv.Has(x)
    {
      CoversSpliced(c, first, last, [h], x);
      CoversOne(h, x);
      HullIsUnion(c, iv, first, last, x);
    }
  }

  /** An insertion adds a number exactly when it lengthens the first interval it meets,
      which is how the code decides to raise the version. */
  lemma VersionTracksGrowth(c: seq<Interval>, iv: Interval, first: nat, last: nat)
    requires Canonical(c) && iv.Valid() && IsIntersectingRange(c, iv, first, last) && first < last
    ensures var h := Hull(c, iv, first, last);
            h.end - h.start > c[first].end - c[first].start
            <==> Points(c) != Points(c) + Range(iv)
  {
    var h := Hull(c, iv, first, last);
    InsertedIsUnion(c, iv, first, last);
    var c' := Inserted(c, iv, first, last);
    assert c'[first] == h;
    if h == c[first] {
      assert last == first + 1;
      assert c' == c;
    } else {
      var x := NewNumber(c, iv, first, last);
      assert Covers(c', x) && x in Points(c') && x !in Points(c);
    }
  }

  /** A number next to the first interval met that only the insertion covers. */
  lemma NewNumber(c: seq<Interval>, iv: Interval, first: nat, last: nat) returns (x: int)
    requires Canonical(c) && iv.Valid() && IsIntersectingRange(c, iv, first, last) && first < last
    requires Hull(c, iv, first, last) != c[first]
    ensures Hull(c, iv, first, last).Has(x) && !Covers(c, x)
  {
    var h := Hull(c, iv, first, last);
    x := if h.start < c[first].start then h.start as int else c[first].end as int + 1;
  }

  lemma FirstPoint(c: seq<Interval>, d: seq<Interval>)
    requires Canonical(c) && Canonical(d) && Points(c) == Points(d) && c != []
    ensures d != [] && d[0].start <= c[0].start
  {
    assert c[0].Has(c[0].start as int) && Covers(c, c[0].start as int);
    assert c[0].start as int in Points(d);
  }

  lemma FirstGap(c: seq<Interval>, d: seq<Interval>)
    requires Canonical(c) && Canonical(d) && Points(c) == Points(d)
    requires c != [] && d != [] && c[0].start == d[0].start
    ensures d[0].end <= c[0].end
  {
    var x := c[0].end as int + 1;
    assert d[0].Has(x) ==> x in Points(d);
    assert !Covers(c, x) && x !in Points(c);
  }

  lemma TailPoints(c: seq<Interval>)
    requires Canonical(c) && c != []
    ensures Canonical(c[1..]) && Points(c[1..]) == Points(c) - Range(c[0])
  {
    forall x
      ensures Covers(c[1..], x) <==> Covers(c, x) && !c[0].Has(x)
    {
      CoversConcat([c[0]], c[1..], x);
      CoversOne(c[0], x);
      assert [c[0]] + c[1..] == c;
    }
  }

  /** The canonical form is unique: what two containers stand for decides whether they
      are structurally equal. */
  lemma {:induction false} CanonicalIsUnique(c: seq<Interval>, d: seq<Interval>)
    requires Canonical(c) && Canonical(d) && Points(c) == Points(d)
    ensures c == d
  {
    if c == [] {
      if d != [] { FirstPoint(d, c); }
    } else {
      FirstPoint(c, d);
      FirstPoint(d, c);
      FirstGap(c, d);
      FirstGap(d, c);
      TailPoints(c);
      TailPoints(d);
      CanonicalIsUnique(c[1..], d[1..]);
      assert c == [c[0]] + c[1..] && d == [d[0]] + d[1..];
    }
  }

  /** However the same intervals are ordered, and however often one is repeated, building
      a set from them gives the same container. */
  lemma InsertionOrderIsIrrelevant(p: seq<Interval>, q: seq<Interval>, c: seq<Interval>, d: seq<Interval>)
    requires forall iv :: iv in p <==> iv in q
    requires Canonical(c) && Points(c) == Points(p)
    requires Canonical(d) && Points(d) == Points(q)
    ensures c == d
  {
    forall x
      ensures Covers(p, x) <==> Covers(q, x)
    {
      if Covers(p, x) {
        var i :| 0 <= i < |p| && p[i].Has(x);
        assert p[i] in q;
      }
      if Covers(q, x) {
        var i :| 0 <= i < |q| && q[i].Has(x);
        assert q[i] in p;
      }
    }
    CanonicalIsUnique(c, d);
  }

  /** What `withdraw` keeps of the intervals that meet `iv`: the part before it and the
      part after it, each only if it is not empty. */
  ghost function Remainder(c: seq<Interval>, iv: Interval, first: nat, last: nat): seq<Interval>
    requires Canonical(c) && iv.Valid() && first < last <= |c|
  {
    (if c[first].start < iv.start then [Interval(c[first].start, iv.start - UNIT)] else []) +
    (if c[last - 1].end > iv.end then [Interval(iv.end + UNIT, c[last - 1].end)] else [])
  }

  ghost function Withdrawn(c: seq<Interval>, iv: Interval, first: nat, last: nat): seq<Interval>
    requires Canonical(c) && iv.Valid() && first <= last <= |c|
  {
    if first == last then c else c[..first] + Remainder(c, iv, first, last) + c[last..]
  }

  lemma RemainderIsDifference(c: seq<Interval>, iv: Interval, first: nat, last: nat, x: int)
    requires Canonical(c) && iv.Valid() && IsIntersectingRange(c, iv, first, last) && first < last
    ensures Covers(Remainder(c, iv, first, last), x) <==> Covers(c[first..last], x) && !iv.Has(x)
  {
    var mid, a, b := c[first..last], c[first], c[last - 1];
    var left := if a.start < iv.start then [Interval(a.start, iv.start - UNIT)] else [];
    var right := if b.end > iv.end then [Interval(iv.end + UNIT, b.end)] else [];
    CoversConcat(left, right, x);
    if a.start < iv.start { CoversOne(left[0], x); }
    if b.end > iv.end { CoversOne(right[0], x); }
    assert mid[0] == a && mid[|mid| - 1] == b;
    HullIsUnion(c, iv, first, last, x);
  }

  lemma WithdrawnIsCanonical(c: seq<Interval>, iv: Interval, first: nat, last: nat)
    requires Canonical(c) && iv.Valid() && IsIntersectingRange(c, iv, first, last)
    ensures Canonical(Withdrawn(c, iv, first, last))
  {
    if first < last {
      var mid := Remainder(c, iv, first, last);
      CanonicalConcat(c[..first], mid);
      CanonicalConcat(c[..first] + mid, c[last..]);
    }
  }

  lemma OutsideRange(c: seq<Interval>, iv: Interval, first: nat, last: nat, x: int)
    requires Canonical(c) && iv.Valid() && IsIntersectingRange(c, iv, first, last) && iv.Has(x)
    ensures !Covers(c[..first], x) && !Covers(c[last..], x)
  {
  }

  lemma WithdrawnIsDifference(c: seq<Interval>, iv: Interval, first: nat, last: nat)
    requires Canonical(c) && iv.Valid() && IsIntersectingRange(c, iv, first, last)
    ensures Points(Withdrawn(c, iv, first, last)) == Points(c) - Range(iv)
  {
    var c' := Withdrawn(c, iv, first, last);
    forall x
      ensures Covers(c', x) <==> Covers(c, x) && !iv.Has(x)
    {
      CoversSpliced(c, first, last, if first == last then [] else Remainder(c, iv, first, last), x);
      if first < last { RemainderIsDifference(c, iv, first, last, x); }
      if iv.Has(x) { OutsideRange(c, iv, first, last, x); }
    }
  }

  lemma FirstAndLastAreValid(c: seq<Interval>, iv: Interval, first: nat, last: nat)
    requires Canonical(c) && IsIntersectingRange(c, iv, first, last)
    ensures first < last ==> c[first].Valid() && c[last - 1].Valid() && c[first].start <= c[last - 1].end
  {
  }

  lemma NotCoveredYet(c: seq<Interval>, iv: Interval, first: nat)
    requires Canonical(c) && iv.Valid() && IsIntersectingRange(c, iv, first, first)
    ensures Points(c) != Points(c) + Range(iv)
  {
    var x := iv.start as int;
    assert iv.Has(x) && x in Range(iv) && x !in Points(c);
  }

  class IntervalSet {
    var intervals: seq<Interval>
    var insertVersion: nat

    ghost predicate Valid()
      reads this
    {
      Canonical(intervals)
    }

    constructor ()
      ensures Valid() && Points(intervals) == iset{} && insertVersion == 0
    {
      intervals, insertVersion := [], 0;
    }

    /** The constructor from a list inserts its intervals one after the other. */
    constructor FromList(list: seq<Interval>)
      requires forall i :: 0 <= i < |list| ==> list[i].Valid()
      ensures Valid() && Points(intervals) == Points(list)
    {
      intervals, insertVersion := [], 0;
      new;
      var i := 0;
      while i < |list|
        invariant 0 <= i <= |list| && Valid()
        invariant Points(intervals) == Points(list[..i])
      {
        Insert(list[i]);
        forall x
          ensures Covers(list[..i + 1], x) <==> Covers(list[..i], x) || list[i].Has(x)
        {
          assert list[..i + 1] == list[..i] + [list[i]];
          CoversConcat(list[..i], [list[i]], x);
          CoversOne(list[i], x);
        }
        i := i + 1;
      }
      assert list[..|list|] == list;
    }

    /** `std::lower_bound` for the first interval that reaches `iv`. */
    method LowerBound(iv: Interval) returns (first: nat)
      requires Valid() && iv.Valid()
      ensures first <= |intervals|
      ensures forall i :: 0 <= i < first ==> intervals[i].end + UNIT < iv.start
      ensures forall i :: first <= i < |intervals| ==> intervals[i].end + UNIT >= iv.start
    {
      first := 0;
      var hi := |intervals|;
      while first < hi
        invariant 0 <= first <= hi <= |intervals|
        invariant forall i :: 0 <= i < first ==> intervals[i].end + UNIT < iv.start
        invariant forall i :: hi <= i < |intervals| ==> intervals[i].end + UNIT >= iv.start
      {
        var mid := (first + hi) / 2;
        if intervals[mid].end + UNIT < iv.start {
          first := mid + 1;
        } else {
          hi := mid;
        }
      }
    }

    /** `intersectingRange`: a search for the first interval that reaches `iv`, then a walk
        to the first that starts after it. */
    method IntersectingRange(iv: Interval) returns (first: nat, last: nat)
      requires Valid() && iv.Valid()
      ensures IsIntersectingRange(intervals, iv, first, last)
    {
      first := LowerBound(iv);
      last := first;
      while last != |intervals| && intervals[last].start <= iv.end + UNIT
        invariant first <= last <= |intervals|
        invariant forall i :: first <= i < last ==> intervals[i].start <= iv.end + UNIT
      {
        last := last + 1;
      }
    }

    /** `insert(interval)`. */
    method Insert(iv: Interval)
      requires Valid() && iv.Valid()
      modifies this
      ensures Valid()
      ensures Points(intervals) == old(Points(intervals)) + Range(iv)
      ensures insertVersion == old(insertVersion) +
                if Points(intervals) != old(Points(intervals)) then 1 else 0
    {
      hide Canonical, IsIntersectingRange, Points, Range;
      var first, last := IntersectingRange(iv);
      ghost var c := intervals;
      FirstAndLastAreValid(c, iv, first, last);
      InsertedIsCanonical(c, iv, first, last);
      InsertedIsUnion(c, iv, first, last);
      if first == last {
        insertVersion := insertVersion + 1;
        intervals := intervals[..first] + [iv] + intervals[first..];
        NotCoveredYet(c, iv, first);
        return;
      }
      VersionTracksGrowth(c, iv, first, last);
      var f := intervals[first];
      var originalDifference := f.end - f.start;
      f := Interval(if iv.start < f.start then iv.start else f.start,
                    if iv.end > intervals[last - 1].end then iv.end else intervals[last - 1].end);
      intervals := intervals[first := f];
      if f.end - f.start > originalDifference {
        insertVersion := insertVersion + 1;
      }
      intervals := intervals[..first + 1] + intervals[last..];
      assert intervals == Inserted(c, iv, first, last);
    }

    /** `insert(start, end)`, which throws on bounds that form no interval. */
    method InsertBounds(start: uint64, end: uint64) returns (ok: bool)
      requires Valid()
      modifies this
      ensures Valid() && (ok <==> Interval(start, end).Valid())
      ensures ok ==> Points(intervals) == old(Points(intervals)) + Range(Interval(start, end))
      ensures !ok ==> unchanged(this)
    {
      var iv := MakeInterval(start, end);
      ok := iv.Some?;
      if ok {
        Insert(iv.value);
      }
    }

    /** `withdraw(interval)`. */
    method Withdraw(iv: Interval)
      requires Valid() && iv.Valid()
      modifies this`intervals
      ensures Valid()
      ensures Points(intervals) == old(Points(intervals)) - Range(iv)
    {
      hide Canonical, IsIntersectingRange, Points, Range;
      var first, end := IntersectingRange(iv);
      ghost var c := intervals;
      FirstAndLastAreValid(c, iv, first, end);
      WithdrawnIsCanonical(c, iv, first, end);
      WithdrawnIsDifference(c, iv, first, end);
      if first == end {
        return;
      }
      var erasureStart, erasureEnd, last := first, end, end - 1;
      if last == first {
        if intervals[first].start + UNIT <= iv.start && intervals[last].end >= iv.end + UNIT {
          var toSplit := Interval(intervals[first].start, iv.start - UNIT);
          intervals := intervals[last := intervals[last].(start := iv.end + UNIT)];
          intervals := intervals[..last] + [toSplit] + intervals[last..];
          assert intervals == Withdrawn(c, iv, first, end);
          return;
        }
      }
      if intervals[first].start + UNIT <= iv.start {
        erasureStart := erasureStart + 1;
        intervals := intervals[first := intervals[first].(end := iv.start - UNIT)];
      }
      if intervals[last].end >= iv.end + UNIT {
        erasureEnd := last;
        intervals := intervals[last := intervals[last].(start := iv.end + UNIT)];
      }
      intervals := intervals[..erasureStart] + intervals[erasureEnd..];
      assert intervals == Withdrawn(c, iv, first, end);
    }

    /** `contains(start, end)`, for any two numbers and, when they are in order, in terms
        of the numbers between them. */
    method Contains(start: uint64, end: uint64) returns (found: bool)
      requires Valid()
      ensures found <==> exists i :: 0 <= i < |intervals| && intervals[i].start <= start && end <= intervals[i].end
      ensures start <= end ==>
                (found <==> forall x: int :: start as int <= x <= end as int ==> x in Points(intervals))
    {
      var i := 0;
      while i != |intervals|
        invariant 0 <= i <= |intervals|
        invariant forall j :: 0 <= j < i ==> intervals[j].end <= start && !(intervals[j].start <= start && end <= intervals[j].end)
      {
        if start >= intervals[i].start && end <= intervals[i].end {
          assert forall x: int :: start as int <= x <= end as int ==> intervals[i].Has(x);
          return true;
        }
        if start < intervals[i].end {
          AllCoveredMeansOneInterval(intervals, start as int, end as int);
          return false;
        }
        i := i + 1;
      }
      AllCoveredMeansOneInterval(intervals, start as int, end as int);
      return false;
    }
  }

  /** A stretch of numbers that is covered throughout lies inside a single interval. */
  lemma {:induction false} AllCoveredMeansOneInterval(c: seq<Interval>, lo: int, hi: int)
    requires Canonical(c)
    ensures lo <= hi && (forall x :: lo <= x <= hi ==> x in Points(c)) ==>
              exists i :: 0 <= i < |c| && c[i].Has(lo) && c[i].Has(hi)
    decreases hi - lo
  {
    if lo < hi && (forall x :: lo <= x <= hi ==> x in Points(c)) {
      AllCoveredMeansOneInterval(c, lo, hi - 1);
      var i :| 0 <= i < |c| && c[i].Has(lo) && c[i].Has(hi - 1);
      assert hi in Points(c);
      var j :| 0 <= j < |c| && c[j].Has(hi);
      assert i == j;
    } else if lo == hi {
      assert lo in Points(c) ==> Covers(c, lo);
    }
  }
}
