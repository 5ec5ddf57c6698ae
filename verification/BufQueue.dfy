/** Bytes and chains of buffers. */
module Bytes {
  type byte = x: int | 0 <= x < 256

  function Min(a: nat, b: nat): (r: nat)
    ensures r <= a && r <= b && (r == a || r == b)
  {
    if a < b then a else b
  }

  /** All the bytes of a chain of buffers, in order. */
  function Flatten(chain: seq<seq<byte>>): seq<byte> {
    if chain == [] then [] else chain[0] + Flatten(chain[1..])
  }

  lemma {:induction false} FlattenConcat(a: seq<seq<byte>>, b: seq<seq<byte>>)
    ensures Flatten(a + b) == Flatten(a) + Flatten(b)
  {
    if a == [] {
      assert a + b == b;
    } else {
      assert (a + b)[1..] == a[1..] + b;
      FlattenConcat(a[1..], b);
    }
  }

  lemma FlattenOne(s: seq<byte>)
    ensures Flatten([s]) == s
  {
  }

  lemma FlattenEmpty()
    ensures Flatten([]) == [] && Flatten([[]]) == []
  {
    FlattenOne([]);
  }

  lemma NonEmptyBytes(chain: seq<seq<byte>>)
    ensures Flatten(chain) != [] ==> chain != []
  {
  }

  /** Splitting a chain at buffer `i`, and that buffer at `n`, splits the bytes. */
  lemma FlattenSplit(chain: seq<seq<byte>>, i: nat, n: nat)
    requires i < |chain| && n <= |chain[i]|
    ensures Flatten(chain) == Flatten(chain[..i]) + Flatten(chain[i..])
    ensures Flatten(chain[..i] + [chain[i][..n]]) == Flatten(chain[..i]) + chain[i][..n]
    ensures Flatten([chain[i][n..]] + chain[i + 1..]) == chain[i][n..] + Flatten(chain[i + 1..])
    ensures Flatten(chain[i..]) == chain[i] + Flatten(chain[i + 1..])
    ensures Flatten(chain[..i + 1]) == Flatten(chain[..i]) + chain[i]
  {
    assert chain == chain[..i] + chain[i..];
    FlattenConcat(chain[..i], chain[i..]);
    FlattenConcat(chain[..i], [chain[i][..n]]);
    FlattenOne(chain[i][..n]);
    FlattenConcat([chain[i][n..]], chain[i + 1..]);
    assert chain[i..] == [chain[i]] + chain[i + 1..];
    FlattenConcat([chain[i]], chain[i + 1..]);
    assert chain[..i + 1] == chain[..i] + [chain[i]];
    FlattenConcat(chain[..i], [chain[i]]);
    FlattenOne(chain[i]);
  }
}

/** `BufQueue`: a chain of buffers with a cached total length. The circular linked list of
    buffers is a sequence here, with the null chain as the empty sequence. */
module BufQueues {
  import opened Bytes

  class BufQueue {
    var chain: seq<seq<byte>>
    var chainLength: nat

    ghost function Content(): seq<byte>
      reads this
    {
      Flatten(chain)
    }

    /** The cached length is the true length. */
    ghost predicate Valid()
      reads this
    {
      chainLength == |Content()|
    }

    constructor ()
      ensures Valid() && Content() == []
    {
      chain, chainLength := [], 0;
    }

    method Move() returns (result: seq<seq<byte>>)
      modifies this
      ensures Valid() && Content() == [] && Flatten(result) == old(Content())
    {
      result := chain;
      chain, chainLength := [], 0;
    }

    /** `append`, which drops a chain without bytes. */
    method Append(buf: seq<seq<byte>>)
      requires Valid()
      modifies this
      ensures Valid() && Content() == old(Content()) + Flatten(buf)
      ensures Flatten(buf) == [] ==> chain == old(chain)
    {
      if |Flatten(buf)| == 0 {
        return;
      }
      FlattenConcat(chain, buf);
      chainLength := chainLength + |Flatten(buf)|;
      chain := chain + buf;
    }

    /** The loop of `splitAtMost`: the buffer the split falls in, and where inside it. */
    method Locate(n: nat) returns (current: nat, len: nat)
      requires Valid() && n < chainLength
      ensures current < |chain| && len <= |chain[current]|
      ensures |Flatten(chain[..current])| + len == n
    {
      hide Flatten;
      FlattenEmpty();
      current, len := 0, n;
      if chain != [] { FlattenSplit(chain, 0, 0); }
      while len != 0
        invariant current < |chain| && |Flatten(chain[..current])| + len == n
        decreases |chain| - current
      {
        FlattenSplit(chain, current, 0);
        if |chain[current]| > len {
          break;
        }
        len := len - |chain[current]|;
        NonEmptyBytes(chain[current + 1..]);
        current := current + 1;
      }
    }

    /** `splitAtMost`: walks to the buffer in which the split falls and cuts the chain
        there, cloning that buffer if the split is inside it. */
    method SplitAtMost(n: nat) returns (result: seq<seq<byte>>)
      requires Valid()
      modifies this
      ensures Valid()
      ensures Flatten(result) == old(Content()[..Min(n, |Content()|)])
      ensures Content() == old(Content()[Min(n, |Content()|)..])
    {
      hide Flatten;
      FlattenEmpty();
      if chain == [] || n == 0 {
        return [[]];
      }
      if n >= chainLength {
        result := Move();
        return;
      }
      var current, len := Locate(n);
      FlattenSplit(chain, current, len);
      chainLength := chainLength - n;
      if len == 0 {
        result := chain[..current];
        chain := chain[current..];
      } else {
        result := chain[..current] + [chain[current][..len]];
        chain := [chain[current][len..]] + chain[current + 1..];
      }
    }

    /** The loop of `trimStartAtMost`: the buffer the cut falls in and how much of it is
        dropped, or the end of the chain and how much was missing. */
    method LocateAtMost(n: nat) returns (current: nat, amount: nat)
      requires Valid() && chain != [] && n > 0
      ensures current <= |chain| && amount > 0
      ensures current < |chain| ==> amount <= |chain[current]| && |Flatten(chain[..current])| + amount == n
      ensures current == |chain| ==> |Content()| + amount == n
    {
      hide Flatten;
      FlattenEmpty();
      current, amount := 0, n;
      assert chain[..0] == [];
      while amount > 0
        invariant current < |chain| && amount > 0 && |Flatten(chain[..current])| + amount == n
        decreases |chain| - current
      {
        FlattenSplit(chain, current, 0);
        if |chain[current]| >= amount {
          return;
        }
        amount := amount - |chain[current]|;
        current := current + 1;
        if current == |chain| {
          assert chain[..current] == chain;
          return;
        }
      }
    }

    /** `trimStartAtMost`: drops whole buffers, then the start of the one the cut falls in;
        a chain that is used up becomes null. */
    method TrimStartAtMost(n: nat) returns (trimmed: nat)
      requires Valid()
      modifies this
      ensures Valid()
      ensures trimmed == old(Min(n, |Content()|))
      ensures Content() == old(Content()[Min(n, |Content()|)..])
    {
      hide Flatten;
      FlattenEmpty();
      if chain == [] || n == 0 {
        return 0;
      }
      var current, amount := LocateAtMost(n);
      if current < |chain| {
        FlattenSplit(chain, current, amount);
        chain := [chain[current][amount..]] + chain[current + 1..];
        trimmed := n;
      } else {
        chain := [];
        trimmed := n - amount;
      }
      chainLength := chainLength - trimmed;
    }
  }
}
