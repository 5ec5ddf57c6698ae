/** `SendmmsgGSOPacketBatchWriter`: packets for several destinations, collected into one chain per
    segment size and destination and handed to the kernel together. */
module MultiGso {
  import opened Bytes
  import opened GsoBatches

  type Address = nat

  /** The packets of the chains for `a`, in the order of the chains. */
  ghost function ChainsFor(addrs: seq<Address>, bufs: seq<seq<Packet>>, a: Address): seq<Packet>
    requires |addrs| == |bufs|
  {
    if bufs == [] then []
    else
      var n := |bufs| - 1;
      ChainsFor(addrs[..n], bufs[..n], a) + if addrs[n] == a then bufs[n] else []
  }

  /** The packets appended for `a`, in order. */
  ghost function PacketsFor(history: seq<(Address, Packet)>, a: Address): seq<Packet> {
    if history == [] then []
    else
      var n := |history| - 1;
      PacketsFor(history[..n], a) + if history[n].0 == a then [history[n].1] else []
  }

  ghost function TotalSize(history: seq<(Address, Packet)>): nat {
    if history == [] then 0
    else TotalSize(history[..|history| - 1]) + |history[|history| - 1].1|
  }

  /** Adding to the last chain of a destination adds to the end of its packets, and to no
      other destination's. */
  lemma {:induction false} ExtendLastChain(addrs: seq<Address>, bufs: seq<seq<Packet>>, k: nat, p: Packet, a: Address)
    requires |addrs| == |bufs| && k < |bufs| && forall i :: k < i < |addrs| ==> addrs[i] != addrs[k]
    ensures ChainsFor(addrs, bufs[k := bufs[k] + [p]], a)
            == ChainsFor(addrs, bufs, a) + if a == addrs[k] then [p] else []
  {
    var n := |bufs| - 1;
    var bufs' := bufs[k := bufs[k] + [p]];
    if k == n {
      assert bufs'[..n] == bufs[..n];
    } else {
      assert bufs'[..n] == bufs[..n][k := bufs[k] + [p]];
      ExtendLastChain(addrs[..n], bufs[..n], k, p, a);
    }
  }

  lemma AddChain(addrs: seq<Address>, bufs: seq<seq<Packet>>, b: Address, p: Packet, a: Address)
    requires |addrs| == |bufs|
    ensures ChainsFor(addrs + [b], bufs + [[p]], a) == ChainsFor(addrs, bufs, a) + if a == b then [p] else []
  {
    assert (addrs + [b])[..|addrs|] == addrs && (bufs + [[p]])[..|bufs|] == bufs;
  }

  lemma AddToHistory(history: seq<(Address, Packet)>, b: Address, p: Packet, a: Address)
    ensures PacketsFor(history + [(b, p)], a) == PacketsFor(history, a) + if a == b then [p] else []
    ensures TotalSize(history + [(b, p)]) == TotalSize(history) + |p|
  {
    assert (history + [(b, p)])[..|history|] == history;
  }

  /** A chain whose segment size is 0 holds one packet; otherwise all packets but the last have
      the segment size, and the last, of size `prev`, is no larger. */
  ghost predicate ChainShape(chain: seq<Packet>, gso: nat, prev: nat) {
    && chain != [] && prev == |chain[|chain| - 1]|
    && (|chain| == 1 ==> gso == 0)
    && (|chain| > 1 ==> prev <= gso && forall i :: 0 <= i < |chain| - 1 ==> |chain[i]| == gso)
  }

  /** With content in every packet, each chain arrives as the packets it was made of. */
  lemma ChainArrives(chain: seq<Packet>, gso: nat, prev: nat)
    requires ChainShape(chain, gso, prev) && forall i :: 0 <= i < |chain| ==> chain[i] != []
    ensures Arrive(Emission(Flatten(chain), gso)) == chain
  {
    if |chain| == 1 {
      assert chain == [chain[0]];
      FlattenOne(chain[0]);
    } else {
      SegmentsRestore(chain);
    }
  }

  /** What arrives at `a` of chains handed over with their segment sizes. */
  ghost function ArrivesAt(addrs: seq<Address>, emissions: seq<Emission>, a: Address): seq<Packet>
    requires |addrs| == |emissions|
  {
    if emissions == [] then []
    else
      var n := |emissions| - 1;
      ArrivesAt(addrs[..n], emissions[..n], a) + if addrs[n] == a then Arrive(emissions[n]) else []
  }

  /** At every destination arrives what was appended for it. */
  ghost predicate AllArrive(history: seq<(Address, Packet)>, addrs: seq<Address>, emissions: seq<Emission>)
    requires |addrs| == |emissions|
  {
    forall a :: ArrivesAt(addrs, emissions, a) == PacketsFor(history, a)
  }

  /** The chains arrive, destination by destination, as the packets they were made of. */
  lemma {:induction false} ChainsArrive(addrs: seq<Address>, bufs: seq<seq<Packet>>, gso: seq<nat>, prev: seq<nat>, a: Address)
    requires |addrs| == |bufs| == |gso| == |prev|
    requires forall i :: 0 <= i < |bufs| ==> ChainShape(bufs[i], gso[i], prev[i])
    requires forall i, j :: 0 <= i < |bufs| && 0 <= j < |bufs[i]| ==> bufs[i][j] != []
    ensures ArrivesAt(addrs, Emissions(bufs, gso), a) == ChainsFor(addrs, bufs, a)
  {
    hide ChainShape;
    if bufs != [] {
      var n := |bufs| - 1;
      ChainsArrive(addrs[..n], bufs[..n], gso[..n], prev[..n], a);
      assert Emissions(bufs, gso)[..n] == Emissions(bufs[..n], gso[..n]);
      ChainArrives(bufs[n], gso[n], prev[n]);
    }
  }

  function Emissions(bufs: seq<seq<Packet>>, gso: seq<nat>): (es: seq<Emission>)
    requires |bufs| == |gso|
    ensures |es| == |bufs|
  {
    seq(|bufs|, i requires 0 <= i < |bufs| => Emission(Flatten(bufs[i]), gso[i]))
  }

  /** A destination's packets have content if all packets have. */
  lemma {:induction false} ContentKept(addrs: seq<Address>, bufs: seq<seq<Packet>>, history: seq<(Address, Packet)>, i: nat, j: nat)
    requires |addrs| == |bufs| && i < |bufs| && j < |bufs[i]|
    requires ChainsFor(addrs, bufs, addrs[i]) == PacketsFor(history, addrs[i])
    requires forall k :: 0 <= k < |history| ==> history[k].1 != []
    ensures bufs[i][j] != []
  {
    InChains(addrs, bufs, i, j);
    PacketsHaveContent(history, addrs[i]);
  }

  lemma {:induction false} InChains(addrs: seq<Address>, bufs: seq<seq<Packet>>, i: nat, j: nat)
    requires |addrs| == |bufs| && i < |bufs| && j < |bufs[i]|
    ensures bufs[i][j] in ChainsFor(addrs, bufs, addrs[i])
  {
    var n := |bufs| - 1;
    if i < n {
      InChains(addrs[..n], bufs[..n], i, j);
    }
  }

  lemma {:induction false} PacketsHaveContent(history: seq<(Address, Packet)>, a: Address)
    requires forall k :: 0 <= k < |history| ==> history[k].1 != []
    ensures forall p :: p in PacketsFor(history, a) ==> p != []
  {
    if history != [] {
      PacketsHaveContent(history[..|history| - 1], a);
    }
  }

  class MultiBatch {
    const maxBufs: nat
    var bufs: seq<seq<Packet>>
    var gso: seq<nat>
    var prevSize: seq<nat>
    var addrs: seq<Address>
    var addrMap: map<Address, nat>
    var currBufs: nat
    var currSize: nat

    /** The packets appended since the last reset. */
    ghost var history: seq<(Address, Packet)>

    ghost predicate ValidChains()
      reads this
    {
      && |gso| == |prevSize| == |addrs| == |bufs|
      && (forall i :: 0 <= i < |bufs| ==> ChainShape(bufs[i], gso[i], prevSize[i]))
    }

    /** The map leads from each destination to its last chain. */
    ghost predicate ValidMap()
      reads this
    {
      && (forall i :: 0 <= i < |addrs| ==> addrs[i] in addrMap && i <= addrMap[addrs[i]])
      && (forall a :: a in addrMap ==> addrMap[a] < |addrs| && addrs[addrMap[a]] == a)
    }

    ghost predicate Valid()
      reads this
    {
      && ValidChains() && ValidMap() && NoneTooMany(addrs, bufs, gso, prevSize)
      && (forall a :: ChainsFor(addrs, bufs, a) == PacketsFor(history, a))
      && currBufs == |history| && currSize == TotalSize(history)
    }

    constructor (maxBufs: nat)
      ensures Valid() && history == [] && this.maxBufs == maxBufs
    {
      this.maxBufs := maxBufs;
      bufs, gso, prevSize, addrs, addrMap, currBufs, currSize := [], [], [], [], map[], 0, 0;
      history := [];
    }

    method Reset()
      modifies this
      ensures Valid() && history == []
    {
      bufs, gso, prevSize, addrs, addrMap, currBufs, currSize := [], [], [], [], map[], 0, 0;
      history := [];
    }

    /** Adds the packet to the last chain of its destination. */
    method ExtendChain(p: Packet, addr: Address)
      requires ValidChains() && ValidMap() && addr in addrMap && |p| <= prevSize[addrMap[addr]]
      requires gso[addrMap[addr]] == 0 || gso[addrMap[addr]] == prevSize[addrMap[addr]]
      requires NoneTooMany(addrs, bufs, gso, prevSize)
      modifies `gso, `prevSize, `bufs
      ensures ValidChains() && ValidMap() && NoneTooMany(addrs, bufs, gso, prevSize)
      ensures forall a :: ChainsFor(addrs, bufs, a) == old(ChainsFor(addrs, bufs, a)) + if a == addr then [p] else []
    {
      hide ChainsFor, NoneTooMany;
      var idx := addrMap[addr];
      forall a
        ensures ChainsFor(addrs, bufs[idx := bufs[idx] + [p]], a)
                == ChainsFor(addrs, bufs, a) + if a == addr then [p] else []
      {
        ExtendLastChain(addrs, bufs, idx, p, a);
      }
      LongerChain(addrs, bufs, gso, prevSize, idx, p);
      gso := gso[idx := prevSize[idx]];
      prevSize := prevSize[idx := |p|];
      bufs := bufs[idx := bufs[idx] + [p]];
    }

    /** Starts a new chain for the destination. */
    method StartChain(p: Packet, addr: Address)
      requires ValidChains() && ValidMap() && NoneTooMany(addrs, bufs, gso, prevSize)
      requires addr in addrMap ==>
        || |p| > prevSize[addrMap[addr]]
        || (gso[addrMap[addr]] != 0 && gso[addrMap[addr]] != prevSize[addrMap[addr]])
      modifies `gso, `prevSize, `bufs, `addrs, `addrMap
      ensures ValidChains() && ValidMap() && NoneTooMany(addrs, bufs, gso, prevSize)
      ensures forall a :: ChainsFor(addrs, bufs, a) == old(ChainsFor(addrs, bufs, a)) + if a == addr then [p] else []
    {
      hide ChainsFor, NoneTooMany;
      forall a
        ensures ChainsFor(addrs + [addr], bufs + [[p]], a) == ChainsFor(addrs, bufs, a) + if a == addr then [p] else []
      {
        AddChain(addrs, bufs, addr, p, a);
      }
      OneMoreChain(addrs, bufs, gso, prevSize, addr, p);
      addrMap := addrMap[addr := |bufs|];
      bufs := bufs + [[p]];
      gso := gso + [0];
      prevSize := prevSize + [|p|];
      addrs := addrs + [addr];
    }

    /** `append`. The result asks for a flush, and does so when the number of packets reaches
        the maximum. */
    method Append(p: Packet, addr: Address) returns (flush: bool)
      requires Valid()
      modifies this
      ensures Valid() && history == old(history) + [(addr, p)]
      ensures flush <==> |history| == maxBufs
    {
      hide ChainsFor, PacketsFor, TotalSize, ChainShape, NoneTooMany;
      forall a
        ensures PacketsFor(history + [(addr, p)], a) == PacketsFor(history, a) + if a == addr then [p] else []
      {
        AddToHistory(history, addr, p, a);
      }
      AddToHistory(history, addr, p, addr);
      history := history + [(addr, p)];
      currSize := currSize + |p|;
      currBufs := currBufs + 1;
      if addr in addrMap && |p| <= prevSize[addrMap[addr]]
         && (gso[addrMap[addr]] == 0 || gso[addrMap[addr]] == prevSize[addrMap[addr]]) {
        ExtendChain(p, addr);
      } else {
        StartChain(p, addr);
      }
      return currBufs == maxBufs;
    }

    /** `write`: all chains are handed over at once, each to its destination with its segment size.  The
        socket's answer is `answer`: the number of chains it took, or, for a single chain, not negative
        if it took it.  At each destination arrives a prefix of what was appended for it; everything
        arrives everywhere exactly if all chains were taken.  A socket that takes only some is not
        reported as a failure, which would be a negative result. */
    method WriteOut(answer: int) returns (consumed: int, destinations: seq<Address>, emissions: seq<Emission>)
      requires Valid() && bufs != [] && (|bufs| > 1 ==> answer <= |bufs|)
      ensures |destinations| == |emissions| == (if answer < 0 then 0 else if |bufs| == 1 then 1 else answer) <= |bufs|
      ensures |bufs| == 1 || answer < 0 ==> consumed == answer
      ensures |bufs| > 1 && 0 <= answer ==> consumed == if answer == |bufs| then TotalSize(history) else 0
      ensures (forall k :: 0 <= k < |history| ==> history[k].1 != []) ==>
        && (forall a :: ArrivesAt(destinations, emissions, a) <= PacketsFor(history, a))
        && (AllArrive(history, destinations, emissions) <==> answer >= 0 && (|bufs| == 1 || answer == |bufs|))
    {
      hide ChainsFor, PacketsFor, ChainShape, ArrivesAt, TotalSize, NoneTooMany;
      var n := TakenChains(|bufs|, answer);
      destinations, emissions := addrs[..n], Emissions(bufs[..n], gso[..n]);
      consumed := if |bufs| == 1 || answer <= 0 then answer else if answer == |bufs| then currSize else 0;
      if forall k :: 0 <= k < |history| ==> history[k].1 != [] {
        forall i, j | 0 <= i < |bufs| && 0 <= j < |bufs[i]| ensures bufs[i][j] != [] {
          ContentKept(addrs, bufs, history, i, j);
        }
        forall a ensures ArrivesAt(destinations, emissions, a) == ChainsFor(addrs[..n], bufs[..n], a) <= PacketsFor(history, a) {
          ChainsArrive(addrs[..n], bufs[..n], gso[..n], prevSize[..n], a);
          SomeChains(addrs, bufs, n, a);
        }
        if n < |bufs| {
          SomeChains(addrs, bufs, n, addrs[n]);
          ChainIsNotEmpty(bufs[n], gso[n], prevSize[n]);
          assert ArrivesAt(destinations, emissions, addrs[n]) != PacketsFor(history, addrs[n]);
          assert !AllArrive(history, destinations, emissions);
        } else {
          assert addrs[..n] == addrs && bufs[..n] == bufs;
          forall a ensures ArrivesAt(destinations, emissions, a) == PacketsFor(history, a) {
            assert ArrivesAt(destinations, emissions, a) == ChainsFor(addrs[..n], bufs[..n], a);
          }
        }
      }
    }
  }

  /** How many of `n` chains the socket took. */
  function TakenChains(n: nat, answer: int): nat {
    if answer < 0 then 0 else if n == 1 then 1 else answer
  }

  /** The first chains hold the first packets of each destination; a chain that is left out is missed. */
  lemma {:induction false} SomeChains(addrs: seq<Address>, bufs: seq<seq<Packet>>, k: nat, a: Address)
    requires |addrs| == |bufs| && k <= |bufs|
    ensures ChainsFor(addrs[..k], bufs[..k], a) <= ChainsFor(addrs, bufs, a)
    ensures k < |bufs| && addrs[k] == a && bufs[k] != [] ==>
      |ChainsFor(addrs[..k], bufs[..k], a)| < |ChainsFor(addrs, bufs, a)|
  {
    var n := |bufs| - 1;
    if k == |bufs| {
      assert addrs[..k] == addrs && bufs[..k] == bufs;
    } else {
      SomeChains(addrs[..n], bufs[..n], k, a);
      assert addrs[..n][..k] == addrs[..k] && bufs[..n][..k] == bufs[..k];
    }
  }

  /** A chain follows another for the same destination only if that one could not take its first packet:
      the packet is larger than the last one, or the last one was smaller than a segment. */
  ghost predicate NoneTooMany(addrs: seq<Address>, bufs: seq<seq<Packet>>, gso: seq<nat>, prev: seq<nat>)
    requires |addrs| == |bufs| == |gso| == |prev|
  {
    forall i, j :: 0 <= i < j < |bufs| && addrs[i] == addrs[j] && NoneBetween(addrs, i, j) ==>
      bufs[j] != [] && (|bufs[j][0]| > prev[i] || (gso[i] != 0 && gso[i] != prev[i]))
  }

  lemma OneMoreChain(addrs: seq<Address>, bufs: seq<seq<Packet>>, gso: seq<nat>, prev: seq<nat>, b: Address, p: Packet)
    requires |addrs| == |bufs| == |gso| == |prev| && NoneTooMany(addrs, bufs, gso, prev)
    requires forall i :: 0 <= i < |addrs| && addrs[i] == b && (forall k :: i < k < |addrs| ==> addrs[k] != b) ==>
      |p| > prev[i] || (gso[i] != 0 && gso[i] != prev[i])
    ensures NoneTooMany(addrs + [b], bufs + [[p]], gso + [0], prev + [|p|])
  {
    var addrs', bufs', n := addrs + [b], bufs + [[p]], |addrs|;
    forall i, j | 0 <= i < j <= n && addrs'[i] == addrs'[j] && NoneBetween(addrs', i, j)
      ensures bufs'[j] != [] && (|bufs'[j][0]| > prev[i] || (gso[i] != 0 && gso[i] != prev[i]))
    {
      if j < n {
        assert forall k :: i < k < j ==> addrs'[k] == addrs[k];
        assert NoneBetween(addrs, i, j);
      } else {
        assert forall k :: i < k < n ==> addrs'[k] == addrs[k];
      }
    }
  }

  /** Only the last chain of a destination is added to, so that none follows it. */
  lemma LongerChain(addrs: seq<Address>, bufs: seq<seq<Packet>>, gso: seq<nat>, prev: seq<nat>, k: nat, p: Packet)
    requires |addrs| == |bufs| == |gso| == |prev| && NoneTooMany(addrs, bufs, gso, prev)
    requires k < |addrs| && bufs[k] != [] && forall i :: k < i < |addrs| ==> addrs[i] != addrs[k]
    ensures NoneTooMany(addrs, bufs[k := bufs[k] + [p]], gso[k := prev[k]], prev[k := |p|])
  {
  }

  ghost predicate NoneBetween(addrs: seq<Address>, i: nat, j: nat)
    requires i < j < |addrs|
  {
    forall k :: i < k < j ==> addrs[k] != addrs[i]
  }

  lemma ChainIsNotEmpty(chain: seq<Packet>, gso: nat, prev: nat)
    requires ChainShape(chain, gso, prev)
    ensures chain != []
  {
  }
}
