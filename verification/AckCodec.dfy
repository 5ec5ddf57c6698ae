/** Variable-length integers (section 16 of RFC 9000): the two top bits of the first byte give
    the length, the rest is the value in network byte order. */
module Varints {
  import opened Wrappers
  import opened Bytes

  const ONE_BYTE_LIMIT: nat := 0x3F
  const TWO_BYTE_LIMIT: nat := 0x3FFF
  const FOUR_BYTE_LIMIT: nat := 0x3FFF_FFFF
  const EIGHT_BYTE_LIMIT: nat := 0x3FFF_FFFF_FFFF_FFFF

  function Pow256(n: nat): (p: nat)
    ensures p > 0
  {
    if n == 0 then 1 else 256 * Pow256(n - 1)
  }

  /** The `n` low bytes of `v` in network byte order. */
  function ToBigEndian(v: nat, n: nat): (s: seq<byte>)
    ensures |s| == n
  {
    if n == 0 then [] else ToBigEndian(v / 256, n - 1) + [v % 256]
  }

  function FromBigEndian(s: seq<byte>): nat {
    if s == [] then 0 else 256 * FromBigEndian(s[..|s| - 1]) + s[|s| - 1]
  }

  lemma {:induction false} BigEndianRoundTrip(v: nat, n: nat)
    requires v < Pow256(n)
    ensures FromBigEndian(ToBigEndian(v, n)) == v
  {
    if n > 0 {
      BigEndianRoundTrip(v / 256, n - 1);
      assert ToBigEndian(v, n)[..n - 1] == ToBigEndian(v / 256, n - 1);
    }
  }

  lemma {:induction false} FirstByteIsSmall(v: nat, n: nat)
    requires n > 0 && v < 64 * Pow256(n - 1)
    ensures ToBigEndian(v, n)[0] < 64
  {
    if n == 1 {
      assert Pow256(0) == 1;
    } else {
      FirstByteIsSmall(v / 256, n - 1);
      assert ToBigEndian(v, n)[0] == ToBigEndian(v / 256, n - 1)[0];
    }
  }

  /** `getQuicIntegerSize`; `None` stands for the error on values that are too large. */
  function SizeClass(v: nat): (r: Option<nat>)
    ensures r.Some? <==> v < 0x4000_0000_0000_0000
    ensures r.Some? ==> r.value < 4 && v < 64 * Pow256(Length(r.value) - 1)
  {
    assert Pow256(0) == 1 && Pow256(1) == 0x100 && Pow256(2) == 0x1_0000 && Pow256(3) == 0x100_0000;
    assert Pow256(4) == 0x1_0000_0000 && Pow256(5) == 0x100_0000_0000 && Pow256(6) == 0x1_0000_0000_0000;
    assert Pow256(7) == 0x100_0000_0000_0000;
    if v <= ONE_BYTE_LIMIT then Some(0)
    else if v <= TWO_BYTE_LIMIT then Some(1)
    else if v <= FOUR_BYTE_LIMIT then Some(2)
    else if v <= EIGHT_BYTE_LIMIT then Some(3)
    else None
  }

  /** `1 << varintType`. */
  function Length(varintType: nat): (n: nat)
    requires varintType < 4
    ensures n > 0
  {
    if varintType == 0 then 1 else if varintType == 1 then 2 else if varintType == 2 then 4 else 8
  }

  function Size(v: nat): nat
    requires v <= EIGHT_BYTE_LIMIT
  {
    Length(SizeClass(v).value)
  }

  function Encode(v: nat): (s: seq<byte>)
    requires v <= EIGHT_BYTE_LIMIT
    ensures |s| == Size(v)
  {
    var varintType := SizeClass(v).value;
    var bytes := ToBigEndian(v, Length(varintType));
    FirstByteIsSmall(v, Length(varintType));
    [64 * varintType + bytes[0]] + bytes[1..]
  }

  /** `decodeQuicInteger`: the value and the number of bytes read, if there are enough. */
  function Decode(s: seq<byte>): (r: Option<(nat, nat)>)
    ensures r.Some? ==> 0 < r.value.1 <= |s|
  {
    if s == [] then None
    else
      var n := Length(s[0] / 64);
      if |s| < n then None
      else Some((FromBigEndian([s[0] % 64] + s[1..n]), n))
  }

  lemma RoundTrip(v: nat, rest: seq<byte>)
    requires v <= EIGHT_BYTE_LIMIT
    ensures Decode(Encode(v) + rest) == Some((v, Size(v)))
  {
    var varintType := SizeClass(v).value;
    var n := Length(varintType);
    var bytes, s := ToBigEndian(v, n), Encode(v) + rest;
    FirstByteIsSmall(v, n);
    assert [s[0] % 64] + s[1..n] == bytes;
    assert Pow256(n) == 256 * Pow256(n - 1);
    BigEndianRoundTrip(v, n);
  }

  lemma PowersOf256()
    ensures Pow256(0) == 1 && Pow256(1) == 0x100 && Pow256(2) == 0x1_0000 && Pow256(3) == 0x100_0000
    ensures Pow256(4) == 0x1_0000_0000 && Pow256(5) == 0x100_0000_0000 && Pow256(6) == 0x1_0000_0000_0000
    ensures Pow256(7) == 0x100_0000_0000_0000
  {
  }

  lemma {:induction false} FirstByteWeighsMost(s: seq<byte>)
    requires s != []
    ensures FromBigEndian(s) == s[0] * Pow256(|s| - 1) + FromBigEndian(s[1..])
  {
    if |s| == 1 {
      assert s[..0] == [] && s[1..] == [] && Pow256(0) == 1;
    } else {
      var t := s[..|s| - 1];
      FirstByteWeighsMost(t);
      assert t[1..] == s[1..][..|s| - 2] && t[0] == s[0];
      assert 256 * (s[0] * Pow256(|t| - 1)) == s[0] * (256 * Pow256(|t| - 1));
    }
  }

  lemma {:induction false} FromBigEndianBound(s: seq<byte>)
    requires s != []
    ensures FromBigEndian(s) < (s[0] + 1) * Pow256(|s| - 1)
  {
    if |s| == 1 {
      assert Pow256(0) == 1 && FromBigEndian(s[..0]) == 0;
    } else {
      var t := s[..|s| - 1];
      FromBigEndianBound(t);
      assert (s[0] + 1) * Pow256(|s| - 1) == 256 * ((s[0] + 1) * Pow256(|t| - 1));
    }
  }

  lemma LaterBytes(s: seq<byte>, n: nat)
    requires 0 < n <= |s|
    ensures FromBigEndian([s[0] % 64] + s[1..n]) == s[0] % 64 * Pow256(n - 1) + FromBigEndian(s[1..n])
  {
    var t := [s[0] % 64] + s[1..n];
    FirstByteWeighsMost(t);
    assert t[1..] == s[1..n];
  }

  lemma OneByte(s: seq<byte>, i: nat, n: nat)
    requires i < n <= |s|
    ensures FromBigEndian(s[i..n]) == s[i] * Pow256(n - 1 - i) + FromBigEndian(s[i + 1..n])
  {
    FirstByteWeighsMost(s[i..n]);
    assert s[i..n][1..] == s[i + 1..n];
  }

  /** The layout on the wire: which values of the first byte announce which length, and what each byte
      weighs. */
  lemma IntegerLayout(s: seq<byte>)
    ensures Decode(s).Some? <==> s != [] && |s| >= (if s[0] < 0x40 then 1 else if s[0] < 0x80 then 2
                                                    else if s[0] < 0xC0 then 4 else 8)
    ensures Decode(s).Some? ==>
              var (v, n) := Decode(s).value;
              && (s[0] < 0x40 ==> n == 1 && v == s[0])
              && (0x40 <= s[0] < 0x80 ==> n == 2 && v == (s[0] as nat - 0x40) * 0x100 + s[1])
              && (0x80 <= s[0] < 0xC0 ==> n == 4 && v == (s[0] - 0x80) * 0x100_0000 + FromBigEndian(s[1..4]))
              && (0xC0 <= s[0] ==> n == 8 && v == (s[0] - 0xC0) * 0x100_0000_0000_0000 + FromBigEndian(s[1..8]))
    ensures |s| >= 4 ==> FromBigEndian(s[1..4]) == s[1] as nat * 0x1_0000 + s[2] as nat * 0x100 + s[3]
    ensures |s| >= 8 ==>
              FromBigEndian(s[1..8]) ==
                s[1] as nat * 0x1_0000_0000_0000 + s[2] as nat * 0x100_0000_0000 + s[3] as nat * 0x1_0000_0000 +
                s[4] as nat * 0x100_0000 + s[5] as nat * 0x1_0000 + s[6] as nat * 0x100 + s[7]
  {
    hide FromBigEndian, Pow256;
    PowersOf256();
    if |s| >= 4 {
      ThreeBytes(s, 1);
    }
    if |s| >= 8 {
      OneByte(s, 1, 8);
      OneByte(s, 2, 8);
      OneByte(s, 3, 8);
      OneByte(s, 4, 8);
      assert s[5..8] == s[4..][1..4];
      ThreeBytes(s[4..], 1);
    }
    if Decode(s).Some? {
      LaterBytes(s, Decode(s).value.1);
      FewBytes(s);
    }
  }

  lemma FewBytes(s: seq<byte>)
    ensures |s| >= 1 ==> FromBigEndian(s[1..1]) == 0
    ensures |s| >= 2 ==> FromBigEndian(s[1..2]) == s[1]
  {
    if |s| >= 2 {
      OneByte(s, 1, 2);
    }
  }

  lemma ThreeBytes(s: seq<byte>, i: nat)
    requires i + 3 <= |s|
    ensures FromBigEndian(s[i..i + 3]) == s[i] as nat * 0x1_0000 + s[i + 1] as nat * 0x100 + s[i + 2]
  {
    hide Pow256;
    PowersOf256();
    OneByte(s, i, i + 3);
    OneByte(s, i + 1, i + 3);
    OneByte(s, i + 2, i + 3);
    assert s[i + 3..i + 3] == [];
  }

  /** The length is the least of the four that holds the value. */
  lemma SizeIsLeast(v: nat, n: nat)
    requires v <= EIGHT_BYTE_LIMIT && (n == 1 || n == 2 || n == 4 || n == 8)
    ensures Size(v) <= n <==> v < 64 * Pow256(n - 1)
  {
    PowersOf256();
  }

  /** Nothing larger than 62 bits can be read. */
  lemma DecodeBound(s: seq<byte>)
    ensures Decode(s).Some? ==> Decode(s).value.0 <= EIGHT_BYTE_LIMIT
  {
    if Decode(s).Some? {
      var n := Decode(s).value.1;
      var bytes := [s[0] % 64] + s[1..n];
      FromBigEndianBound(bytes);
      assert Pow256(0) == 1 && Pow256(1) == 0x100 && Pow256(2) == 0x1_0000 && Pow256(3) == 0x100_0000;
      assert Pow256(4) == 0x1_0000_0000 && Pow256(5) == 0x100_0000_0000 && Pow256(6) == 0x1_0000_0000_0000;
      assert Pow256(7) == 0x100_0000_0000_0000;
      assert (bytes[0] + 1) * Pow256(n - 1) <= 64 * Pow256(n - 1);
    }
  }
}

/** ACK frames (section 19.3 of RFC 9000): writing the largest intervals of an interval set that
    fit into the space left in a packet, and reading them back. */
module AckFrames {
  import opened Wrappers
  import opened Bytes
  import opened Varints
  import IS = IntervalSets
  import PN = PacketNumbers

  const ACK_FRAME_TYPE: nat := 0x02
  const MAX_MICROSECONDS: nat := 0x7FFF_FFFF_FFFF_FFFF
  const LONGEST_DELAY: nat := 1000 * 1000 * 1000

  datatype AckBlock = AckBlock(start: nat, end: nat)

  datatype AckFrame = AckFrame(largestAcked: nat, ackDelay: nat, blocks: seq<AckBlock>)

  /** Blocks in descending order with at least one missing packet between neighbours. */
  ghost predicate WellSpaced(bs: seq<AckBlock>) {
    && (forall i :: 0 <= i < |bs| ==> bs[i].start <= bs[i].end <= EIGHT_BYTE_LIMIT)
    && (forall i, j :: 0 <= i < j < |bs| ==> bs[j].end + 1 < bs[i].start)
  }

  /** The intervals of a set, largest first. */
  function Descending(c: seq<IS.Interval>): (bs: seq<AckBlock>)
    ensures |bs| == |c|
    ensures forall i :: 0 <= i < |c| ==>
              bs[i] == AckBlock(c[|c| - 1 - i].start as nat, c[|c| - 1 - i].end as nat)
  {
    seq(|c|, i requires 0 <= i < |c| => AckBlock(c[|c| - 1 - i].start as nat, c[|c| - 1 - i].end as nat))
  }

  lemma DescendingIsWellSpaced(c: seq<IS.Interval>)
    requires IS.Canonical(c) && (c != [] ==> c[|c| - 1].end as nat <= EIGHT_BYTE_LIMIT)
    ensures WellSpaced(Descending(c))
  {
    var bs := Descending(c);
    forall i | 0 <= i < |bs|
      ensures bs[i].start <= bs[i].end <= EIGHT_BYTE_LIMIT
    {
      assert c[|c| - 1 - i].Valid();
    }
  }

  lemma {:induction false} CountIsBounded(bs: seq<AckBlock>)
    requires WellSpaced(bs) && bs != []
    ensures |bs| <= EIGHT_BYTE_LIMIT + 1
    ensures bs[0].end + 1 >= |bs|
  {
    assert bs[0].start <= bs[0].end <= EIGHT_BYTE_LIMIT;
    if |bs| > 1 {
      CountIsBounded(bs[1..]);
      assert bs[1..][0] == bs[1];
    }
  }

  lemma TailIsWellSpaced(bs: seq<AckBlock>)
    requires WellSpaced(bs) && bs != []
    ensures WellSpaced(bs[1..]) && bs[0].start <= bs[0].end <= EIGHT_BYTE_LIMIT
    ensures |bs| > 1 ==> bs[1..][0].end + 1 < bs[0].start
  {
  }

  /** A block after the first: the gap to its predecessor and its length. */
  function EncodeBlock(current: nat, b: AckBlock): seq<byte>
    requires b.start <= b.end && b.end + 1 < current <= EIGHT_BYTE_LIMIT
  {
    Encode(current - b.end - 2) + Encode(b.end - b.start)
  }

  function EncodeBlocks(current: nat, bs: seq<AckBlock>): seq<byte>
    requires WellSpaced(bs) && (bs != [] ==> bs[0].end + 1 < current <= EIGHT_BYTE_LIMIT)
  {
    if bs == [] then []
    else EncodeBlock(current, bs[0]) + EncodeBlocks(bs[0].start, bs[1..])
  }

  function EncodeFrame(ackDelay: nat, bs: seq<AckBlock>): seq<byte>
    requires WellSpaced(bs) && bs != [] && ackDelay <= EIGHT_BYTE_LIMIT && |bs| <= EIGHT_BYTE_LIMIT + 1
  {
    Encode(ACK_FRAME_TYPE) + Encode(bs[0].end) + Encode(ackDelay) + Encode(|bs| - 1) +
    Encode(bs[0].end - bs[0].start) + EncodeBlocks(bs[0].start, bs[1..])
  }

  /** Reads one integer at the cursor: its value and what lies after it. */
  function Next(s: seq<byte>): (r: Option<(nat, seq<byte>)>)
    ensures r.Some? ==> |r.value.1| < |s|
  {
    match Decode(s)
    case None => None
    case Some((v, n)) => Some((v, s[n..]))
  }

  lemma NextRoundTrip(v: nat, rest: seq<byte>)
    requires v <= EIGHT_BYTE_LIMIT
    ensures Next(Encode(v) + rest) == Some((v, rest))
  {
    RoundTrip(v, rest);
  }

  /** Reads one further block that ends below `current`. */
  function NextBlock(s: seq<byte>, current: nat): (r: Option<(AckBlock, seq<byte>)>)
    ensures r.Some? ==> r.value.0.start <= r.value.0.end && r.value.0.end + 1 < current
  {
    match Next(s)
    case None => None
    case Some((gap, s1)) =>
      match Next(s1)
      case None => None
      case Some((len, s2)) =>
        if current < gap + 2 || current - gap - 2 < len then None
        else Some((AckBlock(current - gap - 2 - len, current - gap - 2), s2))
  }

  lemma NextBlockRoundTrip(current: nat, b: AckBlock, rest: seq<byte>)
    requires b.start <= b.end && b.end + 1 < current <= EIGHT_BYTE_LIMIT
    ensures NextBlock(EncodeBlock(current, b) + rest, current) == Some((b, rest))
  {
    hide Encode, Next;
    var gap, len := Encode(current - b.end - 2), Encode(b.end - b.start);
    assert EncodeBlock(current, b) + rest == gap + (len + rest);
    NextRoundTrip(current - b.end - 2, len + rest);
    NextRoundTrip(b.end - b.start, rest);
  }

  function DecodeBlocks(s: seq<byte>, current: nat, count: nat): (r: Option<(seq<AckBlock>, seq<byte>)>)
    ensures r.Some? ==> |r.value.0| == count
    decreases count
  {
    if count == 0 then Some(([], s))
    else
      match NextBlock(s, current)
      case None => None
      case Some((b, s1)) =>
        match DecodeBlocks(s1, b.start, count - 1)
        case None => None
        case Some((bs, s2)) => Some(([b] + bs, s2))
  }

  lemma {:induction false} BlocksRoundTrip(current: nat, bs: seq<AckBlock>, rest: seq<byte>)
    requires WellSpaced(bs) && (bs != [] ==> bs[0].end + 1 < current <= EIGHT_BYTE_LIMIT)
    ensures DecodeBlocks(EncodeBlocks(current, bs) + rest, current, |bs|) == Some((bs, rest))
  {
    hide EncodeBlock, NextBlock, WellSpaced;
    if bs == [] {
      assert EncodeBlocks(current, bs) + rest == rest;
    } else {
      TailIsWellSpaced(bs);
      var tail := EncodeBlocks(bs[0].start, bs[1..]);
      assert EncodeBlocks(current, bs) + rest == EncodeBlock(current, bs[0]) + (tail + rest);
      NextBlockRoundTrip(current, bs[0], tail + rest);
      BlocksRoundTrip(bs[0].start, bs[1..], rest);
      assert [bs[0]] + bs[1..] == bs;
    }
  }

  /** The number that stands for a delay on the wire. */
  function DelayField(delay: nat, exponent: nat): (field: nat)
    ensures field * PN.Pow2(exponent) <= delay < field * PN.Pow2(exponent) + PN.Pow2(exponent)
  {
    Quotient(delay, PN.Pow2(exponent))
  }

  function Quotient(a: nat, b: nat): (q: nat)
    requires b > 0
    ensures q * b <= a < q * b + b
  {
    a / b
  }

  /** The delay a number on the wire stands for: refused if it overflows, and dropped if it is longer
      than a thousand seconds. */
  function FieldDelay(field: nat, exponent: nat): Option<nat> {
    var delay := field * PN.Pow2(exponent);
    if delay > MAX_MICROSECONDS then None else Some(if delay > LONGEST_DELAY then 0 else delay)
  }

  /** A delay loses less than one unit, and is never refused. */
  lemma DelayRoundTrip(delay: nat, exponent: nat)
    requires delay <= MAX_MICROSECONDS
    ensures FieldDelay(DelayField(delay, exponent), exponent).Some?
    ensures var received := FieldDelay(DelayField(delay, exponent), exponent).value;
            delay <= LONGEST_DELAY ==> received <= delay < received + PN.Pow2(exponent)
  {
    hide PN.Pow2, Quotient;
    var unit := PN.Pow2(exponent);
    assert Quotient(delay, unit) * unit <= delay < Quotient(delay, unit) * unit + unit;
  }

  /** `decodeAckFrame`, after the frame type: the frame and what lies after it. */
  function DecodeFrame(s: seq<byte>, exponent: nat): (r: Option<(AckFrame, seq<byte>)>) {
    match Next(s)
    case None => None
    case Some((largest, s1)) =>
      match Next(s1)
      case None => None
      case Some((ackDelay, s2)) =>
        match Next(s2)
        case None => None
        case Some((count, s3)) =>
          match Next(s3)
          case None => None
          case Some((firstLen, s4)) =>
            if largest < firstLen || FieldDelay(ackDelay, exponent) == None then None
            else
              match DecodeBlocks(s4, largest - firstLen, count)
              case None => None
              case Some((bs, s5)) =>
                Some((AckFrame(largest, FieldDelay(ackDelay, exponent).value,
                               [AckBlock(largest - firstLen, largest)] + bs), s5))
  }

  /** What is written is what is read, whatever follows in the packet. */
  lemma FrameRoundTrip(delay: nat, exponent: nat, bs: seq<AckBlock>, rest: seq<byte>)
    requires WellSpaced(bs) && bs != [] && |bs| <= EIGHT_BYTE_LIMIT + 1
    requires delay <= MAX_MICROSECONDS && DelayField(delay, exponent) <= EIGHT_BYTE_LIMIT
    ensures FieldDelay(DelayField(delay, exponent), exponent).Some?
    ensures var afterType := Next(EncodeFrame(DelayField(delay, exponent), bs) + rest);
            && afterType.Some? && afterType.value.0 == ACK_FRAME_TYPE
            && DecodeFrame(afterType.value.1, exponent)
               == Some((AckFrame(bs[0].end, FieldDelay(DelayField(delay, exponent), exponent).value, bs), rest))
  {
    hide DelayField, FieldDelay;
    DelayRoundTrip(delay, exponent);
    FieldRoundTrip(DelayField(delay, exponent), exponent, bs, rest);
  }

  lemma FieldRoundTrip(ackDelay: nat, exponent: nat, bs: seq<AckBlock>, rest: seq<byte>)
    requires WellSpaced(bs) && bs != [] && ackDelay <= EIGHT_BYTE_LIMIT && |bs| <= EIGHT_BYTE_LIMIT + 1
    requires FieldDelay(ackDelay, exponent).Some?
    ensures var afterType := Next(EncodeFrame(ackDelay, bs) + rest);
            && afterType.Some? && afterType.value.0 == ACK_FRAME_TYPE
            && DecodeFrame(afterType.value.1, exponent)
               == Some((AckFrame(bs[0].end, FieldDelay(ackDelay, exponent).value, bs), rest))
  {
    hide PN.Pow2, Next, DecodeFrame, EncodeFrame, FieldsOnWire, WellSpaced;
    WrittenFrameOnWire(ackDelay, bs, rest);
    DecodedFrameOnWire(Next(EncodeFrame(ackDelay, bs) + rest).value.1, exponent,
                       AckFrame(bs[0].end, FieldDelay(ackDelay, exponent).value, bs), rest);
  }

  /** Reads two integers in turn. */
  function NextTwo(s: seq<byte>): Option<(nat, nat, seq<byte>)> {
    match Next(s)
    case None => None
    case Some((first, s1)) =>
      match Next(s1)
      case None => None
      case Some((second, s2)) => Some((first, second, s2))
  }

  /** Reads `n` pairs of integers in turn. */
  function Pairs(s: seq<byte>, n: nat): (r: Option<(seq<(nat, nat)>, seq<byte>)>)
    ensures r.Some? ==> |r.value.0| == n
    decreases n
  {
    if n == 0 then Some(([], s))
    else
      match NextTwo(s)
      case None => None
      case Some((first, second, s1)) =>
        match Pairs(s1, n - 1)
        case None => None
        case Some((pairs, s2)) => Some(([(first, second)] + pairs, s2))
  }

  /** The first integer of a pair counts the packets missing between a block and its predecessor, less
      one; the second the packets in the block, less one. */
  ghost predicate DescribeBlocks(pairs: seq<(nat, nat)>, current: nat, bs: seq<AckBlock>) {
    && |pairs| == |bs|
    && (bs != [] ==> bs[0].end + pairs[0].0 + 2 == current)
    && (forall i :: 0 < i < |bs| ==> bs[i].end + pairs[i].0 + 2 == bs[i - 1].start)
    && (forall i :: 0 <= i < |bs| ==> bs[i].start + pairs[i].1 == bs[i].end)
  }

  ghost predicate BlocksOnWire(s: seq<byte>, current: nat, bs: seq<AckBlock>, rest: seq<byte>) {
    var r := Pairs(s, |bs|);
    r.Some? && r.value.1 == rest && DescribeBlocks(r.value.0, current, bs)
  }

  lemma DescribeHead(pair: (nat, nat), pairs: seq<(nat, nat)>, current: nat, bs: seq<AckBlock>)
    requires bs != []
    ensures DescribeBlocks([pair] + pairs, current, bs) <==>
              && bs[0].end + pair.0 + 2 == current && bs[0].start + pair.1 == bs[0].end
              && DescribeBlocks(pairs, bs[0].start, bs[1..])
  {
    var all := [pair] + pairs;
    assert all[0] == pair;
    if DescribeBlocks(all, current, bs) {
      forall i | 0 <= i < |bs[1..]|
        ensures bs[1..][i].end + pairs[i].0 + 2 == (if i == 0 then bs[0].start else bs[1..][i - 1].start)
        ensures bs[1..][i].start + pairs[i].1 == bs[1..][i].end
      {
        assert bs[i + 1] == bs[1..][i] && all[i + 1] == pairs[i];
        assert bs[i + 1].end + all[i + 1].0 + 2 == bs[i].start;
      }
      assert bs[0].end + all[0].0 + 2 == current;
      assert DescribeBlocks(pairs, bs[0].start, bs[1..]);
    }
    if bs[0].end + pair.0 + 2 == current && bs[0].start + pair.1 == bs[0].end
       && DescribeBlocks(pairs, bs[0].start, bs[1..]) {
      forall i | 0 < i < |bs|
        ensures bs[i].end + all[i].0 + 2 == bs[i - 1].start && bs[i].start + all[i].1 == bs[i].end
      {
        assert bs[i] == bs[1..][i - 1] && all[i] == pairs[i - 1];
        assert i > 1 ==> bs[i - 1] == bs[1..][i - 2];
      }
      assert DescribeBlocks(all, current, bs);
    }
  }

  lemma {:induction false} DecodedBlocksOnWire(s: seq<byte>, current: nat, bs: seq<AckBlock>, rest: seq<byte>)
    ensures DecodeBlocks(s, current, |bs|) == Some((bs, rest)) <==> BlocksOnWire(s, current, bs, rest)
    decreases |bs|
  {
    hide Next, DescribeBlocks;
    if bs == [] {
      assert DescribeBlocks([], current, bs) by { NothingToDescribe(current); }
    } else {
      var two := NextTwo(s);
      if two.Some? {
        var (gap, len, s1) := two.value;
        DecodedBlocksOnWire(s1, bs[0].start, bs[1..], rest);
        var tail := Pairs(s1, |bs[1..]|);
        if tail.Some? {
          DescribeHead((gap, len), tail.value.0, current, bs);
        }
        assert bs == [bs[0]] + bs[1..];
      }
    }
  }

  lemma NothingToDescribe(current: nat)
    ensures DescribeBlocks([], current, [])
  {
  }

  /** An ACK frame after its type, field by field in the order of section 19.3 of RFC 9000: the largest
      packet acknowledged, the delay, the number of further blocks, the packets in the first block, less
      one, and a pair for each further block. */
  ghost predicate FieldsOnWire(s: seq<byte>, delayField: nat, bs: seq<AckBlock>, rest: seq<byte>)
    requires bs != []
  {
    var head := NextTwo(s);
    && head.Some? && head.value.0 == bs[0].end && head.value.1 == delayField
    && var counts := NextTwo(head.value.2);
       && counts.Some? && counts.value.0 == |bs| - 1 && bs[0].start + counts.value.1 == bs[0].end
       && BlocksOnWire(counts.value.2, bs[0].start, bs[1..], rest)
  }

  /** For any bytes whatever, the decoder accepts exactly what is laid out that way, with those blocks. */
  lemma DecodedFrameOnWire(s: seq<byte>, exponent: nat, f: AckFrame, rest: seq<byte>)
    ensures DecodeFrame(s, exponent) == Some((f, rest)) <==> FrameOnWire(s, exponent, f, rest)
  {
    hide Next, PN.Pow2, DecodeBlocks, BlocksOnWire;
    if f.blocks != [] && NextTwo(s).Some? && NextTwo(NextTwo(s).value.2).Some? {
      DecodedBlocksOnWire(NextTwo(NextTwo(s).value.2).value.2, f.blocks[0].start, f.blocks[1..], rest);
      assert f.blocks == [f.blocks[0]] + f.blocks[1..];
      assert DecodeFrame(s, exponent) == Some((f, rest)) ==>
               FieldsOnWire(s, NextTwo(s).value.1, f.blocks, rest);
    }
  }

  ghost predicate FrameOnWire(s: seq<byte>, exponent: nat, f: AckFrame, rest: seq<byte>) {
    && f.blocks != [] && f.largestAcked == f.blocks[0].end
    && exists delayField: nat ::
         && FieldsOnWire(s, delayField, f.blocks, rest)
         && var delay := delayField * PN.Pow2(exponent);
            delay < 0x8000_0000_0000_0000 && f.ackDelay == if delay > 1_000_000_000 then 0 else delay
  }

  /** What is written is laid out that way, whatever follows in the packet. */
  lemma WrittenFrameOnWire(ackDelay: nat, bs: seq<AckBlock>, rest: seq<byte>)
    requires WellSpaced(bs) && bs != [] && ackDelay <= EIGHT_BYTE_LIMIT && |bs| <= EIGHT_BYTE_LIMIT + 1
    ensures var afterType := Next(EncodeFrame(ackDelay, bs) + rest);
            afterType.Some? && afterType.value.0 == 0x02 && FieldsOnWire(afterType.value.1, ackDelay, bs, rest)
  {
    hide Encode, Next, DecodeBlocks, EncodeBlocks, WellSpaced, BlocksOnWire;
    TailIsWellSpaced(bs);
    var r4 := EncodeBlocks(bs[0].start, bs[1..]) + rest;
    var r3 := Encode(bs[0].end - bs[0].start) + r4;
    var r2 := Encode(|bs| - 1) + r3;
    var r1 := Encode(ackDelay) + r2;
    var r0 := Encode(bs[0].end) + r1;
    assert EncodeFrame(ackDelay, bs) + rest == Encode(ACK_FRAME_TYPE) + r0;
    NextRoundTrip(ACK_FRAME_TYPE, r0);
    NextRoundTrip(bs[0].end, r1);
    NextRoundTrip(ackDelay, r2);
    NextRoundTrip(|bs| - 1, r3);
    NextRoundTrip(bs[0].end - bs[0].start, r4);
    BlocksRoundTrip(bs[0].start, bs[1..], rest);
    DecodedBlocksOnWire(r4, bs[0].start, bs[1..], rest);
  }

  lemma WellSpacedCons(b: AckBlock, bs: seq<AckBlock>)
    requires WellSpaced(bs) && b.start <= b.end <= EIGHT_BYTE_LIMIT
    requires forall i :: 0 <= i < |bs| ==> bs[i].end + 1 < b.start
    ensures WellSpaced([b] + bs)
  {
  }

  /** Whatever the bytes, the blocks of an accepted frame are disjoint and descending. */
  lemma {:induction false} DecodedBlocksAreSpaced(s: seq<byte>, current: nat, count: nat)
    requires current <= EIGHT_BYTE_LIMIT
    ensures var r := DecodeBlocks(s, current, count);
            r.Some? ==> WellSpaced(r.value.0)
                        && forall i :: 0 <= i < count ==> r.value.0[i].end + 1 < current
    decreases count
  {
    hide NextBlock;
    var r := DecodeBlocks(s, current, count);
    if count > 0 && r.Some? {
      hide WellSpaced;
      var (b, s1) := NextBlock(s, current).value;
      DecodedBlocksAreSpaced(s1, b.start, count - 1);
      WellSpacedCons(b, DecodeBlocks(s1, b.start, count - 1).value.0);
      assert forall i :: 0 < i < count ==> r.value.0[i] == DecodeBlocks(s1, b.start, count - 1).value.0[i - 1];
    }
  }

  lemma NextBound(s: seq<byte>)
    ensures Next(s).Some? ==> Next(s).value.0 <= EIGHT_BYTE_LIMIT
  {
    DecodeBound(s);
  }

  lemma DecodedFrameIsSpaced(s: seq<byte>, exponent: nat)
    ensures DecodeFrame(s, exponent).Some? ==>
              var f := DecodeFrame(s, exponent).value.0;
              WellSpaced(f.blocks) && f.blocks != [] && f.blocks[0].end == f.largestAcked
  {
    hide Next, WellSpaced, DecodeBlocks;
    NextBound(s);
    if DecodeFrame(s, exponent).Some? {
      var (largest, s1) := Next(s).value;
      var (_, s2) := Next(s1).value;
      var (count, s3) := Next(s2).value;
      var (firstLen, s4) := Next(s3).value;
      DecodedBlocksAreSpaced(s4, largest - firstLen, count);
      WellSpacedCons(AckBlock(largest - firstLen, largest), DecodeBlocks(s4, largest - firstLen, count).value.0);
    }
  }

  /** `decodeAckFrame`: the loop reads the announced number of further blocks. */
  method ReadAckFrame(s: seq<byte>, exponent: nat) returns (r: Option<(AckFrame, seq<byte>)>)
    ensures r == DecodeFrame(s, exponent)
    ensures forall f, rest :: r == Some((f, rest)) <==> FrameOnWire(s, exponent, f, rest)
  {
    r := DecodeLoop(s, exponent);
    forall f, rest ensures r == Some((f, rest)) <==> FrameOnWire(s, exponent, f, rest) {
      DecodedFrameOnWire(s, exponent, f, rest);
    }
  }

  method DecodeLoop(s: seq<byte>, exponent: nat) returns (r: Option<(AckFrame, seq<byte>)>)
    ensures r == DecodeFrame(s, exponent)
  {
    hide Next, NextBlock, FieldDelay;
    var largestAcked := Next(s);
    if largestAcked == None { return None; }
    var ackDelay := Next(largestAcked.value.1);
    if ackDelay == None { return None; }
    var count := Next(ackDelay.value.1);
    if count == None { return None; }
    var firstLen := Next(count.value.1);
    if firstLen == None { return None; }
    if largestAcked.value.0 < firstLen.value.0 { return None; }
    var current: nat := largestAcked.value.0 - firstLen.value.0;
    var delay := FieldDelay(ackDelay.value.0, exponent);
    if delay == None { return None; }
    var first, further := AckBlock(current, largestAcked.value.0), [];
    var cursor, numBlocks := firstLen.value.1, 0;
    ghost var all := DecodeBlocks(cursor, current, count.value.0);
    while numBlocks < count.value.0
      invariant 0 <= numBlocks <= count.value.0
      invariant var rest := DecodeBlocks(cursor, current, count.value.0 - numBlocks);
                && (all.Some? <==> rest.Some?)
                && (all.Some? ==> further + rest.value.0 == all.value.0 && rest.value.1 == all.value.1)
    {
      var next := NextBlock(cursor, current);
      if next == None { return None; }
      further := further + [next.value.0];
      current, cursor := next.value.0.start, next.value.1;
      numBlocks := numBlocks + 1;
    }
    assert further + [] == further && all == Some((further, cursor));
    r := Some((AckFrame(largestAcked.value.0, delay.value, [first] + further), cursor));
  }

  lemma PrefixIsWellSpaced(bs: seq<AckBlock>, k: nat)
    requires WellSpaced(bs) && 0 < k <= |bs|
    ensures WellSpaced(bs[..k]) && WellSpaced(bs[1..k])
    ensures k < |bs| ==> bs[k].start <= bs[k].end && bs[k].end + 1 < bs[k - 1].start <= EIGHT_BYTE_LIMIT
    ensures k > 1 ==> bs[1].end + 1 < bs[0].start <= EIGHT_BYTE_LIMIT
  {
    assert bs[k - 1].start <= bs[k - 1].end <= EIGHT_BYTE_LIMIT;
    assert bs[0].start <= bs[0].end <= EIGHT_BYTE_LIMIT;
  }

  /** The bytes that blocks `1..k` take. */
  ghost function FurtherSize(bs: seq<AckBlock>, k: nat): nat
    requires WellSpaced(bs) && 0 < k <= |bs|
  {
    PrefixIsWellSpaced(bs, k);
    |EncodeBlocks(bs[0].start, bs[1..k])|
  }

  lemma {:induction false} EncodeBlocksAppend(current: nat, bs: seq<AckBlock>, b: AckBlock)
    requires WellSpaced(bs) && WellSpaced(bs + [b])
    requires (bs + [b])[0].end + 1 < current <= EIGHT_BYTE_LIMIT
    ensures var last := if bs == [] then current else bs[|bs| - 1].start;
            && b.start <= b.end && b.end + 1 < last <= EIGHT_BYTE_LIMIT
            && EncodeBlocks(current, bs + [b]) == EncodeBlocks(current, bs) + EncodeBlock(last, b)
  {
    hide EncodeBlock;
    assert (bs + [b])[|bs|] == b;
    if bs == [] {
      assert EncodeBlocks(current, [b]) == EncodeBlock(current, b) + EncodeBlocks(b.start, []);
    } else {
      TailIsWellSpaced(bs);
      assert (bs + [b])[1..] == bs[1..] + [b];
      assert (bs + [b])[|bs| - 1] == bs[|bs| - 1];
      EncodeBlocksAppend(bs[0].start, bs[1..], b);
    }
  }

  lemma FurtherSizeStep(bs: seq<AckBlock>, k: nat)
    requires WellSpaced(bs) && 0 < k < |bs|
    ensures && bs[k].start <= bs[k].end && bs[k].end + 1 < bs[k - 1].start <= EIGHT_BYTE_LIMIT
            && FurtherSize(bs, k + 1) == FurtherSize(bs, k) + Size(bs[k - 1].start - bs[k].end - 2)
                                         + Size(bs[k].end - bs[k].start)
  {
    hide WellSpaced, Size, EncodeBlocks;
    PrefixIsWellSpaced(bs, k);
    PrefixIsWellSpaced(bs, k + 1);
    assert bs[1..k] + [bs[k]] == bs[1..k + 1];
    assert k > 1 ==> bs[1..k][k - 2] == bs[k - 1];
    EncodeBlocksAppend(bs[0].start, bs[1..k], bs[k]);
  }

  lemma SizeBasics(bs: seq<AckBlock>)
    requires WellSpaced(bs) && bs != []
    ensures Size(0) == 1 && FurtherSize(bs, 1) == 0
  {
    assert bs[1..1] == [];
  }

  /** `fillFrameWithAckBlocks`: how many blocks, the first included, are written when
      `bytesLimit` bytes are left for the others and for a longer block count. */
  method FillFrame(bs: seq<AckBlock>, bytesLimit: nat) returns (k: nat)
    requires WellSpaced(bs) && 0 < |bs| <= EIGHT_BYTE_LIMIT + 1
    ensures 0 < k <= |bs|
    ensures FurtherSize(bs, k) + Size(k - 1) - 1 <= bytesLimit
    ensures k < |bs| ==> FurtherSize(bs, k + 1) + Size(k) - 1 > bytesLimit
  {
    hide Size, FurtherSize;
    SizeBasics(bs);
    k := 1;
    var left := bytesLimit;
    while k < |bs|
      invariant 0 < k <= |bs|
      invariant 0 <= left == bytesLimit - (FurtherSize(bs, k) + Size(k - 1) - 1)
    {
      FurtherSizeStep(bs, k);
      var additional := Size(bs[k - 1].start - bs[k].end - 2) + Size(bs[k].end - bs[k].start) + Size(k) - Size(k - 1);
      if left < additional {
        break;
      }
      left := left - additional;
      k := k + 1;
    }
  }

  ghost function FrameSize(ackDelay: nat, bs: seq<AckBlock>, k: nat): (n: nat)
    requires WellSpaced(bs) && 0 < k <= |bs| <= EIGHT_BYTE_LIMIT + 1 && ackDelay <= EIGHT_BYTE_LIMIT
    ensures bs[0].start <= bs[0].end <= EIGHT_BYTE_LIMIT
    ensures n == Size(ACK_FRAME_TYPE) + Size(bs[0].end) + Size(ackDelay) + Size(k - 1) +
                 Size(bs[0].end - bs[0].start) + FurtherSize(bs, k)
  {
    PrefixIsWellSpaced(bs, k);
    TailIsWellSpaced(bs);
    assert bs[..k][1..] == bs[1..k] && bs[..k][0] == bs[0];
    |EncodeFrame(ackDelay, bs[..k])|
  }

  lemma {:induction false} FrameSizeGrows(ackDelay: nat, bs: seq<AckBlock>, k: nat, m: nat)
    requires WellSpaced(bs) && 0 < k <= m <= |bs| <= EIGHT_BYTE_LIMIT + 1 && ackDelay <= EIGHT_BYTE_LIMIT
    ensures FrameSize(ackDelay, bs, k) <= FrameSize(ackDelay, bs, m)
    decreases m
  {
    hide FrameSize, FurtherSize;
    if k < m {
      FrameSizeGrows(ackDelay, bs, k, m - 1);
      FurtherSizeStep(bs, m - 1);
    }
  }

  /** Whatever follows, a frame of this type with these fields can be read. */
  ghost predicate Announces(bytes: seq<byte>, delayField: nat, bs: seq<AckBlock>) {
    && bs != []
    && forall rest ::
         && Next(bytes + rest).Some? && Next(bytes + rest).value.0 == 0x02
         && FieldsOnWire(Next(bytes + rest).value.1, delayField, bs, rest)
  }

  lemma WrittenIsAnnounced(ackDelay: nat, bs: seq<AckBlock>)
    requires WellSpaced(bs) && bs != [] && ackDelay <= EIGHT_BYTE_LIMIT && |bs| <= EIGHT_BYTE_LIMIT + 1
    ensures Announces(EncodeFrame(ackDelay, bs), ackDelay, bs)
  {
    hide Next, EncodeFrame, FieldsOnWire, WellSpaced;
    forall rest
      ensures var afterType := Next(EncodeFrame(ackDelay, bs) + rest);
              afterType.Some? && afterType.value.0 == 0x02 && FieldsOnWire(afterType.value.1, ackDelay, bs, rest)
    {
      WrittenFrameOnWire(ackDelay, bs, rest);
    }
  }

  datatype WriteResult =
    | NothingToAck
    | ValueTooLarge
    | NoSpace
    | Written(bytes: seq<byte>, blocks: seq<AckBlock>)

  /** `writeAckFrame` for an interval set and a packet with `space` bytes left: writes the
      largest intervals, as many as fit. */
  method WriteAckFrame(c: seq<IS.Interval>, delay: nat, exponent: nat, space: nat) returns (r: WriteResult)
    requires IS.Canonical(c)
    ensures r.NothingToAck? <==> c == []
    ensures r.ValueTooLarge? <==>
      c != [] && (c[|c| - 1].end as nat > EIGHT_BYTE_LIMIT || DelayField(delay, exponent) > EIGHT_BYTE_LIMIT)
    ensures !r.NothingToAck? && !r.ValueTooLarge? ==>
              var bs, ackDelay := Descending(c), DelayField(delay, exponent);
              && WellSpaced(bs) && |bs| <= EIGHT_BYTE_LIMIT + 1
              && ackDelay * PN.Pow2(exponent) <= delay < ackDelay * PN.Pow2(exponent) + PN.Pow2(exponent)
              && (r.NoSpace? <==> FrameSize(ackDelay, bs, 1) > space)
              && (r.Written? ==>
                    var k := |r.blocks|;
                    && 0 < k <= |bs| && r.blocks == bs[..k] && WellSpaced(r.blocks)
                    && r.bytes == EncodeFrame(ackDelay, r.blocks) && Announces(r.bytes, ackDelay, r.blocks)
                    && |r.bytes| == FrameSize(ackDelay, bs, k) <= space
                    && (forall m :: k < m <= |bs| ==> FrameSize(ackDelay, bs, m) > space))
  {
    hide FurtherSize, IS.Canonical, Size, Encode, EncodeBlocks, DelayField, Announces;
    if c == [] {
      return NothingToAck;
    }
    var ackDelay := DelayField(delay, exponent);
    if c[|c| - 1].end as nat > EIGHT_BYTE_LIMIT || ackDelay > EIGHT_BYTE_LIMIT {
      return ValueTooLarge;
    }
    var bs := Descending(c);
    DescendingIsWellSpaced(c);
    CountIsBounded(bs);
    SizeBasics(bs);
    TailIsWellSpaced(bs);
    var header := Size(ACK_FRAME_TYPE) + Size(bs[0].end) + Size(ackDelay) + Size(0) + Size(bs[0].end - bs[0].start);
    if space < header {
      return NoSpace;
    }
    var k := FillFrame(bs, space - header);
    forall m | k < m <= |bs|
      ensures FrameSize(ackDelay, bs, m) > space
    {
      FrameSizeGrows(ackDelay, bs, k + 1, m);
    }
    FrameSizeGrows(ackDelay, bs, 1, k);
    PrefixIsWellSpaced(bs, k);
    r := Written(EncodeFrame(ackDelay, bs[..k]), bs[..k]);
    WrittenIsAnnounced(ackDelay, bs[..k]);
  }

  ghost predicate Reports(bs: seq<AckBlock>, x: int) {
    exists i :: 0 <= i < |bs| && bs[i].start <= x <= bs[i].end
  }

  /** The peer that reads a frame with the first `k` blocks learns of exactly the packets in
      the `k` largest intervals: never of a packet that is not in the set, and of every
      packet of the set when all blocks were written. */
  lemma PeerLearnsLargestIntervals(c: seq<IS.Interval>, delay: nat, exponent: nat, k: nat, rest: seq<byte>)
    requires IS.Canonical(c) && 0 < k <= |c|
    requires delay <= MAX_MICROSECONDS && DelayField(delay, exponent) <= EIGHT_BYTE_LIMIT
    requires c[|c| - 1].end as nat <= EIGHT_BYTE_LIMIT
    ensures WellSpaced(Descending(c)[..k]) && k <= EIGHT_BYTE_LIMIT + 1
    ensures var afterType := Next(EncodeFrame(DelayField(delay, exponent), Descending(c)[..k]) + rest);
            && afterType.Some? && DecodeFrame(afterType.value.1, exponent).Some?
            && var frame := DecodeFrame(afterType.value.1, exponent).value.0;
               && frame.largestAcked == c[|c| - 1].end as nat
               && (delay <= LONGEST_DELAY ==> frame.ackDelay <= delay < frame.ackDelay + PN.Pow2(exponent))
               && (forall x :: Reports(frame.blocks, x) <==> x in IS.Points(c[|c| - k..]))
               && (forall x :: Reports(frame.blocks, x) ==> x in IS.Points(c))
               && (k == |c| ==> forall x :: Reports(frame.blocks, x) <==> x in IS.Points(c))
  {
    hide Next, DecodeFrame, EncodeFrame, DelayField, FieldDelay;
    DelayRoundTrip(delay, exponent);
    DescendingIsWellSpaced(c);
    CountIsBounded(Descending(c));
    PrefixIsWellSpaced(Descending(c), k);
    var bs := Descending(c)[..k];
    FrameRoundTrip(delay, exponent, bs, rest);
    forall x
      ensures Reports(bs, x) <==> IS.Covers(c[|c| - k..], x)
      ensures IS.Covers(c[|c| - k..], x) ==> IS.Covers(c, x)
    {
      ReportedIsCovered(c, k, x);
    }
    assert k == |c| ==> c[|c| - k..] == c;
  }

  lemma ReportedIsCovered(c: seq<IS.Interval>, k: nat, x: int)
    requires k <= |c|
    ensures Reports(Descending(c)[..k], x) <==> IS.Covers(c[|c| - k..], x)
    ensures IS.Covers(c[|c| - k..], x) ==> IS.Covers(c, x)
  {
    var bs, d := Descending(c)[..k], c[|c| - k..];
    if Reports(bs, x) {
      var i :| 0 <= i < k && bs[i].start <= x <= bs[i].end;
      assert d[k - 1 - i] == c[|c| - 1 - i] && d[k - 1 - i].Has(x);
    }
    if IS.Covers(d, x) {
      var i :| 0 <= i < k && d[i].Has(x);
      assert d[i] == c[|c| - k + i] && c[|c| - k + i].Has(x);
      assert bs[k - 1 - i].start <= x <= bs[k - 1 - i].end;
    }
  }
}
