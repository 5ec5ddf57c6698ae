/** Truncated packet numbers (section 17.1 and appendix A of RFC 9000): the sender drops the high
    bytes of a packet number, the receiver restores them from the number it expects next. */
module PacketNumbers {
  import opened Wrappers

  const WORD: nat := 0x1_0000_0000_0000_0000
  const PACKET_NUM_LIMIT: nat := 0x4000_0000_0000_0000

  function Pow2(n: nat): (p: nat)
    ensures p > 0
  {
    if n == 0 then 1 else 2 * Pow2(n - 1)
  }

  lemma {:induction false} Pow2Monotone(m: nat, n: nat)
    requires m <= n
    ensures Pow2(m) <= Pow2(n)
  {
    if m < n { Pow2Monotone(m, n - 1); }
  }

  lemma Pow2Values()
    ensures Pow2(8) == 0x100 && Pow2(16) == 0x1_0000 && Pow2(24) == 0x100_0000 && Pow2(32) == 0x1_0000_0000
  {
    assert Pow2(0) == 1 && Pow2(4) == 0x10 && Pow2(8) == 0x100;
    assert Pow2(12) == 0x1000 && Pow2(16) == 0x1_0000 && Pow2(20) == 0x10_0000;
    assert Pow2(24) == 0x100_0000 && Pow2(28) == 0x1000_0000;
  }

  /** `findLastSet`: the number of bits up to and including the highest one set. */
  function BitLength(x: nat): nat {
    if x == 0 then 0 else 1 + BitLength(x / 2)
  }

  lemma {:induction false} BitLengthIsTight(x: nat)
    ensures x < Pow2(BitLength(x))
    ensures x > 0 ==> Pow2(BitLength(x) - 1) <= x
  {
    if x > 0 { BitLengthIsTight(x / 2); }
  }

  function LengthInBytes(twiceDistance: nat): (n: nat)
    ensures n > 0
  {
    var bits := BitLength(twiceDistance);
    if bits == 0 then 1 else (bits + 7) / 8
  }

  /** The length is the least number of bytes that can hold twice the distance. */
  lemma LengthIsLeast(x: nat)
    ensures x < Pow2(8 * LengthInBytes(x))
    ensures LengthInBytes(x) > 1 ==> Pow2(8 * (LengthInBytes(x) - 1)) <= x
  {
    var bits := BitLength(x);
    BitLengthIsTight(x);
    if x > 0 {
      Pow2Monotone(bits, 8 * LengthInBytes(x));
      if LengthInBytes(x) > 1 {
        Pow2Monotone(8 * (LengthInBytes(x) - 1), bits - 1);
      }
    } else {
      assert Pow2(0) == 1 && Pow2(8) >= Pow2(0) by { Pow2Monotone(0, 8); }
    }
  }

  datatype Encoded = Encoded(result: nat, length: nat)

  /** `encodePacketNumber`, in 64-bit arithmetic; `None` stands for the exception. */
  function Encode(packetNum: nat, largestAcked: nat): (r: Option<Encoded>)
    requires packetNum < WORD && largestAcked < WORD
  {
    var twiceDistance := 2 * ((packetNum - largestAcked) % WORD) % WORD;
    var n := LengthInBytes(twiceDistance);
    if n > 4 then None else Some(Encoded(packetNum % Pow2(8 * n), n))
  }

  lemma Euclid(x: nat, m: nat)
    requires m > 0
    ensures 0 <= x % m < m && x == x / m * m + x % m
  {
  }

  /** `(expected & ~mask) | encoded`. */
  function Candidate(encoded: nat, win: nat, expected: nat): nat
    requires win > 0
  {
    Euclid(expected, win);
    expected - expected % win + encoded
  }

  function Adjust(candidate: nat, win: nat, expected: nat): nat {
    var half := win / 2;
    if expected > half && candidate <= expected - half && candidate < PACKET_NUM_LIMIT - win then candidate + win
    else if candidate > expected + half && candidate >= win then candidate - win
    else candidate
  }

  /** `decodePacketNumber`. */
  function Decode(encoded: nat, length: nat, expected: nat): nat {
    Adjust(Candidate(encoded, Pow2(8 * length), expected), Pow2(8 * length), expected)
  }

  /** The sender can encode exactly the numbers less than 2^31 above the largest acked. */
  lemma EncodableRange(packetNum: nat, largestAcked: nat)
    requires packetNum < PACKET_NUM_LIMIT && largestAcked < PACKET_NUM_LIMIT
    ensures Encode(packetNum, largestAcked).Some? <==> 0 <= packetNum - largestAcked < 0x8000_0000
  {
    var x := 2 * ((packetNum - largestAcked) % WORD) % WORD;
    assert x == if packetNum >= largestAcked then 2 * (packetNum - largestAcked)
                else WORD - 2 * (largestAcked - packetNum);
    LengthIsLeast(x);
    var n := LengthInBytes(x);
    Pow2Values();
    if n <= 4 {
      Pow2Monotone(8 * n, 32);
    } else {
      Pow2Monotone(32, 8 * (n - 1));
    }
  }

  /** What is sent are the low bytes of the number, as few as can hold twice the distance. */
  lemma EncodedIsShortest(packetNum: nat, largestAcked: nat)
    requires packetNum < PACKET_NUM_LIMIT && largestAcked < PACKET_NUM_LIMIT
    requires Encode(packetNum, largestAcked).Some?
    ensures var e, twice := Encode(packetNum, largestAcked).value, 2 * (packetNum - largestAcked);
            && 1 <= e.length <= 4 && e.result == packetNum % Pow2(8 * e.length)
            && 0 <= twice < Pow2(8 * e.length)
            && (e.length > 1 ==> Pow2(8 * (e.length - 1)) <= twice)
  {
    hide Pow2, LengthInBytes;
    EncodableRange(packetNum, largestAcked);
    LengthIsLeast(2 * (packetNum - largestAcked));
  }

  /** Whether `packetNum` is the number the receiver restores: it is nearest to the expected
      one, unless no number nearer is a packet number. */
  predicate Restored(packetNum: nat, win: nat, expected: nat) {
    var half := win / 2;
    || (expected - half < packetNum <= expected + half && !(expected == half && packetNum == win))
    || (packetNum <= expected - half && packetNum + win >= PACKET_NUM_LIMIT)
    || (packetNum > expected + half && packetNum < win)
    || (expected == half && packetNum == 0)
  }

  lemma Multiples(d: int, m: nat)
    ensures d >= 2 ==> d * m >= 2 * m
    ensures d <= -2 ==> d * m <= -2 * m
    ensures d >= 1 ==> d * m >= m
    ensures d <= 0 ==> d * m <= 0
  {
  }

  /** The number and the candidate differ by a multiple of the window. */
  lemma CandidateOffset(packetNum: nat, win: nat, expected: nat) returns (d: int)
    requires win > 0
    ensures var candidate := Candidate(packetNum % win, win, expected);
            && expected - win < candidate < expected + win
            && packetNum - candidate == d * win
    ensures d >= 2 ==> d * win >= 2 * win
    ensures d <= -2 ==> d * win <= -2 * win
    ensures d == 0 ==> d * win == 0
    ensures d == 1 ==> d * win == win
    ensures d == -1 ==> d * win + win == 0
  {
    Euclid(packetNum, win);
    Euclid(expected, win);
    d := packetNum / win - expected / win;
    assert d * win == packetNum / win * win - expected / win * win;
    Multiples(d, win);
  }

  lemma CandidateBelowLimit(packetNum: nat, win: nat, expected: nat, c: nat)
    requires win > 0 && expected < PACKET_NUM_LIMIT && PACKET_NUM_LIMIT == c * win
    ensures Candidate(packetNum % win, win, expected) < PACKET_NUM_LIMIT
  {
    Euclid(expected, win);
    Euclid(packetNum, win);
    var d := c - expected / win;
    assert d * win == c * win - expected / win * win;
    Multiples(d, win);
  }

  lemma LowCandidate(packetNum: nat, win: nat, expected: nat)
    requires packetNum <= win && expected < win
    ensures Candidate(packetNum % win, win, expected) == if packetNum == win then 0 else packetNum
  {
    Euclid(packetNum, win);
    Euclid(expected, win);
    Multiples(expected / win, win);
    Multiples(packetNum / win, win);
  }

  /** Decoding restores a packet number if and only if it is the one `Restored` describes. */
  lemma AdjustRestores(packetNum: nat, win: nat, expected: nat, c: nat)
    requires win > 1 && win % 2 == 0 && packetNum < PACKET_NUM_LIMIT && expected < PACKET_NUM_LIMIT
    requires PACKET_NUM_LIMIT == c * win
    ensures Adjust(Candidate(packetNum % win, win, expected), win, expected) == packetNum
            <==> Restored(packetNum, win, expected)
  {
    hide Candidate;
    var d := CandidateOffset(packetNum, win, expected);
    CandidateBelowLimit(packetNum, win, expected, c);
    if packetNum <= win && expected < win {
      LowCandidate(packetNum, win, expected);
    }
  }

  lemma DecodeRestores(packetNum: nat, length: nat, expected: nat)
    requires 1 <= length <= 4 && packetNum < PACKET_NUM_LIMIT && expected < PACKET_NUM_LIMIT
    ensures Decode(packetNum % Pow2(8 * length), length, expected) == packetNum
            <==> Restored(packetNum, Pow2(8 * length), expected)
  {
    Pow2Values();
    var win := Pow2(8 * length);
    var c := if length == 1 then 0x40_0000_0000_0000 else if length == 2 then 0x4000_0000_0000
             else if length == 3 then 0x40_0000_0000 else 0x4000_0000;
    AdjustRestores(packetNum, win, expected, c);
  }

  /** What the encoding promises: a receiver that has seen the acknowledged packet, and has
      not run more than half a window ahead, restores the number. */
  lemma RoundTrip(packetNum: nat, largestAcked: nat, expected: nat)
    requires packetNum < PACKET_NUM_LIMIT && largestAcked < PACKET_NUM_LIMIT && expected < PACKET_NUM_LIMIT
    requires Encode(packetNum, largestAcked).Some?
    requires var e := Encode(packetNum, largestAcked).value;
             largestAcked <= expected < packetNum + Pow2(8 * e.length) / 2
    ensures var e := Encode(packetNum, largestAcked).value;
            Decode(e.result, e.length, expected) == packetNum
  {
    hide Decode, Pow2, LengthInBytes;
    EncodableRange(packetNum, largestAcked);
    var e := Encode(packetNum, largestAcked).value;
    LengthIsLeast(2 * (packetNum - largestAcked));
    Pow2Values();
    DecodeRestores(packetNum, e.length, expected);
  }

  /** The pseudocode of appendix A.3 of RFC 9000 restores every number in the window; the
      code, which compares `expected > half` strictly, misses one. */
  lemma WindowEdgeIsMissed()
    ensures Decode(0x100 % Pow2(8), 1, 0x80) == 0
  {
    Pow2Values();
  }
}
