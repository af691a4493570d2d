/** The Internet checksum of RFC 1071, scalar and vector (src/net/checksum.h). */
module InternetChecksum {
  import opened Bytes

  /** The reference: big-endian 16-bit words added up, a lone last byte counting as a high byte. */
  function WordSum(bytes: seq<u8>): nat
  {
    if bytes == [] then 0
    else if |bytes| == 1 then 256 * bytes[0]
    else 256 * bytes[0] + bytes[1] + WordSum(bytes[2..])
  }

  lemma {:induction false} WordSumConcat(a: seq<u8>, b: seq<u8>)
    requires |a| % 2 == 0
    ensures WordSum(a + b) == WordSum(a) + WordSum(b)
  {
    if a == [] {
      assert a + b == b;
    } else {
      assert (a + b)[2..] == a[2..] + b;
      WordSumConcat(a[2..], b);
    }
  }

  lemma {:induction false} WordSumBound(bytes: seq<u8>)
    ensures WordSum(bytes) <= 65535 * ((|bytes| + 1) / 2)
  {
    if |bytes| > 1 {
      WordSumBound(bytes[2..]);
    }
  }

  function Wrap(x: nat): u32
  {
    x % U32_LIMIT
  }

  lemma WrapAdd(x: nat, y: nat)
    ensures Wrap(Wrap(x) + y) == Wrap(x + y)
  {
    var q := x / U32_LIMIT;
    assert x == q * U32_LIMIT + x % U32_LIMIT;
    assert x + y == q * U32_LIMIT + (x % U32_LIMIT + y);
    WrapShift(x % U32_LIMIT + y, q);
  }

  lemma WrapShift(r: nat, q: nat)
    ensures (q * U32_LIMIT + r) % U32_LIMIT == r % U32_LIMIT
  {
    var p := r / U32_LIMIT;
    assert q * U32_LIMIT + r == (q + p) * U32_LIMIT + r % U32_LIMIT;
  }

  function Val(bytes: seq<u8>, i: nat): nat
    requires i < |bytes|
  {
    bytes[i]
  }

  function Pair(bytes: seq<u8>, i: nat): nat
    requires i + 1 < |bytes|
  {
    256 * Val(bytes, i) + Val(bytes, i + 1)
  }

  lemma PairStep(bytes: seq<u8>, i: nat)
    requires i + 1 < |bytes|
    ensures WordSum(bytes[i..]) == Pair(bytes, i) + WordSum(bytes[i + 2..])
  {
    assert bytes[i..][0] == bytes[i] && bytes[i..][1] == bytes[i + 1] && bytes[i..][2..] == bytes[i + 2..];
  }

  /** net_checksum_sum_tail: four words a turn, then one, then the odd byte. */
  method ScalarSum(start: u32, bytes: seq<u8>) returns (sum: u32)
    ensures sum == Wrap(start + WordSum(bytes))
  {
    hide Wrap, WordSum, Pair;
    sum := start;
    var at := 0;
    assert bytes[0..] == bytes;
    WrapSmall(start);
    while |bytes| - at >= 8
      invariant 0 <= at <= |bytes| && Wrap(sum + WordSum(bytes[at..])) == Wrap(start + WordSum(bytes))
    {
      PairStep(bytes, at);
      PairStep(bytes, at + 2);
      PairStep(bytes, at + 4);
      PairStep(bytes, at + 6);
      FourWraps(sum, Pair(bytes, at), Pair(bytes, at + 2), Pair(bytes, at + 4), Pair(bytes, at + 6),
        WordSum(bytes[at + 8..]));
      sum := Wrap(sum + Pair(bytes, at));
      sum := Wrap(sum + Pair(bytes, at + 2));
      sum := Wrap(sum + Pair(bytes, at + 4));
      sum := Wrap(sum + Pair(bytes, at + 6));
      at := at + 8;
    }
    while |bytes| - at >= 2
      invariant 0 <= at <= |bytes| && Wrap(sum + WordSum(bytes[at..])) == Wrap(start + WordSum(bytes))
    {
      PairStep(bytes, at);
      WrapAdd(sum + Pair(bytes, at), WordSum(bytes[at + 2..]));
      sum := Wrap(sum + Pair(bytes, at));
      at := at + 2;
    }
    if |bytes| - at > 0 {
      LastByte(bytes, at);
      sum := Wrap(sum + 256 * Val(bytes, at));
    } else {
      assert bytes[at..] == [];
      NoWords();
      WrapSmall(sum);
    }
  }

  lemma LastByte(bytes: seq<u8>, at: nat)
    requires at == |bytes| - 1
    ensures WordSum(bytes[at..]) == 256 * Val(bytes, at)
  {
    assert bytes[at..] == [bytes[at]];
  }

  lemma NoWords()
    ensures WordSum([]) == 0
  {
  }

  lemma WrapSmall(x: u32)
    ensures Wrap(x) == x
  {
  }

  lemma FourWraps(sum: nat, a: nat, b: nat, c: nat, d: nat, rest: nat)
    ensures Wrap(Wrap(Wrap(Wrap(Wrap(sum + a) + b) + c) + d) + rest) == Wrap(sum + a + b + c + d + rest)
  {
    hide Wrap;
    WrapAdd(sum + a, b);
    WrapAdd(sum + a + b, c);
    WrapAdd(sum + a + b + c, d);
    WrapAdd(sum + a + b + c + d, rest);
  }

  // ---- sixteen bytes at a time --------------------------------------------

  /** The sum of absolute differences against zero of eight bytes, all of them or the even ones. */
  function Sad(bytes: seq<u8>, at: nat, even: bool): nat
    requires at + 8 <= |bytes|
  {
    Val(bytes, at) + Val(bytes, at + 2) + Val(bytes, at + 4) + Val(bytes, at + 6)
    + if even then 0 else Val(bytes, at + 1) + Val(bytes, at + 3) + Val(bytes, at + 5) + Val(bytes, at + 7)
  }

  /** Two 64-bit lanes. */
  datatype Lanes = Lanes(low: u64, high: u64)

  function AddLanes(l: Lanes, low: nat, high: nat): Lanes
  {
    Lanes((l.low + low) % U64_LIMIT, (l.high + high) % U64_LIMIT)
  }

  /** net_checksum_sad_value: the low halves of the lanes, in 32-bit arithmetic. */
  function SadValue(all: Lanes, even: Lanes): u32
  {
    var total := Wrap(Wrap(all.low) + Wrap(all.high));
    var ev := Wrap(Wrap(even.low) + Wrap(even.high));
    Wrap(Wrap(256 * ev) + Wrap(total - ev + U32_LIMIT))
  }

  /** Sixteen bytes are eight words: 256 times the even bytes plus the odd ones. */
  lemma SixteenBytes(bytes: seq<u8>, at: nat)
    requires at + 16 <= |bytes|
    ensures var ev, all := Sad(bytes, at, true) + Sad(bytes, at + 8, true),
      Sad(bytes, at, false) + Sad(bytes, at + 8, false);
      ev <= all && WordSum(bytes[at..]) == 256 * ev + (all - ev) + WordSum(bytes[at + 16..])
  {
    hide WordSum;
    PairStep(bytes, at);
    PairStep(bytes, at + 2);
    PairStep(bytes, at + 4);
    PairStep(bytes, at + 6);
    PairStep(bytes, at + 8);
    PairStep(bytes, at + 10);
    PairStep(bytes, at + 12);
    PairStep(bytes, at + 14);
  }

  lemma WrapLane(x: nat)
    ensures Wrap(x % U64_LIMIT) == Wrap(x)
  {
    var q := x / U64_LIMIT;
    assert x == q * U32_LIMIT * U32_LIMIT + x % U64_LIMIT;
    WrapShift(x % U64_LIMIT, q * U32_LIMIT);
  }

  /** Lanes that hold running totals, up to wrap-around. */
  ghost predicate Counts(l: Lanes, low: nat, high: nat)
  {
    l.low == low % U64_LIMIT && l.high == high % U64_LIMIT
  }

  lemma AddCounts(l: Lanes, low: nat, high: nat, x: nat, y: nat)
    requires Counts(l, low, high)
    ensures Counts(AddLanes(l, x, y), low + x, high + y)
  {
    LaneAdd(low, x);
    LaneAdd(high, y);
  }

  lemma LaneAdd(a: nat, b: nat)
    ensures (a % U64_LIMIT + b) % U64_LIMIT == (a + b) % U64_LIMIT
  {
    var q := a / U64_LIMIT;
    var r := a % U64_LIMIT + b;
    var p := r / U64_LIMIT;
    assert a + b == (q + p) * U64_LIMIT + r % U64_LIMIT;
  }

  /** The extracted value is 256 times the even total plus the odd total. */
  lemma SadTotals(all: Lanes, even: Lanes, a: nat, b: nat, c: nat, d: nat)
    requires Counts(all, a, b) && Counts(even, c, d) && c + d <= a + b
    ensures SadValue(all, even) == Wrap(256 * (c + d) + (a + b - (c + d)))
  {
    WrapLane(a);
    WrapLane(b);
    WrapLane(c);
    WrapLane(d);
    var total, ev := Wrap(a + b), Wrap(c + d);
    TwoWraps(a, b);
    TwoWraps(c, d);
    assert SadValue(all, even) == Wrap(Wrap(256 * ev) + Wrap(total - ev + U32_LIMIT));
    hide SadValue;
    Scale(c + d);
    Difference(a + b, c + d);
    TwoWraps(256 * (c + d), a + b - (c + d));
  }

  lemma TwoWraps(x: nat, y: nat)
    ensures Wrap(Wrap(x) + Wrap(y)) == Wrap(x + y)
  {
    hide Wrap;
    WrapAdd(x, Wrap(y));
    WrapAdd(y, x);
  }

  lemma Scale(x: nat)
    ensures Wrap(256 * Wrap(x)) == Wrap(256 * x)
  {
    var q := x / U32_LIMIT;
    assert 256 * x == (256 * q) * U32_LIMIT + 256 * (x % U32_LIMIT);
    WrapShift(256 * (x % U32_LIMIT), 256 * q);
  }

  lemma Difference(x: nat, y: nat)
    requires y <= x
    ensures Wrap(Wrap(x) - Wrap(y) + U32_LIMIT) == Wrap(x - y)
  {
    var q, p := x / U32_LIMIT, y / U32_LIMIT;
    var r := Wrap(x) - Wrap(y) + U32_LIMIT;
    assert x - y + U32_LIMIT == (q - p) * U32_LIMIT + r;
    assert q >= p;
    WrapShift(r, q - p);
    WrapShift(x - y, 1);
  }

  /** net_checksum_sum: the vector loop and the scalar tail together give the reference sum. */
  method VectorSum(start: u32, bytes: seq<u8>) returns (sum: u32)
    ensures sum == Wrap(start + WordSum(bytes))
  {
    hide Wrap, WordSum, SadValue, Counts, AddLanes, Sad;
    sum := start;
    var at := 0;
    assert bytes[0..] == bytes;
    if |bytes| >= 16 {
      var all, even := Lanes(0, 0), Lanes(0, 0);
      ghost var a: nat, b: nat, c: nat, d: nat := 0, 0, 0, 0;
      NoCounts();
      while |bytes| - at >= 16
        invariant 0 <= at <= |bytes| && Counts(all, a, b) && Counts(even, c, d) && c + d <= a + b
        invariant 256 * (c + d) + (a + b - (c + d)) + WordSum(bytes[at..]) == WordSum(bytes)
      {
        SixteenBytes(bytes, at);
        AddCounts(all, a, b, Sad(bytes, at, false), Sad(bytes, at + 8, false));
        AddCounts(even, c, d, Sad(bytes, at, true), Sad(bytes, at + 8, true));
        all := AddLanes(all, Sad(bytes, at, false), Sad(bytes, at + 8, false));
        even := AddLanes(even, Sad(bytes, at, true), Sad(bytes, at + 8, true));
        a, b := a + Sad(bytes, at, false), b + Sad(bytes, at + 8, false);
        c, d := c + Sad(bytes, at, true), d + Sad(bytes, at + 8, true);
        at := at + 16;
      }
      SadTotals(all, even, a, b, c, d);
      sum := Wrap(sum + SadValue(all, even));
      VectorPart(start, 256 * (c + d) + (a + b - (c + d)), WordSum(bytes[at..]));
    }
    sum := ScalarSum(sum, bytes[at..]);
  }

  lemma NoCounts()
    ensures Counts(Lanes(0, 0), 0, 0)
  {
  }

  lemma VectorPart(start: u32, done: nat, rest: nat)
    ensures Wrap(Wrap(start + Wrap(done)) + rest) == Wrap(start + done + rest)
  {
    hide Wrap;
    WrapAdd(start + Wrap(done), rest);
    WrapAdd(done, start + rest);
  }

  /** Up to 131074 bytes the 32-bit accumulator never wraps. */
  lemma NoOverflow(bytes: seq<u8>)
    requires |bytes| <= 131074
    ensures WordSum(bytes) < U32_LIMIT && Wrap(0 + WordSum(bytes)) == WordSum(bytes)
  {
    WordSumBound(bytes);
  }

  // ---- the final fold -----------------------------------------------------

  /** One's-complement addition in sixteen bits: addition modulo 65535, with 65535 for zero. */
  function OnesSum(sum: nat): (r: nat)
    ensures r <= 65535
  {
    if sum == 0 then 0 else 1 + (sum - 1) % 65535
  }

  /** net_checksum_finish. */
  function Finish(sum: u32): u16
  {
    var once := sum % 0x1_0000 + sum / 0x1_0000;
    var twice := once + once / 0x1_0000;
    65535 - twice % 0x1_0000
  }

  /** Two folds are enough: the result is the complement of the one's-complement sum. */
  lemma FinishIsOnes(sum: u32)
    ensures Finish(sum) == 65535 - OnesSum(sum)
  {
    var high, low := sum / 0x1_0000, sum % 0x1_0000;
    var once := low + high;
    assert sum == high * 65535 + once;
    if sum > 0 {
      assert once > 0;
      ModShift(once - 1, high);
      assert (sum - 1) % 65535 == (once - 1) % 65535;
    }
  }

  lemma ModShift(r: nat, q: nat)
    ensures (q * 65535 + r) % 65535 == r % 65535
  {
    var p := r / 65535;
    assert q * 65535 + r == (q + p) * 65535 + r % 65535;
  }

  /** The complement of the one's-complement sum. */
  function Checksum(bytes: seq<u8>): u16
  {
    65535 - OnesSum(WordSum(bytes))
  }

  /** ipv4_checksum: the checksum, as long as the accumulator does not wrap. */
  method ComputeChecksum(bytes: seq<u8>) returns (r: u16)
    ensures r == 65535 - OnesSum(Wrap(WordSum(bytes)))
    ensures |bytes| <= 131074 ==> r == Checksum(bytes)
  {
    if |bytes| == 0 {
      assert OnesSum(WordSum(bytes)) == 0;
      return 0xFFFF;
    }
    if |bytes| <= 131074 {
      NoOverflow(bytes);
    }
    var sum := VectorSum(0, bytes);
    FinishIsOnes(sum);
    r := Finish(sum);
  }

  /** Data that carries its own checksum in a zeroed word sums to zero. */
  lemma ChecksumCancels(pre: seq<u8>, post: seq<u8>, field: seq<u8>)
    requires |pre| % 2 == 0 && |field| == 2
    requires WordSum(field) == Checksum(pre + [0, 0] + post)
    ensures Checksum(pre + field + post) == 0
  {
    hide WordSum, OnesSum;
    var s := WordSum(pre) + WordSum(post);
    WordsAround(pre, [0, 0], post);
    WordsAround(pre, field, post);
    ZeroWord();
    Cancels(s);
    assert WordSum(field) == 65535 - OnesSum(s) && WordSum(pre + field + post) == s + (65535 - OnesSum(s));
  }

  lemma WordsAround(pre: seq<u8>, field: seq<u8>, post: seq<u8>)
    requires |pre| % 2 == 0 && |field| == 2
    ensures WordSum(pre + field + post) == WordSum(pre) + WordSum(field) + WordSum(post)
  {
    hide WordSum;
    WordSumConcat(pre + field, post);
    WordSumConcat(pre, field);
  }

  lemma ZeroWord()
    ensures WordSum([0, 0]) == 0
  {
    assert [0, 0][2..] == [];
  }

  lemma Cancels(s: nat)
    ensures OnesSum(s + (65535 - OnesSum(s))) == 65535
  {
    if s > 0 {
      CancelsPositive(s);
    }
  }

  lemma CancelsPositive(s: nat)
    requires s > 0
    ensures OnesSum(s + (65535 - OnesSum(s))) == 65535
  {
    var q := (s - 1) / 65535;
    assert s - 1 == q * 65535 + (s - 1) % 65535;
    var t := s + (65535 - OnesSum(s));
    assert t - 1 == q * 65535 + 65534;
    ModShift(65534, q);
  }

  /**
    Replacing one word of checked data goes unnoticed exactly when the word stays
    the same, 0x0000 becomes 0xFFFF, or 0xFFFF becomes 0x0000 beside other non-zero data.
   */
  lemma OneWordChange(pre: seq<u8>, post: seq<u8>, f: seq<u8>, g: seq<u8>)
    requires |pre| % 2 == 0 && |f| == 2 && |g| == 2 && Checksum(pre + f + post) == 0
    ensures Checksum(pre + g + post) == 0 <==>
      || WordSum(f) == WordSum(g) || (WordSum(f) == 0 && WordSum(g) == 65535)
      || (WordSum(f) == 65535 && WordSum(g) == 0 && WordSum(pre) + WordSum(post) > 0)
  {
    hide WordSum, OnesSum, Checksum;
    WordRange(f);
    WordRange(g);
    CheckAround(pre, f, post);
    CheckAround(pre, g, post);
    SameClass(WordSum(pre) + WordSum(post), WordSum(f), WordSum(g));
  }

  lemma WordRange(f: seq<u8>)
    requires |f| == 2
    ensures WordSum(f) <= 65535
  {
    assert f[2..] == [];
  }

  lemma SameClass(s: nat, x: nat, y: nat)
    requires OnesSum(s + x) == 65535 && x <= 65535 && y <= 65535
    ensures OnesSum(s + y) == 65535 <==> x == y || (x == 0 && y == 65535) || (x == 65535 && y == 0 && s > 0)
  {
    var a := (s + x - 1) / 65535;
    assert s + x == 65535 * a + 65535;
    if x == 0 && y == 65535 {
      ModShift(65534, a + 1);
    }
    if x == 65535 && y == 0 && s > 0 {
      ModShift(65534, a - 1);
    }
    if OnesSum(s + y) == 65535 {
      var b := (s + y - 1) / 65535;
      assert s + y == 65535 * b + 65535;
      assert x - y == 65535 * (a - b);
    }
  }

  lemma CheckAround(pre: seq<u8>, field: seq<u8>, post: seq<u8>)
    requires |pre| % 2 == 0 && |field| == 2
    ensures Checksum(pre + field + post) == 0 <==> OnesSum(WordSum(pre) + WordSum(post) + WordSum(field)) == 65535
  {
    hide WordSum, OnesSum;
    WordsAround(pre, field, post);
  }
}
