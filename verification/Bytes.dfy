/**
  Fixed-width integers, little-endian field lists and single-bit access: the
  byte-level vocabulary every on-disk structure is written in.
 */
module Bytes {
  datatype Option<+T> = None | Some(value: T)

  type u8 = x: int | 0 <= x < 0x100
  type u16 = x: int | 0 <= x < 0x1_0000
  type u32 = x: int | 0 <= x < 0x1_0000_0000
  type u64 = x: int | 0 <= x < 0x1_0000_0000_0000_0000

  const U32_LIMIT := 0x1_0000_0000
  const U64_LIMIT := 0x1_0000_0000_0000_0000

  function Zeros(n: nat): (s: seq<u8>)
    ensures |s| == n
    ensures forall i :: 0 <= i < n ==> s[i] == 0
  {
    seq(n, _ => 0)
  }

  // ---- little-endian integers ---------------------------------------------

  function Pow256(w: nat): (p: nat)
    ensures p >= 1
  {
    if w == 0 then 1 else 256 * Pow256(w - 1)
  }

  /** The low `w` bytes of `v`, least significant first. */
  function Le(v: nat, w: nat): (s: seq<u8>)
    ensures |s| == w
    decreases w
  {
    if w == 0 then [] else [v % 256] + Le(v / 256, w - 1)
  }

  function FromLe(s: seq<u8>): (v: nat)
  {
    if s == [] then 0 else s[0] + 256 * FromLe(s[1..])
  }

  lemma {:induction false} FromLeBound(s: seq<u8>)
    ensures FromLe(s) < Pow256(|s|)
  {
    if s != [] {
      FromLeBound(s[1..]);
    }
  }

  lemma {:induction false} LeRoundTrip(v: nat, w: nat)
    requires v < Pow256(w)
    ensures FromLe(Le(v, w)) == v
    decreases w
  {
    if w > 0 {
      LeRoundTrip(v / 256, w - 1);
      assert Le(v, w)[1..] == Le(v / 256, w - 1);
    }
  }

  /** Distinct encodings are distinct numbers, so comparing decoded checksums compares the bytes. */
  lemma {:induction false} FromLeInjective(s: seq<u8>, t: seq<u8>)
    requires |s| == |t|
    requires FromLe(s) == FromLe(t)
    ensures s == t
  {
    if s != [] {
      FromLeInjective(s[1..], t[1..]);
      assert s == [s[0]] + s[1..] && t == [t[0]] + t[1..];
    }
  }

  lemma Pow256Values()
    ensures Pow256(1) == 0x100 && Pow256(2) == 0x1_0000
    ensures Pow256(4) == 0x1_0000_0000
    ensures Pow256(8) == 0x1_0000_0000_0000_0000
  {
    assert Pow256(1) == 256 * Pow256(0);
    assert Pow256(2) == 256 * Pow256(1);
    assert Pow256(3) == 256 * Pow256(2);
    assert Pow256(4) == 256 * Pow256(3);
    assert Pow256(5) == 256 * Pow256(4);
    assert Pow256(6) == 256 * Pow256(5);
    assert Pow256(7) == 256 * Pow256(6);
    assert Pow256(8) == 256 * Pow256(7);
  }

  // ---- records as lists of little-endian fields ---------------------------

  /** One field of a packed record: its width in bytes and its value. */
  datatype Field = Field(width: nat, value: nat)

  ghost predicate FieldsFit(fs: seq<Field>)
  {
    forall i :: 0 <= i < |fs| ==> fs[i].value < Pow256(fs[i].width)
  }

  function TotalWidth(widths: seq<nat>): (n: nat)
  {
    if widths == [] then 0 else widths[0] + TotalWidth(widths[1..])
  }

  function Widths(fs: seq<Field>): (ws: seq<nat>)
    ensures |ws| == |fs|
    ensures forall i :: 0 <= i < |fs| ==> ws[i] == fs[i].width
  {
    seq(|fs|, i requires 0 <= i < |fs| => fs[i].width)
  }

  function Values(fs: seq<Field>): (vs: seq<nat>)
    ensures |vs| == |fs|
    ensures forall i :: 0 <= i < |fs| ==> vs[i] == fs[i].value
  {
    seq(|fs|, i requires 0 <= i < |fs| => fs[i].value)
  }

  function Encode(fs: seq<Field>): (s: seq<u8>)
  {
    if fs == [] then [] else Le(fs[0].value, fs[0].width) + Encode(fs[1..])
  }

  /** Reads consecutive fields off the front of `s`. */
  function Decode(widths: seq<nat>, s: seq<u8>): (vs: seq<nat>)
    requires TotalWidth(widths) <= |s|
    ensures |vs| == |widths|
    ensures forall i :: 0 <= i < |vs| ==> vs[i] < Pow256(widths[i])
    decreases |widths|
  {
    if widths == [] then []
    else
      FromLeBound(s[..widths[0]]);
      [FromLe(s[..widths[0]])] + Decode(widths[1..], s[widths[0]..])
  }

  lemma {:induction false} EncodeLength(fs: seq<Field>)
    ensures |Encode(fs)| == TotalWidth(Widths(fs))
  {
    if fs != [] {
      EncodeLength(fs[1..]);
      assert Widths(fs)[1..] == Widths(fs[1..]);
    }
  }

  lemma FieldsCons(fs: seq<Field>)
    requires fs != []
    ensures Encode(fs) == Le(fs[0].value, fs[0].width) + Encode(fs[1..])
    ensures Widths(fs) == [fs[0].width] + Widths(fs[1..]) && Values(fs) == [fs[0].value] + Values(fs[1..])
  {
  }

  lemma DecodeCons(w: nat, ws: seq<nat>, head: seq<u8>, tail: seq<u8>)
    requires |head| == w && TotalWidth(ws) <= |tail|
    ensures TotalWidth([w] + ws) <= |head + tail| && Decode([w] + ws, head + tail) == [FromLe(head)] + Decode(ws, tail)
  {
    assert ([w] + ws)[1..] == ws && (head + tail)[..w] == head && (head + tail)[w..] == tail;
  }

  lemma {:induction false} FieldsRoundTrip(fs: seq<Field>, rest: seq<u8>)
    requires FieldsFit(fs)
    ensures TotalWidth(Widths(fs)) <= |Encode(fs) + rest|
    ensures Decode(Widths(fs), Encode(fs) + rest) == Values(fs)
    decreases |fs|
  {
    hide Encode, Decode, TotalWidth, Widths, Values, Le, FromLe;
    EncodeLength(fs);
    if fs == [] {
      NoFields(rest);
    } else {
      var head := Le(fs[0].value, fs[0].width);
      FieldsCons(fs);
      LeRoundTrip(fs[0].value, fs[0].width);
      FieldsRoundTrip(fs[1..], rest);
      assert Encode(fs) + rest == head + (Encode(fs[1..]) + rest);
      DecodeCons(fs[0].width, Widths(fs[1..]), head, Encode(fs[1..]) + rest);
    }
  }

  lemma NoFields(rest: seq<u8>)
    ensures Widths([]) == [] && Values([]) == [] && TotalWidth([]) == 0 && Decode([], rest) == []
  {
  }

  // ---- bits ---------------------------------------------------------------

  /** Bit `k` of `b`, counting from the least significant: `(b >> k) & 1`. */
  predicate BitOf(b: nat, k: nat)
    decreases k
  {
    if k == 0 then b % 2 == 1 else BitOf(b / 2, k - 1)
  }

  /** `b` with bit `k` set or cleared: `b | (1 << k)` or `b & ~(1 << k)`. */
  function WithBit(b: nat, k: nat, on: bool): (r: nat)
    decreases k
  {
    if k == 0 then b - b % 2 + (if on then 1 else 0)
    else b % 2 + 2 * WithBit(b / 2, k - 1, on)
  }

  lemma {:induction false} WithBitSpec(b: nat, k: nat, on: bool, j: nat)
    ensures BitOf(WithBit(b, k, on), j) == (if j == k then on else BitOf(b, j))
    decreases k
  {
    if k > 0 && j > 0 {
      WithBitSpec(b / 2, k - 1, on, j - 1);
    }
  }

  lemma {:induction false} WithBitBound(b: nat, k: nat, on: bool, width: nat)
    requires k < width && b < PowTwo(width)
    ensures WithBit(b, k, on) < PowTwo(width)
    decreases k
  {
    var half := PowTwo(width - 1);
    assert PowTwo(width) == 2 * half;
    assert b / 2 < half;
    if k > 0 {
      WithBitBound(b / 2, k - 1, on, width - 1);
      assert WithBit(b / 2, k - 1, on) < half;
    }
  }

  function PowTwo(w: nat): (p: nat)
    ensures p >= 1
  {
    if w == 0 then 1 else 2 * PowTwo(w - 1)
  }

  /** Bit `o` of a bitmap stored least significant bit first. */
  predicate BitAt(s: seq<u8>, o: nat)
    requires o / 8 < |s|
  {
    BitOf(s[o / 8], o % 8)
  }

  function SetBitAt(s: seq<u8>, o: nat, on: bool): (r: seq<u8>)
    requires o / 8 < |s|
    ensures |r| == |s|
    ensures forall p: nat {:trigger BitAt(r, p)} :: p / 8 < |s| ==>
      BitAt(r, p) == (if p == o then on else BitAt(s, p))
  {
    assert PowTwo(8) == 256;
    WithBitBound(s[o / 8], o % 8, on, 8);
    var r: seq<u8> := s[o / 8 := WithBit(s[o / 8], o % 8, on)];
    assert forall p: nat {:trigger BitAt(r, p)} :: p / 8 < |s| ==>
      BitAt(r, p) == (if p == o then on else BitAt(s, p)) by {
      forall p: nat | p / 8 < |s|
        ensures BitAt(r, p) == (if p == o then on else BitAt(s, p))
      {
        WithBitSpec(s[o / 8], o % 8, on, p % 8);
      }
    }
    r
  }

  lemma SubSlice(s: seq<u8>, o: nat, p: nat, a: nat, b: nat)
    requires o <= p <= |s| && a <= b <= p - o
    ensures s[o..p][a..b] == s[o + a..o + b]
  {
    var x, y := s[o..p][a..b], s[o + a..o + b];
    assert forall k :: 0 <= k < b - a ==> x[k] == y[k];
  }

  // ---- big-endian words ---------------------------------------------------

  function Be16(v: nat): (r: seq<u8>)
    ensures |r| == 2
  {
    [v / 256 % 256, v % 256]
  }

  function ReadBe16(m: seq<u8>, at: nat): nat
    requires at + 2 <= |m|
  {
    var high: nat := m[at];
    high * 256 + m[at + 1]
  }

  lemma Halves(v: nat)
    ensures v / 256 % 256 * 256 + v % 256 == v % 0x1_0000
  {
    var q := v / 0x1_0000;
    var r := v % 0x1_0000;
    assert v / 256 == q * 256 + r / 256;
  }
}
