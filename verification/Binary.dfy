/**
  Binary strings of bindings/python/rad_util.py: int2bin by way of hexadecimal digits, bin2int,
  the ripple-carry enumeration binary_range, and gray_encode.
*/
module Binary {
  import opened Seqs

  function Pow2(n: nat): (p: nat)
    ensures p > 0
  {
    if n == 0 then 1 else 2 * Pow2(n - 1)
  }

  predicate IsBits(s: string) {
    forall i :: 0 <= i < |s| ==> s[i] == '0' || s[i] == '1'
  }

  function Bit(c: char): nat {
    if c == '1' then 1 else 0
  }

  function Digit(b: nat): char {
    if b == 0 then '0' else '1'
  }

  /** The number a string of bits denotes, most significant bit first: bin2int. */
  function Value(s: string): nat {
    if s == "" then 0 else 2 * Value(s[..|s| - 1]) + Bit(s[|s| - 1])
  }

  /** The last n bits of k. */
  function BinString(k: nat, n: nat): string {
    if n == 0 then "" else BinString(k / 2, n - 1) + [Digit(k % 2)]
  }

  // ------------------------------------------------------------------------- round trips

  lemma {:induction false} ValueOfBinString(k: nat, n: nat)
    requires k < Pow2(n)
    ensures |BinString(k, n)| == n && IsBits(BinString(k, n)) && Value(BinString(k, n)) == k
  {
    if n > 0 {
      ValueOfBinString(k / 2, n - 1);
      AppendInit(BinString(k / 2, n - 1), Digit(k % 2));
    }
  }

  lemma {:induction false} BinStringOfValue(s: string)
    requires IsBits(s)
    ensures Value(s) < Pow2(|s|) && BinString(Value(s), |s|) == s
  {
    ValueBound(s);
    if s != "" {
      var init, last := s[..|s| - 1], s[|s| - 1];
      BinStringOfValue(init);
      assert Value(s) / 2 == Value(init) && Digit(Value(s) % 2) == last;
      InitLast(s);
    }
  }

  /** v times the n-th power of two. */
  function Shift(v: nat, n: nat): nat {
    if n == 0 then v else 2 * Shift(v, n - 1)
  }

  lemma {:induction false} ShiftBounds(v: nat, n: nat)
    ensures v == 0 ==> Shift(v, n) == 0
    ensures v > 0 ==> Shift(v, n) >= Pow2(n)
  {
    if n > 0 {
      ShiftBounds(v, n - 1);
    }
  }

  lemma {:induction false} ValueOfConcat(s: string, t: string)
    ensures Value(s + t) == Shift(Value(s), |t|) + Value(t)
  {
    if t == "" {
      assert s + t == s;
    } else {
      ValueOfConcat(s, t[..|t| - 1]);
      assert (s + t)[..|s + t| - 1] == s + t[..|t| - 1];
    }
  }

  lemma {:induction false} ValueZero(s: string)
    ensures Value(s) == 0 <==> '1' !in s
  {
    if s != "" {
      ValueZero(s[..|s| - 1]);
      InitLast(s);
    }
  }

  lemma {:induction false} ZerosValue(n: nat)
    ensures Value(seq(n, _ => '0')) == 0 && IsBits(seq(n, _ => '0'))
  {
    var z := seq(n, _ => '0');
    ValueZero(z);
  }

  // ------------------------------------------------------------------------------ int2bin

  const HEX2BIN: seq<string> := ["0000", "0001", "0010", "0011", "0100", "0101", "0110", "0111",
                                 "1000", "1001", "1010", "1011", "1100", "1101", "1110", "1111"]

  lemma FourBits(a: char, b: char, c: char, d: char)
    ensures Value([a, b, c, d]) == 8 * Bit(a) + 4 * Bit(b) + 2 * Bit(c) + Bit(d)
  {
    assert [a][..0] == [] && Value([a]) == Bit(a);
    assert [a, b][..1] == [a] && Value([a, b]) == 2 * Bit(a) + Bit(b);
    assert [a, b, c][..2] == [a, b] && Value([a, b, c]) == 4 * Bit(a) + 2 * Bit(b) + Bit(c);
    assert [a, b, c, d][..3] == [a, b, c];
  }

  lemma HexTable(d: nat)
    requires d < 16
    ensures |HEX2BIN[d]| == 4 && IsBits(HEX2BIN[d]) && Value(HEX2BIN[d]) == d
  {
    var s := HEX2BIN[d];
    FourBits(s[0], s[1], s[2], s[3]);
    assert s == [s[0], s[1], s[2], s[3]];
  }

  /** The digits that hex() writes after its prefix. */
  function HexDigits(i: nat): seq<nat> {
    if i < 16 then [i] else HexDigits(i / 16) + [i % 16]
  }

  function HexBits(i: nat): string {
    if i < 16 then HEX2BIN[i] else HexBits(i / 16) + HEX2BIN[i % 16]
  }

  lemma ShiftByFour(v: nat)
    ensures Shift(v, 4) == 16 * v
  {
    assert Shift(v, 2) == 2 * Shift(v, 1) == 4 * v;
    assert Shift(v, 4) == 2 * Shift(v, 3) == 4 * Shift(v, 2);
  }

  lemma OneMoreHexDigit(s: string, d: nat)
    requires IsBits(s) && d < 16
    ensures IsBits(s + HEX2BIN[d]) && Value(s + HEX2BIN[d]) == 16 * Value(s) + d
  {
    HexTable(d);
    ValueOfConcat(s, HEX2BIN[d]);
    ShiftByFour(Value(s));
  }

  lemma {:induction false} HexBitsValue(i: nat)
    ensures IsBits(HexBits(i)) && Value(HexBits(i)) == i
  {
    if i < 16 {
      HexTable(i);
    } else {
      HexBitsValue(i / 16);
      OneMoreHexDigit(HexBits(i / 16), i % 16);
    }
  }

  /** Four bits for each hexadecimal digit, and no digit too many. */
  lemma HexBitsAre(i: nat)
    ensures HexBits(i) == BinString(i, |HexBits(i)|) && i < Pow2(|HexBits(i)|)
    ensures exists c :: |HexBits(i)| == 4 * c && NeedsDigits(i, c)
  {
    HexBitsValue(i);
    BinStringOfValue(HexBits(i));
    HexBitsWidth(i);
    DigitsNeeded(i);
  }

  /** The number has no fewer than c hexadecimal digits. */
  ghost predicate NeedsDigits(i: nat, c: nat) {
    c == 1 || (c > 1 && i >= Pow2(4 * (c - 1)))
  }

  ghost function HexCount(i: nat): nat {
    if i < 16 then 1 else HexCount(i / 16) + 1
  }

  lemma {:induction false} HexBitsWidth(i: nat)
    ensures |HexBits(i)| == 4 * HexCount(i)
  {
    if i < 16 {
      HexTable(i);
    } else {
      HexBitsWidth(i / 16);
      HexTable(i % 16);
    }
  }

  lemma {:induction false} DigitsNeeded(i: nat)
    ensures NeedsDigits(i, HexCount(i))
  {
    if i >= 16 {
      DigitsNeeded(i / 16);
      OneDigitMore(i, HexCount(i / 16));
    }
  }

  lemma OneDigitMore(i: nat, c: nat)
    requires i >= 16 && NeedsDigits(i / 16, c)
    ensures NeedsDigits(i, c + 1)
  {
    if c > 1 {
      PowByFour(4 * (c - 1));
    } else {
      FourthPower();
    }
  }

  lemma FourthPower()
    ensures Pow2(4) == 16
  {
    assert Pow2(2) == 2 * Pow2(1) == 4;
    assert Pow2(4) == 2 * Pow2(3) == 4 * Pow2(2);
  }

  lemma PowByFour(n: nat)
    ensures Pow2(n + 4) == 16 * Pow2(n)
  {
    assert Pow2(n + 2) == 2 * Pow2(n + 1) == 4 * Pow2(n);
    assert Pow2(n + 4) == 2 * Pow2(n + 3) == 4 * Pow2(n + 2);
  }

  lemma {:induction false} DigitsToBits(i: nat)
    ensures forall j :: 0 <= j < |HexDigits(i)| ==> HexDigits(i)[j] < 16
    ensures Joined(HexDigits(i)) == HexBits(i)
  {
    if i >= 16 {
      DigitsToBits(i / 16);
      AppendInit(HexDigits(i / 16), i % 16);
    } else {
      assert Joined([i]) == Joined([]) + HEX2BIN[i] == HEX2BIN[i];
    }
  }

  function Joined(digits: seq<nat>): string {
    if digits == [] then "" else
      var d := digits[|digits| - 1];
      Joined(digits[..|digits| - 1]) + if d < 16 then HEX2BIN[d] else ""
  }

  datatype BinResult = Text(text: string) | ValueError | KeyError

  /** Cutting to the last n bits loses something exactly when the value needs more than n bits. */
  lemma CutLoses(s: string, n: nat)
    requires IsBits(s) && n <= |s|
    ensures '1' in s[..|s| - n] <==> Value(s) >= Pow2(n)
    ensures '1' !in s[..|s| - n] ==> Value(s[|s| - n..]) == Value(s)
  {
    var a, b := s[..|s| - n], s[|s| - n..];
    assert s == a + b;
    HighPart(a, b);
    ValueZero(a);
  }

  /** Bits in front of the last ones count exactly when the value does not fit into the last ones. */
  lemma HighPart(a: string, b: string)
    requires IsBits(b)
    ensures Value(a) > 0 <==> Value(a + b) >= Pow2(|b|)
    ensures Value(a) == 0 ==> Value(a + b) == Value(b)
  {
    ValueOfConcat(a, b);
    ValueBound(b);
    ShiftBounds(Value(a), |b|);
  }

  lemma {:induction false} ValueBound(s: string)
    ensures Value(s) < Pow2(|s|)
  {
    if s != "" {
      ValueBound(s[..|s| - 1]);
    }
  }

  /** For n >= 1 bits; with n = 0 the slices of lines 100-104 keep the whole string. */
  method Int2Bin(i: int, n: nat) returns (r: BinResult)
    ensures r.KeyError? <==> i < 0
    ensures i >= 0 && n >= 1 ==> (r.ValueError? <==> i >= Pow2(n))
    ensures r.Text? && n >= 1 ==> r.text == BinString(i, n) && Value(r.text) == i
    ensures i >= 0 && n == 0 ==> r == Text(HexBits(i))
  {
    if i < 0 {
      return KeyError;
    }
    var digits, result := HexDigits(i), "";
    DigitsToBits(i);
    for j := 0 to |digits|
      invariant result == Joined(digits[..j])
    {
      assert digits[..j + 1][..j] == digits[..j];
      result := result + HEX2BIN[digits[j]];
    }
    assert digits[..|digits|] == digits;
    HexBitsValue(i);
    if n == 0 {
      return Text(result);
    }
    var cut := if n <= |result| then |result| - n else 0;
    CutOrKeep(result, n, cut);
    if '1' in result[..cut] {
      return ValueError;
    }
    result := result[cut..];
    var padding := seq(n - |result|, _ => '0');
    PaddedIsBinString(padding, result, n);
    return Text(padding + result);
  }

  lemma CutOrKeep(s: string, n: nat, cut: nat)
    requires IsBits(s) && cut == if n <= |s| then |s| - n else 0
    ensures IsBits(s[cut..]) && |s[cut..]| <= n
    ensures '1' in s[..cut] <==> Value(s) >= Pow2(n)
    ensures '1' !in s[..cut] ==> Value(s[cut..]) == Value(s)
  {
    if n <= |s| {
      CutLoses(s, n);
    } else {
      BinStringOfValue(s);
      PowGrows(|s|, n);
      assert s[cut..] == s;
    }
  }

  lemma PaddedIsBinString(padding: string, s: string, n: nat)
    requires IsBits(s) && |s| <= n && padding == seq(n - |s|, _ => '0')
    ensures BinString(Value(s), n) == padding + s && Value(padding + s) == Value(s)
  {
    ZerosValue(n - |s|);
    ValueOfConcat(padding, s);
    ShiftBounds(0, |s|);
    BinStringOfValue(padding + s);
  }

  lemma {:induction false} PowGrows(m: nat, n: nat)
    requires m <= n
    ensures Pow2(m) <= Pow2(n)
  {
    if m < n {
      PowGrows(m, n - 1);
    }
  }

  // ------------------------------------------------------------------------- gray_encode

  function Xor(a: nat, b: nat): nat {
    if a == 0 && b == 0 then 0 else 2 * Xor(a / 2, b / 2) + (a % 2 + b % 2) % 2
  }

  function GrayEncode(i: nat): nat {
    Xor(i, i / 2)
  }

  lemma GrayHalves(i: nat)
    ensures GrayEncode(i) / 2 == GrayEncode(i / 2) && GrayEncode(i) % 2 == (i % 2 + i / 2 % 2) % 2
  {
  }

  /** The strings differ at position i and nowhere else. */
  ghost predicate DifferOnlyAt(s: string, t: string, i: nat) {
    |s| == |t| && i < |s| && s[i] != t[i] && s[..i] == t[..i] && s[i + 1..] == t[i + 1..]
  }

  lemma DifferBeforeLast(s: string, t: string, c: char, i: nat)
    requires DifferOnlyAt(s, t, i)
    ensures DifferOnlyAt(s + [c], t + [c], i)
  {
    assert (s + [c])[..i] == s[..i] && (t + [c])[..i] == t[..i];
    assert (s + [c])[i + 1..] == s[i + 1..] + [c] && (t + [c])[i + 1..] == t[i + 1..] + [c];
  }

  lemma DifferAtLast(s: string, c: char, d: char)
    requires c != d
    ensures DifferOnlyAt(s + [c], s + [d], |s|)
  {
    assert (s + [c])[..|s|] == s && (s + [d])[..|s|] == s;
  }

  lemma NumbersDifferAtLast(g: nat, h: nat, n: nat)
    requires n > 0 && g / 2 == h / 2 && g % 2 != h % 2
    ensures DifferOnlyAt(BinString(g, n), BinString(h, n), n - 1)
  {
    BinStringLength(g / 2, n - 1);
    DifferAtLast(BinString(g / 2, n - 1), Digit(g % 2), Digit(h % 2));
  }

  lemma NumbersDifferBefore(g: nat, h: nat, n: nat, i: nat)
    requires n > 0 && g % 2 == h % 2 && DifferOnlyAt(BinString(g / 2, n - 1), BinString(h / 2, n - 1), i)
    ensures DifferOnlyAt(BinString(g, n), BinString(h, n), i)
  {
    DifferBeforeLast(BinString(g / 2, n - 1), BinString(h / 2, n - 1), Digit(g % 2), i);
  }

  /** An even step changes only the last bit; an odd step leaves it alone. */
  lemma GrayStep(k: nat)
    ensures GrayEncode(k) / 2 == GrayEncode(k / 2) && GrayEncode(k + 1) / 2 == GrayEncode((k + 1) / 2)
    ensures k % 2 == 0 <==> GrayEncode(k) % 2 != GrayEncode(k + 1) % 2
  {
    GrayHalves(k);
    GrayHalves(k + 1);
    Successor(k);
  }

  lemma Successor(k: nat)
    ensures if k % 2 == 0 then (k + 1) % 2 == 1 && (k + 1) / 2 == k / 2
      else (k + 1) % 2 == 0 && (k + 1) / 2 == k / 2 + 1
    ensures k % 2 == 1 ==> (k / 2 + 1) % 2 == 1 - k / 2 % 2
  {
  }

  /** Successive Gray codes differ in exactly one bit. */
  lemma {:induction false} GrayDiffersInOneBit(k: nat, n: nat) returns (i: nat)
    requires k + 1 < Pow2(n)
    ensures DifferOnlyAt(BinString(GrayEncode(k), n), BinString(GrayEncode(k + 1), n), i)
    decreases n
  {
    GrayStep(k);
    if k % 2 == 0 {
      i := n - 1;
      assert k / 2 == (k + 1) / 2;
      NumbersDifferAtLast(GrayEncode(k), GrayEncode(k + 1), n);
    } else {
      assert (k + 1) / 2 == k / 2 + 1 && k / 2 + 1 < Pow2(n - 1);
      i := GrayDiffersInOneBit(k / 2, n - 1);
      NumbersDifferBefore(GrayEncode(k), GrayEncode(k + 1), n, i);
    }
  }

  lemma {:induction false} BinStringLength(k: nat, n: nat)
    ensures |BinString(k, n)| == n
  {
    if n > 0 {
      BinStringLength(k / 2, n - 1);
    }
  }

  /** Gray codes stay within the same number of bits, and no two numbers share one. */
  lemma {:induction false} GrayFits(k: nat, n: nat)
    requires k < Pow2(n)
    ensures GrayEncode(k) < Pow2(n)
  {
    if n > 0 {
      GrayHalves(k);
      GrayFits(k / 2, n - 1);
    }
  }

  lemma {:induction false} GrayInjective(j: nat, k: nat)
    requires GrayEncode(j) == GrayEncode(k)
    ensures j == k
    decreases j + k
  {
    GrayHalves(j);
    GrayHalves(k);
    if j + k > 0 {
      if j / 2 + k / 2 < j + k {
        GrayInjective(j / 2, k / 2);
      }
    }
  }

  // ------------------------------------------------------------------------ binary_range

  /** The number a list of bits denotes, least significant bit first. */
  function LowFirst(v: string): nat {
    if v == [] then 0 else Bit(v[0]) + 2 * LowFirst(v[1..])
  }

  function Reversed(v: string): string {
    if v == [] then [] else Reversed(v[1..]) + [v[0]]
  }

  lemma {:induction false} ReversedValue(v: string)
    requires IsBits(v)
    ensures |Reversed(v)| == |v| && IsBits(Reversed(v)) && Value(Reversed(v)) == LowFirst(v)
  {
    if v != [] {
      ReversedValue(v[1..]);
      AppendInit(Reversed(v[1..]), v[0]);
    }
  }

  lemma {:induction false} FlipBit(v: string, i: nat, c: char)
    requires i < |v|
    ensures LowFirst(v[i := c]) + Bit(v[i]) * Pow2(i) == LowFirst(v) + Bit(c) * Pow2(i)
  {
    var w := v[i := c];
    if i == 0 {
      assert w[1..] == v[1..];
    } else {
      FlipBit(v[1..], i - 1, c);
      assert w[1..] == v[1..][i - 1 := c];
    }
  }

  lemma {:induction false} LowFirstBound(v: string)
    ensures LowFirst(v) < Pow2(|v|)
  {
    if v != [] {
      LowFirstBound(v[1..]);
    }
  }

  lemma ReversedIsBinString(v: string)
    requires IsBits(v)
    ensures Reversed(v) == BinString(LowFirst(v), |v|) && LowFirst(v) < Pow2(|v|)
  {
    LowFirstBound(v);
    ReversedValue(v);
    BinStringOfValue(Reversed(v));
  }

  function Zeros(n: nat): seq<nat> {
    seq(n, _ => 0)
  }

  /** Lines 649-659: add one by rippling the carry; toggle[bits] is set when it runs off the end. */
  method Increment(bits: nat, before: string) returns (v: string, toggle: seq<nat>)
    requires |before| == bits && IsBits(before)
    ensures |v| == bits && IsBits(v) && |toggle| == bits + 1 && toggle[bits] <= 1
    ensures LowFirst(v) + (if toggle[bits] == 1 then Pow2(bits) else 0) == LowFirst(before) + 1
  {
    v, toggle := before, [1] + Zeros(bits);
    var i := 0;
    while i < bits && toggle[i] == 1
      invariant i <= bits && |v| == bits && IsBits(v) && |toggle| == bits + 1 && toggle[i] <= 1
      invariant forall j :: i < j <= bits ==> toggle[j] == 0
      invariant LowFirst(v) + (if toggle[i] == 1 then Pow2(i) else 0) == LowFirst(before) + 1
    {
      if v[i] == '0' {
        FlipBit(v, i, '1');
        v := v[i := '1'];
        toggle := toggle[i + 1 := 0];
      } else {
        FlipBit(v, i, '0');
        v := v[i := '0'];
        toggle := toggle[i + 1 := 1];
      }
      i := i + 1;
    }
  }

  /** All strings of the given width, in order; with no bits the loop is never entered. */
  method BinaryRange(bits: nat) returns (l: seq<string>)
    ensures bits >= 1 ==> |l| == Pow2(bits) && forall k :: 0 <= k < |l| ==> l[k] == BinString(k, bits)
    ensures bits == 0 ==> l == []
  {
    l := [];
    var v := seq(bits, _ => '0');
    var toggle := [1] + Zeros(bits);
    ZerosLowFirst(bits);
    while toggle[bits] != 1
      invariant |v| == bits && IsBits(v) && |toggle| == bits + 1 && toggle[bits] <= 1
      invariant bits == 0 ==> l == [] && toggle[bits] == 1
      invariant |l| <= Pow2(bits) && forall k :: 0 <= k < |l| ==> l[k] == BinString(k, bits)
      invariant bits >= 1 ==> |l| == if toggle[bits] == 1 then Pow2(bits) else LowFirst(v)
      decreases Pow2(bits) - |l|
    {
      ReversedIsBinString(v);
      l := l + [Reversed(v)];
      v, toggle := Increment(bits, v);
      LowFirstBound(v);
    }
  }

  lemma {:induction false} ZerosLowFirst(n: nat)
    ensures LowFirst(seq(n, _ => '0')) == 0
  {
    if n > 0 {
      ZerosLowFirst(n - 1);
      assert seq(n, _ => '0')[1..] == seq(n - 1, _ => '0');
    }
  }
}
