/**
 Two formatters of integer amounts as decimal numbers, and the specification both meet:
 the unique canonical decimal with the value of the amount.
 */
module TokenAmount {
  import opened Wrappers
  import opened Decimal

  const U64_RANGE: nat := 0x1_0000_0000_0000_0000

  type u8 = n: nat | n < 0x100
  type u64 = n: nat | n < U64_RANGE

  datatype Outcome<+T> = Returned(value: T) | Panicked

  /** `str::trim_end_matches` with one character. */
  function TrimEnd(s: string, c: char): (t: string)
    ensures |t| <= |s| && t == s[..|t|]
    ensures t != [] ==> t[|t| - 1] != c
    ensures forall i :: |t| <= i < |s| ==> s[i] == c
  {
    if s != [] && s[|s| - 1] == c then TrimEnd(s[..|s| - 1], c) else s
  }

  // ----- format_token_amount

  /** `10_u64.pow(decimals)`: past 64 bits it panics, or wraps when checks are compiled out. */
  function Divisor(decimals: u8, overflowChecks: bool): Outcome<nat> {
    if Pow10(decimals) < U64_RANGE then Returned(Pow10(decimals))
    else if overflowChecks then Panicked
    else Returned(Pow10(decimals) % U64_RANGE)
  }

  function Whole(amount: nat, divisor: nat): nat
    requires divisor > 0
  {
    amount / divisor
  }

  function Fractional(amount: nat, divisor: nat): (r: nat)
    requires divisor > 0
    ensures r < divisor
  {
    amount % divisor
  }

  function FormatWith(amount: nat, divisor: nat, decimals: nat): string
    requires divisor > 0
  {
    var whole := Whole(amount, divisor);
    var fractional := Fractional(amount, divisor);
    if fractional == 0 then Show(whole)
    else
      var trimmed := TrimEnd(ZeroPadded(fractional, decimals), '0');
      if trimmed == [] then Show(whole) else Show(whole) + ['.'] + trimmed
  }

  function FormatTokenAmount(amount: u64, decimals: u8, overflowChecks: bool): Outcome<string> {
    match Divisor(decimals, overflowChecks)
    case Panicked => Panicked
    case Returned(divisor) =>
      if divisor == 0 then Panicked else Returned(FormatWith(amount, divisor, decimals))
  }

  // ----- format_ether and format_gwei

  /** `format_units`: whole part, point, fraction padded with zeros to the unit's width. */
  function FormatUnits(amount: nat, units: nat): string {
    Show(Whole(amount, Pow10(units))) + ['.'] + ZeroPadded(Fractional(amount, Pow10(units)), units)
  }

  function TrimTrailingZeros(s: string): string {
    if '.' in s then TrimEnd(TrimEnd(s, '0'), '.') else s
  }

  function FormatEther(wei: nat): string {
    TrimTrailingZeros(FormatUnits(wei, 18))
  }

  function FormatGwei(wei: nat): string {
    TrimTrailingZeros(FormatUnits(wei, 9))
  }

  // ----- specification: what a decimal says, in units of 10^-decimals

  function PointIndex(s: string): (i: nat)
    ensures i <= |s|
    ensures forall k :: 0 <= k < i ==> s[k] != '.'
    ensures i < |s| ==> s[i] == '.'
  {
    if s == [] || s[0] == '.' then 0 else 1 + PointIndex(s[1..])
  }

  /** The value times `10^decimals`, when that is a natural number in plain notation. */
  function ParseUnits(s: string, decimals: nat): Option<nat> {
    var i := PointIndex(s);
    if i == 0 || !AllDigits(s[..i]) then None
    else if i == |s| then Some(Value(s[..i]) * Pow10(decimals))
    else
      var fraction := s[i + 1..];
      if fraction == [] || !AllDigits(fraction) || |fraction| > decimals then None
      else Some(Value(s[..i]) * Pow10(decimals) + Value(fraction) * Pow10(decimals - |fraction|))
  }

  /** No superfluous digit: no leading zero, no trailing zero after a point. */
  predicate IsCanonicalDecimal(s: string, decimals: nat) {
    var i := PointIndex(s);
    && IsCanonicalInteger(s[..i])
    && (i < |s| ==> var f := s[i + 1..]; f != [] && AllDigits(f) && |f| <= decimals && f[|f| - 1] != '0')
  }

  // ----- arithmetic

  lemma Quotient(v: nat, d: nat, r: nat)
    requires r < d
    ensures Whole(v * d + r, d) == v && Fractional(v * d + r, d) == r
  {
    var n := v * d + r;
    Recompose(n, d);
    Unique(d, v, r, Whole(n, d), Fractional(n, d));
  }

  lemma {:induction false} NextMultiple(d: nat, v: nat, v': nat)
    requires v < v'
    ensures v * d + d <= v' * d
    decreases v'
  {
    assert (v' - 1) * d + d == v' * d;
    if v < v' - 1 {
      NextMultiple(d, v, v' - 1);
    }
  }

  lemma Unique(d: nat, v: nat, r: nat, v': nat, r': nat)
    requires r < d && r' < d && v * d + r == v' * d + r'
    ensures v == v' && r == r'
  {
    if v < v' {
      NextMultiple(d, v, v');
    } else if v > v' {
      NextMultiple(d, v', v);
    }
  }

  lemma Recompose(a: nat, d: nat)
    requires d > 0
    ensures Whole(a, d) * d + Fractional(a, d) == a
  {
  }

  // ----- text

  lemma PointAfterDigits(w: string, f: string)
    requires AllDigits(w)
    ensures PointIndex(w) == |w|
    ensures PointIndex(w + ['.'] + f) == |w|
  {
    var s := w + ['.'] + f;
    assert s[|w|] == '.';
    assert forall k :: 0 <= k < |w| ==> s[k] == w[k];
  }

  lemma TrimmedZeros(s: string)
    ensures s == TrimEnd(s, '0') + Zeros(|s| - |TrimEnd(s, '0')|)
  {
  }

  /** A prefix that ends in another character followed by copies of `c` is trimmed to the prefix. */
  lemma {:induction false} TrimBack(s: string, k: nat, c: char)
    requires s != [] ==> s[|s| - 1] != c
    ensures TrimEnd(s + seq(k, _ => c), c) == s
  {
    var t := s + seq(k, _ => c);
    if k == 0 {
      assert t == s;
    } else {
      assert t[..|t| - 1] == s + seq(k - 1, _ => c);
      TrimBack(s, k - 1, c);
    }
  }

  lemma TrimZeros(s: string, k: nat)
    requires s != [] ==> s[|s| - 1] != '0'
    ensures TrimEnd(s + Zeros(k), '0') == s
  {
    TrimBack(s, k, '0');
    assert s + Zeros(k) == s + seq(k, _ => '0');
  }

  /** Trailing zeros scale the value. */
  lemma TrailingZeros(f: string, k: nat)
    requires AllDigits(f)
    ensures Value(f + Zeros(k)) == Value(f) * Pow10(k)
  {
    ValueAppend(f, Zeros(k));
    ValueOfZeros(k);
  }

  /** The fraction printed with trailing zeros removed: digits, value, and never empty. */
  lemma TrimmedFraction(fractional: nat, decimals: nat)
    requires 0 < fractional < Pow10(decimals)
    ensures var t := TrimEnd(ZeroPadded(fractional, decimals), '0');
            && t != [] && AllDigits(t) && |t| <= decimals && t[|t| - 1] != '0'
            && Value(t) * Pow10(decimals - |t|) == fractional
  {
    PaddedValue(fractional, decimals);
    var p := ZeroPadded(fractional, decimals);
    var t := TrimEnd(p, '0');
    TrimmedZeros(p);
    TrailingZeros(t, |p| - |t|);
  }

  // ----- what is printed

  /** The branch for an empty trimmed fraction is dead. */
  lemma TrimmedIsNeverEmpty(amount: nat, divisor: nat, decimals: nat)
    requires 0 < divisor <= Pow10(decimals) && Fractional(amount, divisor) != 0
    ensures TrimEnd(ZeroPadded(Fractional(amount, divisor), decimals), '0') != []
  {
    TrimmedFraction(Fractional(amount, divisor), decimals);
  }

  lemma ParseParts(w: string, f: string, decimals: nat, v: nat)
    requires w != [] && AllDigits(w) && f != [] && AllDigits(f) && |f| <= decimals
    requires v == Value(w) * Pow10(decimals) + Value(f) * Pow10(decimals - |f|)
    ensures ParseUnits(w + ['.'] + f, decimals) == Some(v)
  {
    var s := w + ['.'] + f;
    PointAfterDigits(w, f);
    assert s[..|w|] == w && s[|w| + 1..] == f;
  }

  lemma CanonicalParts(w: string, f: string, decimals: nat)
    requires IsCanonicalInteger(w)
    ensures IsCanonicalDecimal(w, decimals)
    ensures f != [] && AllDigits(f) && |f| <= decimals && f[|f| - 1] != '0'
            ==> IsCanonicalDecimal(w + ['.'] + f, decimals)
  {
    var s := w + ['.'] + f;
    PointAfterDigits(w, f);
    assert s[..|w|] == w && s[|w| + 1..] == f;
    assert w[..|w|] == w;
  }

  /** With any divisor up to `10^decimals` the text is canonical, and this is its value. */
  lemma FormatWithValue(amount: nat, divisor: nat, decimals: nat, v: nat)
    requires 0 < divisor <= Pow10(decimals)
    requires v == Whole(amount, divisor) * Pow10(decimals) + Fractional(amount, divisor)
    ensures ParseUnits(FormatWith(amount, divisor, decimals), decimals) == Some(v)
    ensures IsCanonicalDecimal(FormatWith(amount, divisor, decimals), decimals)
  {
    var w := Show(Whole(amount, divisor));
    ValueOfShow(Whole(amount, divisor));
    if Fractional(amount, divisor) == 0 {
      CanonicalParts(w, [], decimals);
      WholeOnly(w, decimals, v);
    } else {
      FractionText(w, Fractional(amount, divisor), decimals, v);
    }
  }

  lemma FractionText(w: string, r: nat, decimals: nat, v: nat)
    requires IsCanonicalInteger(w) && 0 < r < Pow10(decimals)
    requires v == Value(w) * Pow10(decimals) + r
    ensures var s := w + ['.'] + TrimEnd(ZeroPadded(r, decimals), '0');
            ParseUnits(s, decimals) == Some(v) && IsCanonicalDecimal(s, decimals)
    ensures TrimEnd(ZeroPadded(r, decimals), '0') != []
  {
    var t := TrimEnd(ZeroPadded(r, decimals), '0');
    TrimmedFraction(r, decimals);
    ParseParts(w, t, decimals, v);
    CanonicalParts(w, t, decimals);
  }

  lemma WholeOnly(w: string, decimals: nat, v: nat)
    requires w != [] && AllDigits(w) && v == Value(w) * Pow10(decimals)
    ensures ParseUnits(w, decimals) == Some(v)
  {
    PointAfterDigits(w, []);
    assert w[..|w|] == w;
  }

  /** Dividing by `10^decimals` prints the amount exactly. */
  lemma FormatIsExact(amount: nat, decimals: nat)
    ensures ParseUnits(FormatWith(amount, Pow10(decimals), decimals), decimals) == Some(amount)
    ensures IsCanonicalDecimal(FormatWith(amount, Pow10(decimals), decimals), decimals)
  {
    Recompose(amount, Pow10(decimals));
    FormatWithValue(amount, Pow10(decimals), decimals, amount);
  }

  /** The fraction printed with trailing zeros removed gives back the digits it came from. */
  lemma FractionBack(f: string, decimals: nat, r: nat)
    requires f != [] && AllDigits(f) && |f| <= decimals && f[|f| - 1] != '0'
    requires r == Value(f) * Pow10(decimals - |f|)
    ensures 0 < r < Pow10(decimals) && TrimEnd(ZeroPadded(r, decimals), '0') == f
  {
    var k := decimals - |f|;
    TrailingZeros(f, k);
    ValueBound(f + Zeros(k));
    NonZeroValue(f);
    PositiveProduct(Value(f), Pow10(k));
    PaddedValue(r, decimals);
    ValueIsInjective(ZeroPadded(r, decimals), f + Zeros(k));
    TrimZeros(f, k);
  }

  /** Whole part and digits of the fraction determine the text. */
  lemma FormatOfParts(w: string, f: string, decimals: nat, amount: nat)
    requires IsCanonicalInteger(w)
    requires f != [] && AllDigits(f) && |f| <= decimals && f[|f| - 1] != '0'
    requires amount == Value(w) * Pow10(decimals) + Value(f) * Pow10(decimals - |f|)
    ensures FormatWith(amount, Pow10(decimals), decimals) == w + ['.'] + f
  {
    var r := Value(f) * Pow10(decimals - |f|);
    FractionBack(f, decimals, r);
    Quotient(Value(w), Pow10(decimals), r);
    ShowOfValue(w);
  }

  lemma FormatOfWhole(w: string, decimals: nat, amount: nat)
    requires IsCanonicalInteger(w) && amount == Value(w) * Pow10(decimals)
    ensures FormatWith(amount, Pow10(decimals), decimals) == w
  {
    Quotient(Value(w), Pow10(decimals), 0);
    ShowOfValue(w);
  }

  lemma PositiveProduct(a: nat, b: nat)
    requires a > 0 && b > 0
    ensures a * b > 0
  {
  }

  /** No other canonical decimal has the value: formatting undoes reading. */
  lemma FormatIsUnique(s: string, amount: nat, decimals: nat)
    requires IsCanonicalDecimal(s, decimals) && ParseUnits(s, decimals) == Some(amount)
    ensures FormatWith(amount, Pow10(decimals), decimals) == s
  {
    var i := PointIndex(s);
    if i == |s| {
      assert s[..i] == s;
      FormatOfWhole(s, decimals, amount);
    } else {
      FormatOfParts(s[..i], s[i + 1..], decimals, amount);
    }
  }

  lemma NonZeroValue(f: string)
    requires f != [] && AllDigits(f) && f[|f| - 1] != '0'
    ensures Value(f) > 0
  {
  }

  /** Being printed for an amount is the same as being canonical with its value. */
  lemma FormatCharacterized(s: string, amount: nat, decimals: nat)
    ensures s == FormatWith(amount, Pow10(decimals), decimals) <==>
            IsCanonicalDecimal(s, decimals) && ParseUnits(s, decimals) == Some(amount)
  {
    FormatIsExact(amount, decimals);
    if IsCanonicalDecimal(s, decimals) && ParseUnits(s, decimals) == Some(amount) {
      FormatIsUnique(s, amount, decimals);
    }
  }

  // ----- the 64-bit bound

  lemma PowersOfTen()
    ensures Pow10(19) == 10_000_000_000_000_000_000
    ensures Pow10(20) == 100_000_000_000_000_000_000
  {
    assert Pow10(5) == 100_000;
    assert Pow10(10) == 10_000_000_000;
    assert Pow10(15) == 1_000_000_000_000_000;
  }

  lemma {:induction false} Pow10Monotone(a: nat, b: nat)
    requires a <= b
    ensures Pow10(a) <= Pow10(b)
    decreases b - a
  {
    if a < b {
      Pow10Monotone(a + 1, b);
    }
  }

  /** The power fits 64 bits up to 19 decimals and no further. */
  lemma DivisorFits(decimals: u8)
    ensures Pow10(decimals) < U64_RANGE <==> decimals <= 19
  {
    PowersOfTen();
    if decimals <= 19 {
      Pow10Monotone(decimals, 19);
    } else {
      Pow10Monotone(20, decimals);
    }
  }

  /** Up to 19 decimals, in either build, the function is the exact canonical format. */
  lemma TokenAmountIsExact(amount: u64, decimals: u8, overflowChecks: bool, s: string)
    requires decimals <= 19
    ensures FormatTokenAmount(amount, decimals, overflowChecks) == Returned(s) <==>
            IsCanonicalDecimal(s, decimals) && ParseUnits(s, decimals) == Some(amount)
  {
    DivisorFits(decimals);
    FormatCharacterized(s, amount, decimals);
  }

  /** With any divisor up to `10^decimals` different amounts print differently. */
  lemma FormatWithIsInjective(a: nat, b: nat, divisor: nat, decimals: nat)
    requires 0 < divisor <= Pow10(decimals)
    requires FormatWith(a, divisor, decimals) == FormatWith(b, divisor, decimals)
    ensures a == b
  {
    var qa, qb := Whole(a, divisor), Whole(b, divisor);
    var ra, rb := Fractional(a, divisor), Fractional(b, divisor);
    FormatWithValue(a, divisor, decimals, Scaled(qa, Pow10(decimals), ra));
    FormatWithValue(b, divisor, decimals, Scaled(qb, Pow10(decimals), rb));
    Unique(Pow10(decimals), qa, ra, qb, rb);
    Recompose(a, divisor);
    Recompose(b, divisor);
  }

  /** The divisor of every text that is printed is positive and at most the power of ten. */
  lemma DivisorBound(amount: u64, decimals: u8, overflowChecks: bool)
    requires FormatTokenAmount(amount, decimals, overflowChecks).Returned?
    ensures var d := Divisor(decimals, overflowChecks).value;
            && 0 < d <= Pow10(decimals)
            && FormatTokenAmount(amount, decimals, overflowChecks) == Returned(FormatWith(amount, d, decimals))
  {
  }

  /** The function panics from 20 decimals on with overflow checks, from 64 on without. */
  lemma PanicsIff(amount: u64, decimals: u8, overflowChecks: bool)
    ensures FormatTokenAmount(amount, decimals, overflowChecks).Panicked? <==>
            decimals >= if overflowChecks then 20 else 64
  {
    DivisorFits(decimals);
    WrapsToZero(decimals);
  }

  /** In both builds, wherever a text is printed it determines the amount. */
  lemma TokenAmountIsInjective(a: u64, b: u64, decimals: u8, overflowChecks: bool)
    ensures FormatTokenAmount(a, decimals, overflowChecks) == FormatTokenAmount(b, decimals, overflowChecks) <==>
            a == b || decimals >= if overflowChecks then 20 else 64
  {
    PanicsIff(a, decimals, overflowChecks);
    PanicsIff(b, decimals, overflowChecks);
    if FormatTokenAmount(a, decimals, overflowChecks).Returned? {
      DivisorBound(a, decimals, overflowChecks);
      DivisorBound(b, decimals, overflowChecks);
      if FormatTokenAmount(a, decimals, overflowChecks) == FormatTokenAmount(b, decimals, overflowChecks) {
        FormatWithIsInjective(a, b, Divisor(decimals, overflowChecks).value, decimals);
      }
    }
  }

  lemma CheckedBuildPanics(amount: u64, decimals: u8)
    ensures FormatTokenAmount(amount, decimals, true).Panicked? <==> decimals >= 20
  {
    DivisorFits(decimals);
  }

  /**
   Without overflow checks the power wraps: past 19 decimals the text is exact only for
   amounts below the wrapped power, and there is no text when the power wraps to zero.
   */
  lemma WrappingBuildIsInexact(amount: u64, decimals: u8)
    requires decimals >= 20
    ensures var wrapped := Pow10(decimals) % U64_RANGE;
            var r := FormatTokenAmount(amount, decimals, false);
            && (r.Panicked? <==> wrapped == 0)
            && (r.Returned? ==> (ParseUnits(r.value, decimals) == Some(amount) <==> amount < wrapped))
  {
    DivisorFits(decimals);
    var wrapped := Pow10(decimals) % U64_RANGE;
    if wrapped > 0 {
      SmallDivisor(amount, wrapped, decimals);
    }
  }

  /** With a divisor below `10^decimals` only smaller amounts are printed exactly. */
  lemma SmallDivisor(amount: nat, d: nat, decimals: nat)
    requires 0 < d < Pow10(decimals)
    ensures ParseUnits(FormatWith(amount, d, decimals), decimals) == Some(amount) <==> amount < d
  {
    var v := Scaled(Whole(amount, d), Pow10(decimals), Fractional(amount, d));
    ExactWhenSmall(amount, d, Pow10(decimals), v);
    FormatWithValue(amount, d, decimals, v);
  }

  function Scaled(q: nat, e: nat, r: nat): nat {
    q * e + r
  }

  lemma ExactWhenSmall(amount: nat, d: nat, e: nat, v: nat)
    requires 0 < d < e && v == Whole(amount, d) * e + Fractional(amount, d)
    ensures v == amount <==> amount < d
  {
    Recompose(amount, d);
    ScaledQuotient(Whole(amount, d), d, e);
    if amount < d {
      Quotient(0, d, amount);
    }
  }

  lemma ScaledQuotient(q: nat, d: nat, e: nat)
    requires d < e
    ensures q * e == q * d <==> q == 0
  {
    if q > 0 {
      assert q * e == q * d + q * (e - d);
      assert q * (e - d) >= 1;
    }
  }

  function Pow2(k: nat): nat {
    if k == 0 then 1 else 2 * Pow2(k - 1)
  }

  function Pow5(k: nat): nat {
    if k == 0 then 1 else 5 * Pow5(k - 1)
  }

  lemma {:induction false} TenIsTwoTimesFive(k: nat)
    ensures Pow10(k) == Pow2(k) * Pow5(k)
  {
    if k > 0 {
      TenIsTwoTimesFive(k - 1);
      Interchange(Pow2(k - 1), Pow5(k - 1));
    }
  }

  lemma {:induction false} Pow5IsOdd(k: nat)
    ensures Pow5(k) % 2 == 1
  {
    if k > 0 {
      Pow5IsOdd(k - 1);
    }
  }

  lemma Interchange(a: nat, b: nat)
    ensures 10 * (a * b) == (2 * a) * (5 * b)
  {
    assert (2 * a) * (5 * b) == 2 * (a * (5 * b));
    assert a * (5 * b) == 5 * (a * b);
  }

  lemma {:induction false} Pow2Add(a: nat, b: nat)
    ensures Pow2(a + b) == Pow2(a) * Pow2(b)
  {
    if a > 0 {
      Pow2Add(a - 1, b);
      MulAssoc(2, Pow2(a - 1), Pow2(b));
    }
  }

  lemma RangeIsPow2()
    ensures Pow2(64) == U64_RANGE
  {
    assert Pow2(4) == 16;
    Pow2Add(4, 4);
    Pow2Add(8, 8);
    Pow2Add(16, 16);
    Pow2Add(32, 32);
  }

  lemma WrapsFrom64(decimals: nat)
    requires decimals >= 64
    ensures Pow10(decimals) % U64_RANGE == 0
  {
    RangeIsPow2();
    TenIsTwoTimesFive(decimals);
    Pow2Add(64, decimals - 64);
    MulAssoc(U64_RANGE, Pow2(decimals - 64), Pow5(decimals));
    MultipleOf(U64_RANGE, Pow2(decimals - 64) * Pow5(decimals));
  }

  /** An odd number times a small power of two is no multiple of 2^64. */
  lemma NoMultipleBefore64(decimals: nat, q: nat)
    requires decimals < 64
    ensures Pow2(decimals) * Pow5(decimals) != Pow2(64) * q
  {
    var high := Pow2(63 - decimals);
    Pow2Add(decimals, 64 - decimals);
    assert Pow2(64 - decimals) == 2 * high;
    MulAssoc(Pow2(decimals), 2 * high, q);
    PositivePow2(decimals);
    EvenProduct(high, q);
    Pow5IsOdd(decimals);
    if Pow2(decimals) * Pow5(decimals) == Pow2(decimals) * (2 * high * q) {
      Cancel(Pow2(decimals), Pow5(decimals), 2 * high * q);
    }
  }

  /** The power wraps to zero from 64 decimals on and never before. */
  lemma WrapsToZero(decimals: u8)
    ensures Pow10(decimals) % U64_RANGE == 0 <==> decimals >= 64
  {
    if decimals >= 64 {
      WrapsFrom64(decimals);
    } else {
      RangeIsPow2();
      TenIsTwoTimesFive(decimals);
      NoMultipleBefore64(decimals, Pow10(decimals) / U64_RANGE);
    }
  }

  lemma MultipleOf(d: nat, q: nat)
    requires d > 0
    ensures (d * q) % d == 0
  {
    Quotient(q, d, 0);
  }

  lemma {:induction false} PositivePow2(k: nat)
    ensures Pow2(k) > 0
  {
    if k > 0 {
      PositivePow2(k - 1);
    }
  }

  lemma Cancel(a: nat, b: nat, c: nat)
    requires a > 0 && a * b == a * c
    ensures b == c
  {
  }

  lemma EvenProduct(a: nat, b: nat)
    ensures (2 * a * b) % 2 == 0
  {
    assert 2 * a * b == 2 * (a * b);
  }

  // ----- the two implementations agree

  lemma TrimmedZero(units: nat)
    requires units > 0
    ensures TrimEnd(ZeroPadded(0, units), '0') == []
  {
    assert ZeroPadded(0, units) == [] + Zeros(units);
    TrimZeros([], units);
  }

  /** Trimming a whole part, a point and any digits. */
  lemma TrimmedText(w: string, p: string)
    requires w != [] && AllDigits(w)
    ensures TrimTrailingZeros(w + ['.'] + p)
         == if TrimEnd(p, '0') == [] then w else TrimEnd(w + ['.'] + TrimEnd(p, '0'), '.')
  {
    var t := TrimEnd(p, '0');
    assert (w + ['.'] + p)[|w|] == '.';
    TrimmedZeros(p);
    assert w + ['.'] + p == (w + ['.'] + t) + Zeros(|p| - |t|);
    TrimZeros(w + ['.'] + t, |p| - |t|);
    if t == [] {
      LonePoint(w);
    }
  }

  lemma LonePoint(w: string)
    requires w != [] && AllDigits(w)
    ensures TrimEnd(w + ['.'] + [], '.') == w
  {
    assert w + ['.'] + [] == w + seq(1, _ => '.');
    TrimBack(w, 1, '.');
  }

  /** Trimming the fixed-width text of `format_units` gives the other formatter's text. */
  lemma TrimmedUnits(amount: nat, units: nat)
    requires units > 0
    ensures TrimTrailingZeros(FormatUnits(amount, units)) == FormatWith(amount, Pow10(units), units)
  {
    var w := Show(Whole(amount, Pow10(units)));
    var fractional := Fractional(amount, Pow10(units));
    var t := TrimEnd(ZeroPadded(fractional, units), '0');
    TrimmedText(w, ZeroPadded(fractional, units));
    if fractional == 0 {
      TrimmedZero(units);
    } else {
      TrimmedFraction(fractional, units);
      assert TrimEnd(w + ['.'] + t, '.') == w + ['.'] + t;
    }
  }

  lemma AgreeAt(amount: u64, units: u8, overflowChecks: bool)
    requires 0 < units <= 19
    ensures FormatTokenAmount(amount, units, overflowChecks)
         == Returned(TrimTrailingZeros(FormatUnits(amount, units)))
  {
    DivisorFits(units);
    TrimmedUnits(amount, units);
  }

  /** The two formatters agree on every 64-bit amount, for ether and for gwei. */
  lemma FormattersAgree(amount: u64, overflowChecks: bool)
    ensures FormatTokenAmount(amount, 18, overflowChecks) == Returned(FormatEther(amount))
    ensures FormatTokenAmount(amount, 9, overflowChecks) == Returned(FormatGwei(amount))
  {
    AgreeAt(amount, 18, overflowChecks);
    AgreeAt(amount, 9, overflowChecks);
  }

  lemma UnitsAreExact(amount: nat, units: nat)
    requires units > 0
    ensures ParseUnits(FormatUnits(amount, units), units) == Some(amount)
  {
    var w := Show(Whole(amount, Pow10(units)));
    var f := ZeroPadded(Fractional(amount, Pow10(units)), units);
    ValueOfShow(Whole(amount, Pow10(units)));
    PaddedValue(Fractional(amount, Pow10(units)), units);
    Recompose(amount, Pow10(units));
    assert Pow10(units - |f|) == 1;
    ParseParts(w, f, units, amount);
  }

  /** Trimming never changes the value: both texts of any amount denote it exactly. */
  lemma TrimmingKeepsValue(amount: nat, units: nat)
    requires units > 0
    ensures ParseUnits(FormatUnits(amount, units), units) == Some(amount)
    ensures ParseUnits(TrimTrailingZeros(FormatUnits(amount, units)), units) == Some(amount)
  {
    UnitsAreExact(amount, units);
    TrimmedUnits(amount, units);
    FormatIsExact(amount, units);
  }

  /** Ether and gwei of any amount: the canonical decimal with its value. */
  lemma EtherIsExact(wei: nat, s: string)
    ensures s == FormatEther(wei) <==> IsCanonicalDecimal(s, 18) && ParseUnits(s, 18) == Some(wei)
    ensures s == FormatGwei(wei) <==> IsCanonicalDecimal(s, 9) && ParseUnits(s, 9) == Some(wei)
  {
    TrimmedUnits(wei, 18);
    TrimmedUnits(wei, 9);
    FormatCharacterized(s, wei, 18);
    FormatCharacterized(s, wei, 9);
  }
}
