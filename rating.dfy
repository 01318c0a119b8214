/**
 * `starify_rating`: a rating text such as "7/10" becomes a row of
 * FontAwesome star glyphs wrapped in a `<font>` tag.
 *
 * The numerator is the text before the first '/'. Python's `float()`
 * is modelled for plain decimal numerals only: surrounding whitespace,
 * an optional sign, digits, and an optional '.' with more digits. The
 * value is kept exact, as digit strings, rather than as a binary double.
 */
module StarRating {
  import opened Wrappers
  import opened PyStr

  /** U+F005, FontAwesome's full star. */
  const FullStar: char := '\U{f005}'
  /** U+F089, FontAwesome's half star. */
  const HalfStar: char := '\U{f089}'
  const FontOpen: string := "<font face=\"FontAwesome\">"
  const FontClose: string := "</font>"

  // ---------------------------------------------------------------------
  // Decimal numerals, as float() reads them

  datatype Sign = Unsigned | Plus | Minus

  /** A decimal numeral, kept as written: sign, digits before and after the point. */
  datatype Numeral = Numeral(sign: Sign, whole: string, point: bool, frac: string)

  predicate IsDigit(ch: char)
  {
    '0' <= ch <= '9'
  }

  predicate AllDigits(s: string)
  {
    forall i | 0 <= i < |s| :: IsDigit(s[i])
  }

  /** At least one digit, only digits, and fraction digits only after a point. */
  predicate WellFormed(n: Numeral)
  {
    && AllDigits(n.whole) && AllDigits(n.frac)
    && |n.whole| + |n.frac| > 0
    && (!n.point ==> n.frac == "")
  }

  function SignText(sign: Sign): string
  {
    match sign
    case Unsigned => ""
    case Plus => "+"
    case Minus => "-"
  }

  /** The text of a numeral. */
  function Format(n: Numeral): string
  {
    SignText(n.sign) + Body(n)
  }

  /** The body of a numeral: the digits, and the fraction after a point. */
  function Body(n: Numeral): string
  {
    n.whole + (if n.point then "." + n.frac else "")
  }

  /** An optional leading '+' or '-' and the rest of the text. */
  function TakeSign(t: string): (Sign, string)
  {
    if t != [] && t[0] == '+' then (Plus, t[1..])
    else if t != [] && t[0] == '-' then (Minus, t[1..])
    else (Unsigned, t)
  }

  /** The sign and the rest make up the text again, and no sign is left unread. */
  lemma TakeSignSound(t: string)
    ensures SignText(TakeSign(t).0) + TakeSign(t).1 == t
    ensures TakeSign(t).0 == Unsigned ==> t == [] || (t[0] != '+' && t[0] != '-')
  {
    if t != [] && (t[0] == '+' || t[0] == '-') {
      assert t == [t[0]] + t[1..];
    }
  }

  /** Digits with at most one '.', and at least one digit; None otherwise. */
  function ParseBody(sign: Sign, body: string): Option<Numeral>
  {
    var parts := Split(body, '.');
    if |parts| == 1 && parts[0] != "" && AllDigits(parts[0]) then
      Some(Numeral(sign, parts[0], false, ""))
    else if |parts| == 2 && AllDigits(parts[0]) && AllDigits(parts[1]) && |parts[0]| + |parts[1]| > 0 then
      Some(Numeral(sign, parts[0], true, parts[1]))
    else
      None
  }

  /** A body that reads is a well-formed numeral with the given sign whose body is the text read. */
  lemma ParseBodySound(sign: Sign, body: string)
    ensures ParseBody(sign, body).Some? ==>
      && WellFormed(ParseBody(sign, body).value)
      && ParseBody(sign, body).value.sign == sign
      && Body(ParseBody(sign, body).value) == body
  {
    var parts := Split(body, '.');
    JoinSplit(body, '.');
    if |parts| == 2 {
      assert parts[..1] == [parts[0]];
    }
  }

  /**
   * `float(s)` restricted to plain decimal numerals: a result is always a
   * well-formed numeral whose text is `s` without surrounding whitespace.
   * Anything else is None (the source's ValueError).
   */
  function ParseNumeral(s: string): Option<Numeral>
  {
    var (sign, body) := TakeSign(Strip(s));
    ParseBody(sign, body)
  }

  /** A numeral read from `s` is well formed, and its text is `s` without surrounding whitespace. */
  lemma ParseNumeralSound(s: string)
    ensures ParseNumeral(s).Some? ==> WellFormed(ParseNumeral(s).value) && Format(ParseNumeral(s).value) == Strip(s)
  {
    var (sign, body) := TakeSign(Strip(s));
    TakeSignSound(Strip(s));
    ParseBodySound(sign, body);
  }

  /** No digit is a '.'. */
  lemma DigitsHaveNoPoint(s: string)
    requires AllDigits(s)
    ensures '.' !in s
  {
    forall i | 0 <= i < |s| ensures s[i] != '.' { assert IsDigit(s[i]); }
  }

  /** Reading back the body of a well-formed numeral gives that numeral. */
  lemma ParseBodyOfBody(n: Numeral)
    requires WellFormed(n)
    ensures ParseBody(n.sign, Body(n)) == Some(n)
  {
    DigitsHaveNoPoint(n.whole);
    if n.point {
      DigitsHaveNoPoint(n.frac);
      var xs := [n.whole, n.frac];
      assert xs[..1] == [n.whole];
      assert Join(".", xs) == Body(n);
      SplitJoin(xs, '.');
    } else {
      assert Body(n) == n.whole && n.whole != "";
      SplitWithout(n.whole, '.');
    }
  }

  /** The text of a numeral starts and ends with neither whitespace nor nothing. */
  lemma FormatTrimmed(n: Numeral)
    requires WellFormed(n)
    ensures var t := Format(n); t != [] && !IsSpace(t[0]) && !IsSpace(t[|t| - 1])
  {
    var body, t := Body(n), Format(n);
    assert t == SignText(n.sign) + body;
    assert body[0] == '.' || IsDigit(body[0]);
    assert body[|body| - 1] == '.' || IsDigit(body[|body| - 1]);
  }

  /** The sign of a numeral's text is read back as its sign. */
  lemma TakeSignOfFormat(n: Numeral)
    requires WellFormed(n)
    ensures TakeSign(Format(n)) == (n.sign, Body(n))
  {
    var body, t := Body(n), Format(n);
    assert body[0] == '.' || IsDigit(body[0]);
    match n.sign
    case Unsigned =>
      assert t == body;
    case Plus =>
      assert t == ['+'] + body && t[1..] == body;
    case Minus =>
      assert t == ['-'] + body && t[1..] == body;
  }

  /** Reading back the text of a well-formed numeral gives that numeral. */
  lemma ParseFormat(n: Numeral)
    requires WellFormed(n)
    ensures ParseNumeral(Format(n)) == Some(n)
  {
    var t := Format(n);
    FormatTrimmed(n);
    StripTrimmed(t);
    TakeSignOfFormat(n);
    ParseBodyOfBody(n);
  }

  // ---------------------------------------------------------------------
  // Exact values of digit strings

  function DigitValue(ch: char): nat
    requires IsDigit(ch)
  {
    ch as int - '0' as int
  }

  /** The number a string of decimal digits denotes (0 for the empty string). */
  function DigitsValue(s: string): nat
    requires AllDigits(s)
  {
    if s == [] then 0 else DigitsValue(s[..|s| - 1]) * 10 + DigitValue(s[|s| - 1])
  }

  function Pow10(k: nat): (p: nat)
    ensures p >= 1
  {
    if k == 0 then 1 else 10 * Pow10(k - 1)
  }

  /** The digits of `a + b` denote `a` shifted left by `|b|` places, plus `b`. */
  lemma {:induction false} DigitsValueConcat(a: string, b: string)
    requires AllDigits(a) && AllDigits(b)
    ensures AllDigits(a + b)
    ensures DigitsValue(a + b) == DigitsValue(a) * Pow10(|b|) + DigitsValue(b)
    decreases |b|
  {
    assert AllDigits(a + b) by {
      forall i | 0 <= i < |a + b| ensures IsDigit((a + b)[i]) {
        if i < |a| { assert (a + b)[i] == a[i]; } else { assert (a + b)[i] == b[i - |a|]; }
      }
    }
    if b == [] {
      assert a + b == a;
    } else {
      var b' := b[..|b| - 1];
      assert AllDigits(b') by {
        forall i | 0 <= i < |b'| ensures IsDigit(b'[i]) { assert b'[i] == b[i]; }
      }
      DigitsValueConcat(a, b');
      assert (a + b)[..|a + b| - 1] == a + b';
      var x := DigitValue(b[|b| - 1]);
      assert DigitsValue(a + b) == DigitsValue(a + b') * 10 + x;
      ShiftStep(DigitsValue(a), Pow10(|b'|), DigitsValue(b'), x);
    }
  }

  /** One more digit shifts the high part one more place. */
  lemma ShiftStep(a: int, p: int, b: int, x: int)
    ensures (a * p + b) * 10 + x == a * (10 * p) + (b * 10 + x)
  {
  }

  /** `k` digits denote less than `10^k`. */
  lemma {:induction false} DigitsValueBound(s: string)
    requires AllDigits(s)
    ensures DigitsValue(s) < Pow10(|s|)
    decreases |s|
  {
    if s != [] {
      var s' := s[..|s| - 1];
      assert AllDigits(s') by {
        forall i | 0 <= i < |s'| ensures IsDigit(s'[i]) { assert s'[i] == s[i]; }
      }
      DigitsValueBound(s');
      assert DigitsValue(s') + 1 <= Pow10(|s'|);
      assert DigitsValue(s') * 10 + 10 <= Pow10(|s'|) * 10;
    }
  }

  /** A digit string denotes zero exactly when every digit is '0'. */
  lemma {:induction false} DigitsValueZero(s: string)
    requires AllDigits(s)
    ensures DigitsValue(s) == 0 <==> forall i | 0 <= i < |s| :: s[i] == '0'
    decreases |s|
  {
    if s != [] {
      var s', last := s[..|s| - 1], s[|s| - 1];
      assert AllDigits(s') by {
        forall i | 0 <= i < |s'| ensures IsDigit(s'[i]) { assert s'[i] == s[i]; }
      }
      DigitsValueZero(s');
      assert DigitsValue(s) == DigitsValue(s') * 10 + DigitValue(last);
      assert (forall i | 0 <= i < |s| :: s[i] == '0')
         <==> (forall i | 0 <= i < |s'| :: s'[i] == '0') && last == '0' by {
        assert forall i | 0 <= i < |s'| :: s'[i] == s[i];
      }
    }
  }

  // ---------------------------------------------------------------------
  // starify_rating

  /** `rating.split('/')[0]`: the text before the first '/', or all of it. */
  function Numerator(rating: string): string
  {
    Split(rating, '/')[0]
  }

  /** The numerator has no '/', and is either the whole rating or stops just before its first '/'. */
  lemma NumeratorShape(rating: string)
    ensures '/' !in Numerator(rating)
    ensures Numerator(rating) <= rating
    ensures Numerator(rating) == rating || rating[|Numerator(rating)|] == '/'
  {
    var parts := Split(rating, '/');
    JoinSplit(rating, '/');
    JoinFirst(['/'], parts);
  }

  /** The parsed numerator, or None where the source catches a ValueError. */
  function Rate(rating: string): Option<Numeral>
  {
    ParseNumeral(Numerator(rating))
  }

  /** `int(rate)` as a star count: the whole part, or 0 for a negative numeral (a negative count repeats nothing). */
  function FullOf(n: Numeral): nat
    requires WellFormed(n)
  {
    if n.sign == Minus then 0 else DigitsValue(n.whole)
  }

  /** `rate != int(rate)`: some digit after the point is not zero. */
  predicate HalfOf(n: Numeral)
  {
    exists i | 0 <= i < |n.frac| :: n.frac[i] != '0'
  }

  /** The number of full stars `starify_rating` emits. */
  function FullStars(rating: string): nat
  {
    match Rate(rating)
    case None => 0
    case Some(n) =>
      ParseNumeralSound(Numerator(rating));
      FullOf(n)
  }

  /** Whether `starify_rating` emits a half star. */
  predicate HasHalf(rating: string)
  {
    match Rate(rating)
    case None => false
    case Some(n) => HalfOf(n)
  }

  /**
   * A well-formed numeral denotes `N / D`, with N its digits read without
   * the point and D the power of ten the point stands for. Its whole part
   * `w` is the integer part of `N / D`, and it has a non-zero fraction
   * digit exactly when `N / D` is not a whole number.
   */
  lemma NumeralValue(n: Numeral)
    requires WellFormed(n)
    ensures AllDigits(n.whole + n.frac)
    ensures var w, bigN, d := DigitsValue(n.whole), DigitsValue(n.whole + n.frac), Pow10(|n.frac|);
      w * d <= bigN < (w + 1) * d && (HalfOf(n) <==> bigN != w * d)
  {
    DigitsValueConcat(n.whole, n.frac);
    NumeralFloor(n);
    NumeralHalf(n);
  }

  /** The value of the whole digits, scaled, bounds the value of all digits. */
  lemma NumeralFloor(n: Numeral)
    requires WellFormed(n)
    ensures AllDigits(n.whole + n.frac)
    ensures var w, bigN, d := DigitsValue(n.whole), DigitsValue(n.whole + n.frac), Pow10(|n.frac|);
      w * d <= bigN < (w + 1) * d
  {
    DigitsValueConcat(n.whole, n.frac);
    DigitsValueBound(n.frac);
    FloorBounds(DigitsValue(n.whole), DigitsValue(n.frac), Pow10(|n.frac|));
  }

  /** A non-zero fraction digit is exactly what makes the value differ from the scaled whole part. */
  lemma NumeralHalf(n: Numeral)
    requires WellFormed(n)
    ensures AllDigits(n.whole + n.frac)
    ensures HalfOf(n) <==> DigitsValue(n.whole + n.frac) != DigitsValue(n.whole) * Pow10(|n.frac|)
  {
    DigitsValueConcat(n.whole, n.frac);
    DigitsValueZero(n.frac);
  }

  /** `w * d + f` with `f < d` lies between `w * d` and `(w + 1) * d`. */
  lemma FloorBounds(w: nat, f: nat, d: nat)
    requires f < d
    ensures w * d <= w * d + f < (w + 1) * d
  {
    assert (w + 1) * d == w * d + d;
  }

  /**
   * `r` is the `<font>` element holding `full` full stars and then one half
   * star when `half`: at most one half star, after every full star.
   */
  predicate Stars(r: string, full: nat, half: bool)
  {
    && |r| == |FontOpen| + full + (if half then 1 else 0) + |FontClose|
    && r[..|FontOpen|] == FontOpen && r[|r| - |FontClose|..] == FontClose
    && forall i | |FontOpen| <= i < |r| - |FontClose| ::
         r[i] == (if i < |FontOpen| + full then FullStar else HalfStar)
  }

  /** The `<font>` element holding `full` full stars and then one half star when `half`. */
  function StarMarkup(full: nat, half: bool): string
  {
    FontOpen + Repeat(FullStar, full) + (if half then [HalfStar] else []) + FontClose
  }

  /** At most one half star, and it comes after every full star, all inside the `<font>` tags. */
  lemma StarMarkupShape(full: nat, half: bool)
    ensures Stars(StarMarkup(full, half), full, half)
  {
    var g := Repeat(FullStar, full) + (if half then [HalfStar] else []);
    var r := FontOpen + g + FontClose;
    assert r == StarMarkup(full, half);
    assert forall i | |FontOpen| <= i < |r| - |FontClose| :: r[i] == g[i - |FontOpen|];
  }

  /**
   * `starify_rating(rating)`. A numerator that does not read gives no stars
   * rather than an error; the source's failure for star counts too large to
   * repeat is not modelled.
   */
  function Starify(rating: string): string
  {
    StarMarkup(FullStars(rating), HasHalf(rating))
  }

  /**
   * `starify_rating` always returns the `<font>` wrapper; between the tags
   * stand FullStars(rating) full stars and then a half star exactly when
   * HasHalf(rating).
   */
  lemma StarifyShape(rating: string)
    ensures Stars(Starify(rating), FullStars(rating), HasHalf(rating))
  {
    StarMarkupShape(FullStars(rating), HasHalf(rating));
  }

  /**
   * For a rating whose numerator reads as `n`, the star count is the
   * integer part `w` of the exact value `N / D` when `n` is not negative,
   * and zero when it is; the half star appears exactly when `N / D` is not
   * a whole number.
   */
  lemma StarCount(rating: string, n: Numeral)
    requires Rate(rating) == Some(n)
    ensures WellFormed(n)
    ensures AllDigits(n.whole + n.frac)
    ensures var w, bigN, d := DigitsValue(n.whole), DigitsValue(n.whole + n.frac), Pow10(|n.frac|);
      && w * d <= bigN < (w + 1) * d
      && FullStars(rating) == (if n.sign == Minus then 0 else w)
      && (HasHalf(rating) <==> bigN != w * d)
  {
    ParseNumeralSound(Numerator(rating));
    NumeralValue(n);
  }

  /** An unparseable numerator gives no stars, but still the bare `<font>` wrapper. */
  lemma StarifyUnparseable(rating: string)
    requires Rate(rating) == None
    ensures FullStars(rating) == 0 && !HasHalf(rating)
    ensures Starify(rating) == FontOpen + FontClose
  {
    assert FullStars(rating) == 0 && !HasHalf(rating);
    StarMarkupBare();
  }

  /** No full and no half star leaves just the `<font>` tags. */
  lemma StarMarkupBare()
    ensures StarMarkup(0, false) == FontOpen + FontClose
  {
    assert Repeat(FullStar, 0) == [];
  }
}
