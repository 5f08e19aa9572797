/** Fixed-point numbers as text: the exact printer and the exact parser the web client uses. */
module Format {
  import opened Arith
  import opened Outcomes
  import opened Sequences
  import opened Text

  // ---------------------------------------------------------------- digits

  function Pow10(n: nat): (p: nat)
    ensures p > 0
  {
    if n == 0 then 1 else 10 * Pow10(n - 1)
  }

  predicate IsDigit(c: char) {
    '0' <= c <= '9'
  }

  predicate AllDigits(s: string) {
    s == "" || (AllDigits(s[..|s| - 1]) && IsDigit(s[|s| - 1]))
  }

  function Zeros(n: nat): (s: string)
    ensures |s| == n
  {
    seq(n, _ => '0')
  }

  function DigitValue(c: char): (v: nat)
    ensures v < 10
  {
    if IsDigit(c) then (c - '0') as nat else 0
  }

  /** The number a run of digits stands for; no digits stand for zero. Only digits are ever asked about. */
  function NatOf(s: string): nat {
    if s == "" then 0 else 10 * NatOf(s[..|s| - 1]) + DigitValue(s[|s| - 1])
  }

  /** The shortest decimal text of a number. */
  function Decimal(n: nat): (s: string)
    ensures s != ""
  {
    if n < 10 then ['0' + n as char] else Decimal(n / 10) + ['0' + (n % 10) as char]
  }

  function PadStart(s: string, width: nat): string {
    if |s| >= width then s else Zeros(width - |s|) + s
  }

  function StripZeros(s: string): (r: string)
    ensures r <= s
  {
    if s != "" && s[|s| - 1] == '0' then StripZeros(s[..|s| - 1]) else s
  }

  /** A comma before every third digit from the right, never in front. */
  function Grouped(s: string): string {
    if |s| <= 3 then s else Grouped(s[..|s| - 3]) + "," + s[|s| - 3..]
  }

  function Without(s: string, c: char): string {
    if s == "" then "" else (if s[0] == c then "" else [s[0]]) + Without(s[1..], c)
  }

  // ---------------------------------------------------------------- the printer

  datatype Style = Style(maxFrac: nat, minFrac: nat, group: bool, round: bool)

  /** One unit of the last place a style prints. */
  function Place(decimals: nat, style: Style): (place: nat)
    ensures place > 0
  {
    if style.maxFrac < decimals then Pow10(decimals - style.maxFrac) else 1
  }

  function Cut(magnitude: nat, place: nat): nat
    requires place > 0
  {
    Floor(magnitude, place) * place
  }

  /** The magnitude printed: to the nearest place with halves up, when the style rounds. */
  function Rounded(magnitude: nat, decimals: nat, style: Style): nat {
    if style.round && style.maxFrac < decimals
    then Cut(magnitude + Place(decimals, style) / 2, Place(decimals, style))
    else magnitude
  }

  /** The fraction digits kept, before the minimum is filled up. */
  function FractionText(fraction: nat, decimals: nat, maxFrac: nat): string {
    var padded := PadStart(Decimal(fraction), decimals);
    StripZeros(padded[..Min(maxFrac, |padded|)])
  }

  function FilledUp(s: string, width: nat): string {
    if |s| >= width then s else s + Zeros(width - |s|)
  }

  function Sign(negative: bool): string {
    if negative then "-" else ""
  }

  function Pointed(fraction: string): string {
    if fraction != "" then "." + fraction else ""
  }

  function Printed(value: int, decimals: nat, style: Style): string {
    Spelled(value < 0, Rounded(Abs(value), decimals, style), decimals, style)
  }

  function Spelled(negative: bool, magnitude: nat, decimals: nat, style: Style): string {
    var scale := Pow10(decimals);
    var whole := Decimal(Floor(magnitude, scale));
    var fraction := FilledUp(FractionText(magnitude % scale, decimals, style.maxFrac), style.minFrac);
    Sign(negative) + (if style.group then Grouped(whole) else whole) + Pointed(fraction)
  }

  method FillUp(s: string, width: nat) returns (r: string)
    ensures r == FilledUp(s, width)
  {
    r := s;
    while |r| < width
      invariant |s| <= |r| <= Max(width, |s|)
      invariant r == s + Zeros(|r| - |s|)
    {
      r := r + "0";
    }
  }

  method FormatFixed(value: int, decimals: nat, style: Style) returns (s: string)
    ensures s == Printed(value, decimals, style)
    ensures ParseDecimal(s, decimals) == Ok(Shown(value, decimals, style))
  {
    hide ParseDecimal, Shown;
    PrintedReadsBack(value, decimals, style);
    var negative := value < 0;
    var v: nat := if negative then -value else value;
    var scale := Pow10(decimals);
    if style.round && style.maxFrac < decimals {
      var cut := Pow10(decimals - style.maxFrac);
      v := Floor(v + cut / 2, cut) * cut;
    }
    assert v == Rounded(Abs(value), decimals, style);
    var whole := Decimal(Floor(v, scale));
    var padded := PadStart(Decimal(v % scale), decimals);
    var fraction := FillUp(StripZeros(padded[..Min(style.maxFrac, |padded|)]), style.minFrac);
    s := (if negative then "-" else "")
      + (if style.group then Grouped(whole) else whole)
      + (if fraction != "" then "." + fraction else "");
  }

  // ---------------------------------------------------------------- the parser

  datatype ParseError = EmptyNumber | InvalidNumber

  function BeforeDot(s: string): string {
    if s == "" || s[0] == '.' then "" else [s[0]] + BeforeDot(s[1..])
  }

  function AfterDot(s: string): string {
    if s == "" then "" else if s[0] == '.' then s[1..] else AfterDot(s[1..])
  }

  predicate WellFormed(body: string) {
    AllDigits(BeforeDot(body)) && AllDigits(AfterDot(body))
  }

  /** The fraction cut or filled to exactly `decimals` digits. */
  function Fitted(fraction: string, decimals: nat): string {
    (fraction + Zeros(decimals))[..decimals]
  }

  function BodyValue(body: string, decimals: nat): nat {
    NatOf(BeforeDot(body)) * Pow10(decimals) + NatOf(Fitted(AfterDot(body), decimals))
  }

  function ParseDecimal(input: string, decimals: nat): Result<int, ParseError> {
    ParseBare(Bare(input), decimals)
  }

  /** The text without blanks around it and without separators. */
  function Bare(input: string): string {
    Without(Without(Trim(input), ','), '_')
  }

  function ParseBare(s: string, decimals: nat): Result<int, ParseError> {
    if s == "" || s == "." || s == "-" then Err(EmptyNumber)
    else
      var negative := s[0] == '-';
      var body := if negative then s[1..] else s;
      if !WellFormed(body) then Err(InvalidNumber)
      else
        var v: int := BodyValue(body, decimals);
        Ok(if negative then -v else v)
  }

  // ---------------------------------------------------------------- digits and their value

  lemma {:induction false} PowSum(a: nat, b: nat)
    ensures Pow10(a + b) == Pow10(a) * Pow10(b)
  {
    if a > 0 {
      PowSum(a - 1, b);
    }
  }

  lemma {:induction false} DigitsJoined(a: string, b: string)
    ensures AllDigits(a + b) <==> AllDigits(a) && AllDigits(b)
  {
    if b == "" {
      assert a + b == a;
    } else {
      DigitsJoined(a, b[..|b| - 1]);
      assert (a + b)[..|a + b| - 1] == a + b[..|b| - 1];
    }
  }

  lemma {:induction false} DigitsHaveNo(s: string, c: char)
    requires AllDigits(s) && !IsDigit(c)
    ensures c !in s
    ensures s != "" ==> IsDigit(s[0]) && IsDigit(s[|s| - 1])
  {
    if s != "" {
      DigitsHaveNo(s[..|s| - 1], c);
      assert s == s[..|s| - 1] + [s[|s| - 1]];
    }
  }

  lemma OneMoreDigit(a: int, p: int, m: int, digit: int)
    ensures 10 * (a * p + m) + digit == a * (10 * p) + (10 * m + digit)
  {
  }

  lemma {:induction false} JoinedValue(a: string, b: string)
    ensures NatOf(a + b) == NatOf(a) * Pow10(|b|) + NatOf(b)
  {
    if b == "" {
      assert a + b == a;
    } else {
      var most, digit := b[..|b| - 1], DigitValue(b[|b| - 1]);
      JoinedValue(a, most);
      assert (a + b)[..|a + b| - 1] == a + most;
      OneMoreDigit(NatOf(a), Pow10(|most|), NatOf(most), digit);
    }
  }

  lemma {:induction false} ZerosAreWorthNothing(n: nat)
    ensures AllDigits(Zeros(n)) && NatOf(Zeros(n)) == 0
  {
    if n > 0 {
      ZerosAreWorthNothing(n - 1);
      assert Zeros(n)[..n - 1] == Zeros(n - 1);
    }
  }

  lemma {:induction false} ValueBelowPower(s: string)
    ensures NatOf(s) < Pow10(|s|)
  {
    if s != "" {
      ValueBelowPower(s[..|s| - 1]);
    }
  }

  lemma FloorOfJoined(a: nat, p: nat, b: nat)
    requires b < p
    ensures Floor(a * p + b, p) == a
  {
    FloorIs(a * p + b, p, a);
    FloorIs(a * p + b, p, a + 1);
  }

  lemma JoinedPrefix(head: string, tail: string)
    ensures NatOf(head) == Floor(NatOf(head + tail), Pow10(|tail|))
  {
    JoinedValue(head, tail);
    ValueBelowPower(tail);
    FloorOfJoined(NatOf(head), Pow10(|tail|), NatOf(tail));
  }

  /** A prefix of some digits is worth their value with the tail dropped. */
  lemma PrefixValue(s: string, m: nat)
    requires m <= |s|
    ensures NatOf(s[..m]) == Floor(NatOf(s), Pow10(|s| - m))
  {
    hide NatOf, Pow10, Floor;
    assert s == s[..m] + s[m..];
    JoinedPrefix(s[..m], s[m..]);
  }

  lemma {:induction false} DecimalReads(n: nat, width: nat)
    ensures AllDigits(Decimal(n))
    ensures NatOf(Decimal(n)) == n
    ensures n < Pow10(width) && width > 0 ==> |Decimal(n)| <= width
  {
    if n >= 10 {
      DecimalReads(n / 10, if width > 0 then width - 1 else 0);
      assert Decimal(n)[..|Decimal(n)| - 1] == Decimal(n / 10);
      assert IsDigit('0' + (n % 10) as char);
    } else {
      assert NatOf("") == 0;
      assert Decimal(n)[..0] == "" && IsDigit(Decimal(n)[0]);
    }
  }

  lemma ZeroFilledReads(k: nat, s: string)
    requires AllDigits(s)
    ensures AllDigits(Zeros(k) + s) && NatOf(Zeros(k) + s) == NatOf(s)
  {
    ZerosAreWorthNothing(k);
    DigitsJoined(Zeros(k), s);
    JoinedValue(Zeros(k), s);
  }

  /** Padding on the left keeps the value and gives exactly the width, when the number has room. */
  lemma PaddedReads(n: nat, width: nat)
    requires n < Pow10(width)
    ensures var s := PadStart(Decimal(n), width);
      AllDigits(s) && NatOf(s) == n && |s| == Max(width, 1)
  {
    hide NatOf, AllDigits;
    DecimalReads(n, width);
    if |Decimal(n)| < width {
      ZeroFilledReads(width - |Decimal(n)|, Decimal(n));
    }
  }

  lemma {:induction false} StrippedPlusZeros(s: string)
    ensures s == StripZeros(s) + Zeros(|s| - |StripZeros(s)|)
  {
    if s != "" && s[|s| - 1] == '0' {
      StrippedPlusZeros(s[..|s| - 1]);
      assert s == s[..|s| - 1] + "0";
    }
  }

  lemma ZerosJoin(s: string, a: nat, b: nat)
    ensures s + Zeros(a) + Zeros(b) == s + Zeros(a + b)
  {
  }

  lemma ZerosCut(s: string, n: nat, width: nat)
    requires |s| <= width <= |s| + n
    ensures (s + Zeros(n))[..width] == s + Zeros(width - |s|)
  {
  }

  lemma FittedFill(s: string, width: nat, minFrac: nat)
    requires |s| <= width
    ensures Fitted(FilledUp(s, minFrac), width) == s + Zeros(width - |s|)
  {
    var fill := if |s| >= minFrac then 0 else minFrac - |s|;
    assert FilledUp(s, minFrac) == s + Zeros(fill);
    ZerosJoin(s, fill, width);
    ZerosCut(s, fill + width, width);
  }

  /** Stripping zeros, filling up and fitting again leave the digits kept, zero-filled to the full width. */
  lemma FittedFraction(kept: string, width: nat, minFrac: nat)
    requires |kept| <= width
    ensures Fitted(FilledUp(StripZeros(kept), minFrac), width) == kept + Zeros(width - |kept|)
  {
    var s := StripZeros(kept);
    FittedFill(s, width, minFrac);
    StrippedPlusZeros(kept);
    ZerosJoin(s, |kept| - |s|, width - |kept|);
  }

  lemma StrippedAndFilledAreDigits(s: string, minFrac: nat)
    requires AllDigits(s)
    ensures AllDigits(FilledUp(StripZeros(s), minFrac))
  {
    var r := StripZeros(s);
    StrippedPlusZeros(s);
    DigitsJoined(r, Zeros(|s| - |r|));
    if |r| < minFrac {
      ZerosAreWorthNothing(minFrac - |r|);
      DigitsJoined(r, Zeros(minFrac - |r|));
    }
  }

  lemma CutDigits(padded: string, m: nat)
    requires AllDigits(padded) && m <= |padded|
    ensures AllDigits(padded[..m])
    ensures NatOf(padded[..m] + Zeros(|padded| - m))
      == Floor(NatOf(padded), Pow10(|padded| - m)) * Pow10(|padded| - m)
  {
    var kept, rest := padded[..m], |padded| - m;
    assert padded == kept + padded[m..];
    DigitsJoined(kept, padded[m..]);
    JoinedValue(kept, Zeros(rest));
    ZerosAreWorthNothing(rest);
    PrefixValue(padded, m);
  }

  /** The fraction printed reads back as the fraction with the places past `maxFrac` dropped. */
  lemma FractionReadsBack(fraction: nat, decimals: nat, style: Style)
    requires fraction < Pow10(decimals)
    ensures var text := FilledUp(FractionText(fraction, decimals, style.maxFrac), style.minFrac);
      && AllDigits(text)
      && NatOf(Fitted(text, decimals))
        == Floor(fraction, Place(decimals, style)) * Place(decimals, style)
  {
    hide PadStart, Decimal, StripZeros, FilledUp;
    var padded := PadStart(Decimal(fraction), decimals);
    PaddedReads(fraction, decimals);
    var m := Min(style.maxFrac, |padded|);
    CutDigits(padded, m);
    StrippedAndFilledAreDigits(padded[..m], style.minFrac);
    if decimals == 0 {
      assert Fitted(FilledUp(StripZeros(padded[..m]), style.minFrac), 0) == "";
    } else {
      FittedFraction(padded[..m], decimals, style.minFrac);
    }
  }

  // ---------------------------------------------------------------- separators and signs

  lemma {:induction false} WithoutJoined(a: string, b: string, c: char)
    ensures Without(a + b, c) == Without(a, c) + Without(b, c)
  {
    if a == "" {
      assert a + b == b;
    } else {
      WithoutJoined(a[1..], b, c);
      assert (a + b)[1..] == a[1..] + b;
      JoinAssoc(if a[0] == c then "" else [a[0]], Without(a[1..], c), Without(b, c));
    }
  }

  lemma {:induction false} NothingToRemove(s: string, c: char)
    requires c !in s
    ensures Without(s, c) == s
  {
    if s != "" {
      NothingToRemove(s[1..], c);
    }
  }

  lemma GapCloses(front: string, last: string)
    ensures Without(front + "," + last, ',') == Without(front, ',') + Without(last, ',')
  {
    hide Without;
    WithoutJoined(front + ",", last, ',');
    WithoutJoined(front, ",", ',');
    OneCommaGoes();
    assert Without(front, ',') + "" == Without(front, ',');
  }

  lemma OneCommaGoes()
    ensures Without(",", ',') == ""
  {
    assert ","[1..] == "";
  }

  /** Grouping adds only commas, and never at either end. */
  lemma {:induction false} GroupedReads(s: string)
    requires AllDigits(s) && s != ""
    ensures var g := Grouped(s); g != "" && Without(g, ',') == s
    ensures IsDigit(Grouped(s)[0]) && IsDigit(Grouped(s)[|Grouped(s)| - 1])
  {
    DigitsHaveNo(s, ',');
    if |s| <= 3 {
      NothingToRemove(s, ',');
    } else {
      var front, last := s[..|s| - 3], s[|s| - 3..];
      assert s == front + last;
      DigitsJoined(front, last);
      GroupedReads(front);
      GapCloses(Grouped(front), last);
      NothingToRemove(last, ',');
    }
  }

  lemma {:induction false} DotSplits(whole: string, rest: string)
    requires '.' !in whole && (rest == "" || rest[0] == '.')
    ensures BeforeDot(whole + rest) == whole
    ensures AfterDot(whole + rest) == if rest == "" then "" else rest[1..]
  {
    if whole == "" {
      assert whole + rest == rest;
    } else {
      DotSplits(whole[1..], rest);
      assert (whole + rest)[1..] == whole[1..] + rest;
    }
  }

  /** Trimming does nothing to a printed number, and removing separators leaves its bare digits. */
  lemma SeparatorsGo(sign: string, shown: string, whole: string, rest: string)
    requires sign == "" || sign == "-"
    requires shown != "" && IsDigit(shown[0]) && IsDigit(shown[|shown| - 1])
    requires Without(shown, ',') == whole && '_' !in whole
    requires ',' !in rest && '_' !in rest && (rest == "" || !IsSpace(rest[|rest| - 1]))
    ensures Bare(sign + shown + rest) == sign + (whole + rest)
  {
    hide Trim, Without;
    var input, bare := sign + shown + rest, sign + (whole + rest);
    assert input[0] == if sign == "" then shown[0] else '-';
    assert input[|input| - 1] == if rest == "" then shown[|shown| - 1] else rest[|rest| - 1];
    NothingToTrim(input);
    JoinAssoc(sign, shown, rest);
    WithoutJoined(sign, shown + rest, ',');
    WithoutJoined(shown, rest, ',');
    NothingToRemove(sign, ',');
    NothingToRemove(rest, ',');
    NothingToRemove(bare, '_');
  }

  lemma BareNumberParses(negative: bool, body: string, decimals: nat)
    requires body != "" && IsDigit(body[0]) && WellFormed(body)
    ensures var v: int := BodyValue(body, decimals);
      ParseBare(Sign(negative) + body, decimals) == Ok(if negative then -v else v)
  {
    var s := Sign(negative) + body;
    assert (if negative then s[1..] else s) == body;
    assert s[0] == '-' <==> negative;
  }

  lemma SpelledBody(whole: string, fraction: string, decimals: nat)
    requires AllDigits(whole) && whole != "" && AllDigits(fraction)
    ensures var body := whole + Pointed(fraction);
      && body != "" && IsDigit(body[0]) && WellFormed(body)
      && BodyValue(body, decimals) == NatOf(whole) * Pow10(decimals) + NatOf(Fitted(fraction, decimals))
  {
    DigitsHaveNo(whole, '.');
    DotSplits(whole, Pointed(fraction));
    assert AfterDot(whole + Pointed(fraction)) == fraction;
  }

  lemma SpelledIsBare(negative: bool, shown: string, whole: string, fraction: string)
    requires AllDigits(whole) && AllDigits(fraction)
    requires shown != "" && IsDigit(shown[0]) && IsDigit(shown[|shown| - 1]) && Without(shown, ',') == whole
    ensures Bare(Sign(negative) + shown + Pointed(fraction)) == Sign(negative) + (whole + Pointed(fraction))
  {
    var sign, rest := Sign(negative), Pointed(fraction);
    DigitsHaveNo(whole, '_');
    DigitsHaveNo(fraction, '_');
    DigitsHaveNo(fraction, ',');
    SeparatorsGo(sign, shown, whole, rest);
  }

  lemma ParsesAs(input: string, negative: bool, body: string, decimals: nat)
    requires Bare(input) == Sign(negative) + body
    requires body != "" && IsDigit(body[0]) && WellFormed(body)
    ensures var v: int := BodyValue(body, decimals);
      ParseDecimal(input, decimals) == Ok(if negative then -v else v)
  {
    BareNumberParses(negative, body, decimals);
  }

  /** Any sign, any digits with or without separators and any fraction digits parse to the value they spell. */
  lemma SpelledNumberParses(negative: bool, shown: string, whole: string, fraction: string, decimals: nat)
    requires AllDigits(whole) && whole != "" && AllDigits(fraction)
    requires shown != "" && IsDigit(shown[0]) && IsDigit(shown[|shown| - 1]) && Without(shown, ',') == whole
    ensures var v: int := NatOf(whole) * Pow10(decimals) + NatOf(Fitted(fraction, decimals));
      ParseDecimal(Sign(negative) + shown + Pointed(fraction), decimals) == Ok(if negative then -v else v)
  {
    hide ParseDecimal, Bare, BodyValue, WellFormed, NatOf, Fitted;
    SpelledIsBare(negative, shown, whole, fraction);
    SpelledBody(whole, fraction, decimals);
    ParsesAs(Sign(negative) + shown + Pointed(fraction), negative, whole + Pointed(fraction), decimals);
  }

  // ---------------------------------------------------------------- what a printed number reads back as

  /** The value a style shows: rounded or not, then cut to the places printed, towards zero. */
  function Shown(value: int, decimals: nat, style: Style): int {
    var magnitude := Rounded(Abs(value), decimals, style);
    var kept: int := Cut(magnitude, Place(decimals, style));
    if value < 0 then -kept else kept
  }

  lemma CutSplits(magnitude: nat, scale: nat, ratio: nat, place: nat)
    requires place > 0 && ratio > 0 && scale == ratio * place
    ensures Floor(magnitude, place) * place
      == Floor(magnitude, scale) * scale + Floor(magnitude % scale, place) * place
  {
    var q, r := Floor(magnitude, scale), magnitude % scale;
    var f := Floor(r, place);
    FloorLeavesRest(magnitude, scale);
    CutPoint(q, ratio, place, f);
    var k := q * ratio + f;
    FloorIs(magnitude, place, k);
    FloorIs(magnitude, place, k + 1);
  }

  lemma FloorLeavesRest(a: nat, d: nat)
    requires d > 0
    ensures a % d == a - Floor(a, d) * d
  {
  }

  lemma CutPoint(q: int, ratio: int, place: int, f: int)
    ensures (q * ratio + f) * place == q * (ratio * place) + f * place
    ensures (q * ratio + f + 1) * place == q * (ratio * place) + f * place + place
  {
  }

  lemma PlaceSplits(decimals: nat, style: Style)
    ensures Pow10(decimals) == Pow10(Min(style.maxFrac, decimals)) * Place(decimals, style)
  {
    var m: nat := Min(style.maxFrac, decimals);
    PowSum(m, decimals - m);
  }

  /** A spelled number reads back as its magnitude with everything past the last place dropped. */
  lemma SpelledReadsBack(negative: bool, magnitude: nat, decimals: nat, style: Style)
    ensures var kept: int := Cut(magnitude, Place(decimals, style));
      ParseDecimal(Spelled(negative, magnitude, decimals, style), decimals) == Ok(if negative then -kept else kept)
  {
    hide ParseDecimal, FractionText, FilledUp, Decimal, Grouped, NatOf, Pow10;
    var scale, place := Pow10(decimals), Place(decimals, style);
    var n, rest := Floor(magnitude, scale), magnitude % scale;
    var whole, fraction := Decimal(n), FilledUp(FractionText(rest, decimals, style.maxFrac), style.minFrac);
    FractionReadsBack(rest, decimals, style);
    DecimalReads(n, 0);
    DigitsHaveNo(whole, ',');
    GroupedReads(whole);
    NothingToRemove(whole, ',');
    SpelledNumberParses(negative, if style.group then Grouped(whole) else whole, whole, fraction, decimals);
    PlaceSplits(decimals, style);
    CutSplits(magnitude, scale, Pow10(Min(style.maxFrac, decimals)), place);
  }

  /** Every printed number parses, and reads back as exactly what its style shows. */
  lemma PrintedReadsBack(value: int, decimals: nat, style: Style)
    ensures ParseDecimal(Printed(value, decimals, style), decimals) == Ok(Shown(value, decimals, style))
  {
    hide ParseDecimal, Spelled;
    SpelledReadsBack(value < 0, Rounded(Abs(value), decimals, style), decimals, style);
  }

  /** At full precision nothing is lost, whatever the sign, grouping, filling or rounding asked for. */
  lemma FullPrecisionReadsBack(value: int, decimals: nat, style: Style)
    requires style.maxFrac >= decimals
    ensures ParseDecimal(Printed(value, decimals, style), decimals) == Ok(value)
  {
    hide ParseDecimal, Printed;
    PrintedReadsBack(value, decimals, style);
    assert Floor(Abs(value), 1) == Abs(value);
  }

  lemma MultipleHasNoRest(q: int, d: int)
    requires d > 0
    ensures (q * d) % d == 0 && (-(q * d)) % d == 0
  {
    RestIsZero(q * d, d, q);
    assert -(q * d) == (-q) * d;
    RestIsZero(-(q * d), d, -q);
  }

  lemma RestIsZero(a: int, d: int, q: int)
    requires d > 0 && a == q * d
    ensures a % d == 0
  {
    var k, r := a / d, a % d;
    assert r == (q - k) * d;
    if q - k >= 1 {
      MulMono(1, q - k, d);
    } else if q - k <= -1 {
      MulMono(q - k, -1, d);
    }
  }

  /** Adding half a place and cutting lands on the nearest multiple, halves going up. */
  lemma CutFromHalfUpIsNearest(v: nat, place: nat, w: nat)
    requires place > 0 && place % 2 == 0 && w == Cut(v + place / 2, place)
    ensures w % place == 0 && Cut(w, place) == w
    ensures -(place as int) <= 2 * (v - w) < place
  {
    var q := Floor(v + place / 2, place);
    MultipleHasNoRest(q, place);
    FloorOfJoined(q, place, 0);
  }

  lemma SignedNearest(value: int, back: int, w: nat, place: nat)
    requires place > 0 && w % place == 0 && -(place as int) <= 2 * (Abs(value) - w) < place
    requires back == if value < 0 then -(w as int) else w
    ensures back % place == 0
    ensures 2 * Abs(back - value) <= place
    ensures 2 * Abs(back - value) == place ==> Abs(back) > Abs(value)
  {
    assert w == w / place * place;
    MultipleHasNoRest(w / place, place);
    AroundZero(value, back, w);
  }

  lemma AroundZero(value: int, back: int, w: nat)
    requires back == if value < 0 then -(w as int) else w
    ensures Abs(back) == w && Abs(back - value) == Abs(Abs(value) - w)
  {
  }

  lemma PlaceIsEven(decimals: nat, style: Style)
    requires style.maxFrac < decimals
    ensures Place(decimals, style) % 2 == 0
  {
    assert Place(decimals, style) == 2 * (5 * Pow10(decimals - style.maxFrac - 1));
  }

  lemma ShownIsNearest(value: int, decimals: nat, style: Style)
    requires style.maxFrac < decimals && style.round
    ensures var place, back := Place(decimals, style), Shown(value, decimals, style);
      && back % place == 0
      && 2 * Abs(back - value) <= place
      && (2 * Abs(back - value) == place ==> Abs(back) > Abs(value))
  {
    hide Cut, Place;
    PlaceIsEven(decimals, style);
    var place, w := Place(decimals, style), Rounded(Abs(value), decimals, style);
    CutFromHalfUpIsNearest(Abs(value), place, w);
    SignedNearest(value, Shown(value, decimals, style), w, place);
  }

  /** With fewer places and rounding on, the number read back is the nearest one with that many places,
      ties going away from zero. */
  lemma RoundingIsToNearest(value: int, decimals: nat, style: Style)
    requires style.maxFrac < decimals && style.round
    ensures var place := Place(decimals, style);
      var back := ParseDecimal(Printed(value, decimals, style), decimals);
      && back.Ok?
      && back.value % place == 0
      && 2 * Abs(back.value - value) <= place
      && (2 * Abs(back.value - value) == place ==> Abs(back.value) > Abs(value))
  {
    hide ParseDecimal, Printed, Shown;
    PrintedReadsBack(value, decimals, style);
    ShownIsNearest(value, decimals, style);
  }

  lemma SignedCut(value: int, back: int, w: nat, place: nat)
    requires place > 0 && w == Cut(Abs(value), place)
    requires back == if value < 0 then -(w as int) else w
    ensures back % place == 0
    ensures Abs(back) <= Abs(value) < Abs(back) + place
    ensures back != 0 ==> (back < 0 <==> value < 0)
  {
    MultipleHasNoRest(Floor(Abs(value), place), place);
  }

  /** With fewer places and rounding off, the tail is dropped towards zero. */
  lemma TruncationDropsTheTail(value: int, decimals: nat, style: Style)
    requires style.maxFrac < decimals && !style.round
    ensures var place := Place(decimals, style);
      var back := ParseDecimal(Printed(value, decimals, style), decimals);
      && back.Ok?
      && back.value % place == 0
      && Abs(back.value) <= Abs(value) < Abs(back.value) + place
      && (back.value != 0 ==> (back.value < 0 <==> value < 0))
  {
    hide ParseDecimal, Printed;
    PrintedReadsBack(value, decimals, style);
    var place := Place(decimals, style);
    SignedCut(value, Shown(value, decimals, style), Cut(Abs(value), place), place);
  }

  // ---------------------------------------------------------------- how exact the parser is

  predicate ZerosFrom(s: string, k: nat) {
    forall i | k <= i < |s| :: s[i] == '0'
  }

  lemma {:induction false} WorthNothingIffZeros(s: string)
    requires AllDigits(s)
    ensures NatOf(s) == 0 <==> ZerosFrom(s, 0)
  {
    if s != "" {
      var most := s[..|s| - 1];
      WorthNothingIffZeros(most);
      assert forall i | 0 <= i < |most| :: most[i] == s[i];
    }
  }

  lemma BodyIsTheDecimalCut(body: string, decimals: nat)
    ensures BodyValue(body, decimals)
      == Floor(NatOf(BeforeDot(body) + AfterDot(body)) * Pow10(decimals), Pow10(|AfterDot(body)|))
  {
    hide BeforeDot, AfterDot, NatOf, Pow10, Zeros, Floor;
    var a, f := BeforeDot(body), AfterDot(body);
    var all := a + f + Zeros(decimals);
    JoinedValue(a + f, Zeros(decimals));
    ZerosAreWorthNothing(decimals);
    FittedIsPrefix(a, f, decimals);
    JoinedValue(a, Fitted(f, decimals));
    PrefixValue(all, |a| + decimals);
  }

  lemma FittedIsPrefix(a: string, f: string, decimals: nat)
    ensures |Fitted(f, decimals)| == decimals
    ensures |a + f + Zeros(decimals)| == |a| + |f| + decimals
    ensures (a + f + Zeros(decimals))[..|a| + decimals] == a + Fitted(f, decimals)
  {
  }

  lemma ExactWithinPlaces(a: string, f: string, decimals: nat)
    requires |f| <= decimals
    ensures (NatOf(a) * Pow10(decimals) + NatOf(Fitted(f, decimals))) * Pow10(|f|) == NatOf(a + f) * Pow10(decimals)
  {
    var rest := decimals - |f|;
    assert Fitted(f, decimals) == f + Zeros(rest);
    JoinedValue(a, f);
    JoinedValue(f, Zeros(rest));
    ZerosAreWorthNothing(rest);
    PowSum(|f|, rest);
    ExactWhenShort(NatOf(a), NatOf(f), Pow10(|f|), Pow10(rest), Pow10(decimals), NatOf(Fitted(f, decimals)));
  }

  lemma ExactPastPlacesIff(a: string, kept: string, tail: string)
    requires AllDigits(tail)
    ensures (NatOf(a) * Pow10(|kept|) + NatOf(kept)) * Pow10(|kept| + |tail|)
        == NatOf(a + (kept + tail)) * Pow10(|kept|)
      <==> ZerosFrom(tail, 0)
  {
    JoinedValue(a, kept + tail);
    JoinedValue(kept, tail);
    PowSum(|kept|, |tail|);
    WorthNothingIffZeros(tail);
    TailIsWhatIsLost(
      NatOf(a), NatOf(kept), NatOf(tail), Pow10(|kept|), Pow10(|tail|), Pow10(|kept| + |tail|), NatOf(kept + tail));
  }

  lemma BodyIsExactIff(body: string, decimals: nat)
    requires WellFormed(body)
    ensures BodyValue(body, decimals) * Pow10(|AfterDot(body)|)
          == NatOf(BeforeDot(body) + AfterDot(body)) * Pow10(decimals)
      <==> ZerosFrom(AfterDot(body), decimals)
  {
    hide NatOf, Pow10, BeforeDot, AfterDot;
    var a, f := BeforeDot(body), AfterDot(body);
    if |f| <= decimals {
      ExactWithinPlaces(a, f, decimals);
    } else {
      var kept, tail := f[..decimals], f[decimals..];
      assert Fitted(f, decimals) == kept && f == kept + tail;
      DigitsJoined(kept, tail);
      ExactPastPlacesIff(a, kept, tail);
      assert ZerosFrom(f, decimals) <==> ZerosFrom(tail, 0) by {
        assert forall i | decimals <= i < |f| :: f[i] == tail[i - decimals];
        assert forall i | 0 <= i < |tail| :: tail[i] == f[decimals + i];
      }
    }
  }

  /** What the parser reads once blanks and separators are gone, without its sign. */
  function Unsigned(input: string): string {
    var s := Bare(input);
    if s != "" && s[0] == '-' then s[1..] else s
  }

  /** The digits on either side of the point, run together. */
  function DigitsOf(input: string): string {
    BeforeDot(Unsigned(input)) + AfterDot(Unsigned(input))
  }

  function PlacesOf(input: string): nat {
    |AfterDot(Unsigned(input))|
  }

  /** Every input parses to the exact decimal it spells, scaled and cut towards zero, under its own sign; it is refused
      exactly when nothing but a sign or a point is left of it, or what is left is not digits around one point. */
  lemma ParsesTheDecimalCut(input: string, decimals: nat)
    ensures match ParseDecimal(input, decimals)
            case Ok(v) =>
              && WellFormed(Unsigned(input)) && Bare(input) !in ["", ".", "-"]
              && Abs(v) == Floor(NatOf(DigitsOf(input)) * Pow10(decimals), Pow10(PlacesOf(input)))
              && (if Bare(input)[0] == '-' then v <= 0 else v >= 0)
            case Err(EmptyNumber) => Bare(input) in ["", ".", "-"]
            case Err(InvalidNumber) => !WellFormed(Unsigned(input))
  {
    hide Bare, BodyValue, WellFormed, Floor;
    BodyIsTheDecimalCut(Unsigned(input), decimals);
  }

  /** The value is exact precisely when every digit past the places kept is a zero. */
  lemma ParsingIsExactIff(input: string, decimals: nat)
    requires ParseDecimal(input, decimals).Ok?
    ensures Abs(ParseDecimal(input, decimals).value) * Pow10(PlacesOf(input))
          == NatOf(DigitsOf(input)) * Pow10(decimals)
      <==> ZerosFrom(AfterDot(Unsigned(input)), decimals)
  {
    hide Bare, BodyValue, WellFormed, NatOf, Pow10;
    BodyIsExactIff(Unsigned(input), decimals);
  }

  /** Half a unit typed into a field of whole units reads as nothing at all. */
  lemma HalfAUnitReadsAsNothing()
    ensures ParseDecimal("0.5", 0) == Ok(0)
  {
    hide ParseDecimal;
    assert "0"[..0] == "" && "5"[..0] == "" && NatOf("") == 0 && Fitted("5", 0) == "";
    assert AllDigits("0") && AllDigits("5") && NatOf("0") == 0;
    DigitsHaveNo("0", ',');
    NothingToRemove("0", ',');
    SpelledNumberParses(false, "0", "0", "5", 0);
    assert Sign(false) + "0" + Pointed("5") == "0.5";
  }

  lemma ExactWhenShort(a: int, f: int, p: int, rest: int, scale: int, fitted: int)
    requires scale == p * rest && fitted == f * rest
    ensures (a * scale + fitted) * p == (a * p + f) * scale
  {
  }

  lemma TailIsWhatIsLost(a: int, fitted: int, tail: int, p: int, rest: int, scale: int, f: int)
    requires p > 0 && scale == p * rest && f == fitted * rest + tail
    ensures (a * p + fitted) * scale == (a * scale + f) * p <==> tail == 0
  {
    LostTail(a, fitted, tail, p, rest);
    if tail >= 1 {
      MulMono(1, tail, p);
    } else if tail <= -1 {
      MulMono(tail, -1, p);
    }
  }

  lemma LostTail(a: int, fitted: int, tail: int, p: int, rest: int)
    ensures (a * (p * rest) + (fitted * rest + tail)) * p - (a * p + fitted) * (p * rest) == tail * p
  {
  }
}
