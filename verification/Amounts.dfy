/** Money as text: asset amounts of any precision, and Stellar amounts of seven decimals. */
module Amounts {
  import opened Prelude
  import opened Decimal

  /** `padStart(width, "0")`. */
  function PadStart(s: string, width: nat): string { if |s| < width then Repeat('0', width - |s|) + s else s }

  /** `padEnd(width, "0")`. */
  function PadEnd(s: string, width: nat): string { if |s| < width then s + Repeat('0', width - |s|) else s }

  lemma RepeatDigits(k: nat)
    ensures AllDigits(Repeat('0', k))
  {
    Everywhere(Repeat('0', k));
  }

  lemma PadEndDigits(s: string, width: nat)
    requires AllDigits(s)
    ensures AllDigits(PadEnd(s, width))
  {
    if |s| < width {
      RepeatDigits(width - |s|);
      ConcatDigits(s, Repeat('0', width - |s|));
    }
  }

  /** The whole and fraction digits of `digits` or `digits.digits`; nothing else is a decimal. */
  function Split(s: string): (r: Option<(string, string)>)
    ensures r.Some? ==> AllDigits(r.value.0) && AllDigits(r.value.1) && r.value.0 != []
  {
    var n := DigitRun(s);
    if n == 0 then None
    else if n == |s| then Some((s[..n], []))
    else if s[n] != '.' then None
    else
      var fraction := s[n + 1..];
      if fraction == [] || DigitRun(fraction) != |fraction| then None
      else
        assert fraction == fraction[..|fraction|];
        Some((s[..n], fraction))
  }

  lemma SplitPoint(whole: string, fraction: string)
    requires AllDigits(whole) && AllDigits(fraction) && whole != [] && fraction != []
    ensures Split(whole + "." + fraction) == Some((whole, fraction))
  {
    var s := whole + ("." + fraction);
    assert whole + "." + fraction == s;
    DigitRunStops(whole, "." + fraction);
    AllDigitsRun(fraction);
    assert s[|whole| + 1..] == fraction && s[..|whole|] == whole;
  }

  lemma SplitWhole(whole: string)
    requires AllDigits(whole) && whole != []
    ensures Split(whole) == Some((whole, []))
  {
    AllDigitsRun(whole);
    assert whole[..|whole|] == whole;
  }

  lemma TrimSolid(s: string)
    requires s != [] && !IsSpace(s[0]) && !IsSpace(s[|s| - 1])
    ensures Trim(s) == s
  {
  }

  // ---------------------------------------------------------------- asset amounts

  datatype Asset = Asset(code: string, decimals: int)

  const MAX_ASSET_DECIMALS := 18

  predicate CodeChar(c: char) { 'A' <= c <= 'Z' || 'a' <= c <= 'z' || IsDigit(c) }

  function AssetError(a: Asset): Option<string>
  {
    if !(1 <= |a.code| <= 12 && forall i | 0 <= i < |a.code| :: CodeChar(a.code[i])) then Some("invalid_asset")
    else if !(0 <= a.decimals <= MAX_ASSET_DECIMALS) then Some("invalid_asset_precision")
    else None
  }

  /** The digits of a decimal as smallest units of the asset. */
  function ReadUnits(text: string, decimals: nat): Result<int, string>
  {
    var parts := Split(text);
    if parts.None? then Err("invalid_amount")
    else if |parts.value.1| > decimals then Err("invalid_asset_precision")
    else
      var padded := parts.value.0 + PadEnd(parts.value.1, decimals);
      PadEndDigits(parts.value.1, decimals);
      ConcatDigits(parts.value.0, PadEnd(parts.value.1, decimals));
      Ok(Value(padded))
  }

  function ParseAssetAmount(a: Asset, text: string): Result<int, string>
  {
    if AssetError(a).Some? then Err(AssetError(a).value) else ReadUnits(Trim(text), a.decimals)
  }

  function Magnitude(n: int): nat { if n < 0 then -n else n }

  /** Whole digits and, if there are any, a point and the fraction digits. */
  function Pointed(whole: string, fraction: string): string { if fraction == [] then whole else whole + "." + fraction }

  /** Digits with a point before the last `decimals` of them. */
  function PointAt(digits: string, decimals: nat): string
    requires decimals < |digits|
  {
    Pointed(digits[..|digits| - decimals], digits[|digits| - decimals..])
  }

  function FormatAssetAmount(decimals: nat, amount: int): string
  {
    var digits := PadStart(Digits(Magnitude(amount)), decimals + 1);
    if amount < 0 then "-" + PointAt(digits, decimals) else PointAt(digits, decimals)
  }

  lemma PadStartValue(n: nat, width: nat)
    ensures AllDigits(PadStart(Digits(n), width)) && Value(PadStart(Digits(n), width)) == n && |PadStart(Digits(n), width)| >= width
    ensures PadStart(Digits(n), width) != []
  {
    if |Digits(n)| < width { LeadingZeros(width - |Digits(n)|, Digits(n)); }
  }

  lemma ReadParts(text: string, whole: string, fraction: string, decimals: nat)
    requires Split(text) == Some((whole, fraction)) && |fraction| == decimals && AllDigits(whole + fraction)
    ensures ReadUnits(text, decimals) == Ok(Value(whole + fraction))
  {
  }

  lemma SplitPointed(whole: string, fraction: string)
    requires AllDigits(whole) && AllDigits(fraction) && whole != []
    ensures Split(Pointed(whole, fraction)) == Some((whole, fraction))
  {
    if fraction == [] { SplitWhole(whole); } else { SplitPoint(whole, fraction); }
  }

  lemma ReadPointed(whole: string, fraction: string)
    requires AllDigits(whole) && AllDigits(fraction) && whole != []
    ensures AllDigits(whole + fraction) && ReadUnits(Pointed(whole, fraction), |fraction|) == Ok(Value(whole + fraction))
  {
    ConcatDigits(whole, fraction);
    SplitPointed(whole, fraction);
    ReadParts(Pointed(whole, fraction), whole, fraction, |fraction|);
  }

  lemma PointedTrims(whole: string, fraction: string)
    requires AllDigits(whole) && AllDigits(fraction) && whole != []
    ensures Trim(Pointed(whole, fraction)) == Pointed(whole, fraction) && DigitRun("-" + Pointed(whole, fraction)) == 0
    ensures Trim("-" + Pointed(whole, fraction)) == "-" + Pointed(whole, fraction)
  {
    var text := Pointed(whole, fraction);
    Everywhere(whole);
    Everywhere(fraction);
    assert text[0] == whole[0];
    assert text[|text| - 1] == if fraction == [] then whole[|whole| - 1] else fraction[|fraction| - 1];
    TrimSolid(text);
    TrimSolid("-" + text);
  }

  lemma ParsePointed(a: Asset, whole: string, fraction: string)
    requires AssetError(a).None? && AllDigits(whole) && AllDigits(fraction) && whole != [] && |fraction| == a.decimals
    ensures AllDigits(whole + fraction) && ParseAssetAmount(a, Pointed(whole, fraction)) == Ok(Value(whole + fraction))
    ensures ParseAssetAmount(a, "-" + Pointed(whole, fraction)) == Err("invalid_amount")
  {
    PointedTrims(whole, fraction);
    ReadPointed(whole, fraction);
  }

  lemma Cut(digits: string, decimals: nat) returns (whole: string, fraction: string)
    requires AllDigits(digits) && decimals < |digits|
    ensures AllDigits(whole) && AllDigits(fraction) && whole != [] && |fraction| == decimals
    ensures whole + fraction == digits && PointAt(digits, decimals) == Pointed(whole, fraction)
  {
    var split := |digits| - decimals;
    whole, fraction := digits[..split], digits[split..];
    SliceDigits(digits, 0, split);
    SliceDigits(digits, split, |digits|);
    assert whole == digits[0..split] && fraction == digits[split..|digits|];
  }

  lemma ParseDigits(a: Asset, digits: string, text: string)
    requires AssetError(a).None? && AllDigits(digits) && a.decimals < |digits| && text == PointAt(digits, a.decimals)
    ensures ParseAssetAmount(a, text) == Ok(Value(digits)) && ParseAssetAmount(a, "-" + text) == Err("invalid_amount")
  {
    var whole, fraction := Cut(digits, a.decimals);
    ParsePointed(a, whole, fraction);
  }

  /** What is formatted reads back as the same amount exactly when it is not negative; a negative amount is refused. */
  lemma AssetRoundTrip(a: Asset, amount: int)
    requires AssetError(a).None?
    ensures ParseAssetAmount(a, FormatAssetAmount(a.decimals, amount)) == if amount >= 0 then Ok(amount) else Err("invalid_amount")
  {
    PadStartValue(Magnitude(amount), a.decimals + 1);
    var digits := PadStart(Digits(Magnitude(amount)), a.decimals + 1);
    ParseDigits(a, digits, PointAt(digits, a.decimals));
  }

  // ---------------------------------------------------------------- Stellar amounts

  const DECIMALS := 7
  const INT64_MAX := 9_223_372_036_854_775_807
  const INT64_MIN := -9_223_372_036_854_775_808

  predicate Signed(s: string) { s != [] && s[0] == '-' }

  /** The text after an optional sign. */
  function Unsigned(s: string): string { if Signed(s) then s[1..] else s }

  function Stroops(whole: string, fraction: string): int
    requires AllDigits(whole) && AllDigits(fraction)
  {
    PadEndDigits(fraction, DECIMALS);
    Value(whole) * 10_000_000 + Value(PadEnd(fraction, DECIMALS))
  }

  function AmountToStroops(s: string): Option<int>
  {
    var parts := Split(Unsigned(s));
    if parts.None? || |parts.value.1| > DECIMALS then None
    else Some(if Signed(s) then -Stroops(parts.value.0, parts.value.1) else Stroops(parts.value.0, parts.value.1))
  }

  /** Units and the stroops left over, as seven decimals. */
  function Text(units: nat, rest: nat): string { Digits(units) + "." + PadStart(Digits(rest), DECIMALS) }

  function Sign(negative: bool, text: string): string { if negative then "-" + text else text }

  function StroopsToAmount(n: int): string
  {
    Sign(n < 0, Text(Magnitude(n) / 10_000_000, Magnitude(n) % 10_000_000))
  }

  predicate Grouping(c: char) { c == ',' || c == '\'' || c == '\U{2019}' || c == '_' || IsSpace(c) }

  datatype ParseError = BlankText | GroupingSeparator | InvalidFormat | TooManyDecimals | Negative | OutOfRange

  function ParseAmount(raw: string, allowNegative: bool): Result<int, ParseError>
  {
    var value := Trim(raw);
    if value == [] then Err(BlankText)
    else if exists i | 0 <= i < |value| :: Grouping(value[i]) then Err(GroupingSeparator)
    else
      var parts := Split(Unsigned(value));
      if parts.None? then Err(InvalidFormat)
      else if |parts.value.1| > DECIMALS then Err(TooManyDecimals)
      else if Signed(value) && !allowNegative then Err(Negative)
      else
        var magnitude := Stroops(parts.value.0, parts.value.1);
        var stroops := if Signed(value) then -magnitude else magnitude;
        if stroops > INT64_MAX || stroops < INT64_MIN then Err(OutOfRange) else Ok(stroops)
  }

  lemma {:induction false} DigitsWidth(n: nat, k: nat)
    requires n < Pow10(k) && k > 0
    ensures |Digits(n)| <= k
  {
    if n >= 10 { DigitsWidth(n / 10, k - 1); }
  }

  lemma SevenDigits(n: nat)
    requires n < 10_000_000
    ensures |PadStart(Digits(n), DECIMALS)| == DECIMALS
  {
    assert Pow10(7) == 10 * Pow10(6) == 100 * Pow10(5) == 1000 * Pow10(4) == 10000 * Pow10(3) == 100000 * Pow10(2);
    assert Pow10(2) == 100;
    DigitsWidth(n, 7);
  }

  /** The text reads as the value, and with a sign as its negation. */
  ghost predicate Reads(text: string, v: int)
  {
    AmountToStroops(text) == Some(v) && AmountToStroops("-" + text) == Some(-v) && !Signed(text)
  }

  lemma ReadStroops(whole: string, fraction: string, text: string, v: int)
    requires AllDigits(whole) && AllDigits(fraction) && |fraction| == DECIMALS && Split(text) == Some((whole, fraction)) && !Signed(text)
    requires v == Value(whole) * 10_000_000 + Value(fraction)
    ensures Reads(text, v)
  {
    assert ("-" + text)[1..] == text;
  }

  lemma UnsignedPoint(whole: string, fraction: string)
    requires AllDigits(whole) && whole != []
    ensures !Signed(whole + "." + fraction)
  {
    Everywhere(whole);
    assert (whole + "." + fraction)[0] == whole[0];
  }

  lemma ReadDigits(whole: string, fraction: string, text: string, v: int)
    requires AllDigits(whole) && AllDigits(fraction) && whole != [] && |fraction| == DECIMALS && text == whole + "." + fraction
    requires v == Value(whole) * 10_000_000 + Value(fraction)
    ensures Reads(text, v)
  {
    SplitPoint(whole, fraction);
    UnsignedPoint(whole, fraction);
    ReadStroops(whole, fraction, text, v);
  }

  lemma ReadText(units: nat, rest: nat, m: nat)
    requires rest < 10_000_000 && m == units * 10_000_000 + rest
    ensures Reads(Text(units, rest), m)
  {
    PadStartValue(rest, DECIMALS);
    SevenDigits(rest);
    ReadDigits(Digits(units), PadStart(Digits(rest), DECIMALS), Text(units, rest), m);
  }

  lemma SignReads(text: string, n: int)
    requires Reads(text, Magnitude(n))
    ensures AmountToStroops(Sign(n < 0, text)) == Some(n) && (Signed(Sign(n < 0, text)) <==> n < 0)
  {
  }

  lemma MagnitudeReads(m: nat)
    ensures Reads(Text(m / 10_000_000, m % 10_000_000), m)
  {
    ReadText(m / 10_000_000, m % 10_000_000, m);
  }

  /** Every whole number of stroops, of either sign and any size, reads back as it was written. */
  lemma StroopsRoundTrip(n: int)
    ensures AmountToStroops(StroopsToAmount(n)) == Some(n)
    ensures Signed(StroopsToAmount(n)) <==> n < 0
  {
    MagnitudeReads(Magnitude(n));
    SignReads(Text(Magnitude(n) / 10_000_000, Magnitude(n) % 10_000_000), n);
  }

  lemma {:induction false} SplitSolid(s: string)
    requires Split(s).Some?
    ensures forall i | 0 <= i < |s| :: IsDigit(s[i]) || s[i] == '.'
  {
    var n := DigitRun(s);
    Everywhere(s[..n]);
    assert forall i | 0 <= i < n :: s[i] == s[..n][i];
    if n < |s| {
      var fraction := s[n + 1..];
      assert fraction[..|fraction|] == fraction;
      Everywhere(fraction);
      assert forall i | n + 1 <= i < |s| :: s[i] == fraction[i - (n + 1)];
    }
  }

  /** User input is accepted exactly when, trimmed, it is a canonical amount of allowed sign within 64 bits, and reads as that amount. */
  lemma ParseAmountExactly(raw: string, allowNegative: bool, v: int)
    ensures ParseAmount(raw, allowNegative) == Ok(v) <==>
            AmountToStroops(Trim(raw)) == Some(v) && (allowNegative || !Signed(Trim(raw))) && INT64_MIN <= v <= INT64_MAX
  {
    var value := Trim(raw);
    if AmountToStroops(value).Some? {
      SplitSolid(Unsigned(value));
      assert forall i | 0 <= i < |value| :: value[i] == '-' || value[i] == Unsigned(value)[if Signed(value) then i - 1 else i];
    }
  }

  lemma CanonicalTrims(s: string)
    requires AmountToStroops(s).Some?
    ensures Trim(s) == s
  {
    SplitSolid(Unsigned(s));
    assert s[|s| - 1] == Unsigned(s)[|Unsigned(s)| - 1];
    TrimSolid(s);
  }

  /** A formatted amount is accepted back exactly when it fits in 64 bits and its sign is allowed. */
  lemma ParseFormatted(n: int, allowNegative: bool)
    ensures ParseAmount(StroopsToAmount(n), allowNegative) == Ok(n) <==> (allowNegative || n >= 0) && INT64_MIN <= n <= INT64_MAX
  {
    StroopsRoundTrip(n);
    CanonicalTrims(StroopsToAmount(n));
    ParseAmountExactly(StroopsToAmount(n), allowNegative, n);
  }
}
