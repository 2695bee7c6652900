/** Fee breakdowns in whole smallest units, and their reconciliation with stored settlements. */
module Fees {
  import opened Prelude
  import opened Amounts

  datatype Line = Line(id: string, basisPoints: int, minimum: Option<int>)

  datatype Basis = Zero | Minimum | Rate

  datatype LineItem = LineItem(id: string, basisPoints: int, rateAmount: int, minimum: int, amount: int, basis: Basis)

  datatype Breakdown = Breakdown(asset: Asset, gross: int, lines: seq<LineItem>, totalFees: int, net: int)

  // ---------------------------------------------------------------- schedules

  predicate SoundLine(l: Line)
  {
    l.id != [] && 0 <= l.basisPoints <= 10000 && (l.minimum.Some? ==> l.minimum.value >= 0)
  }

  predicate SoundSchedule(lines: seq<Line>)
  {
    && (forall i | 0 <= i < |lines| :: SoundLine(lines[i]))
    && (forall i, j | 0 <= i < j < |lines| :: lines[i].id != lines[j].id)
  }

  /** Accepts exactly the schedules whose lines are sound and whose ids are distinct. */
  method ValidateSchedule(lines: seq<Line>) returns (ok: bool)
    ensures ok == SoundSchedule(lines)
  {
    var seen: set<string> := {};
    var i := 0;
    while i < |lines|
      invariant 0 <= i <= |lines| && SoundSchedule(lines[..i]) && seen == set j | 0 <= j < i :: lines[j].id
    {
      var line := lines[i];
      if line.id == [] || line.id in seen { return false; }
      seen := seen + {line.id};
      if line.basisPoints < 0 || line.basisPoints > 10000 { return false; }
      if line.minimum.Some? && line.minimum.value < 0 { return false; }
      i := i + 1;
    }
    assert lines[..i] == lines;
    ok := true;
  }

  // ---------------------------------------------------------------- the breakdown

  function RateAmount(amount: nat, basisPoints: int): int { (amount * basisPoints + 5000) / 10000 }

  function Charge(amount: nat, line: Line): LineItem
  {
    var minimum := if line.minimum.Some? then line.minimum.value else 0;
    var rate := RateAmount(amount, line.basisPoints);
    var charged := Max(rate, if amount > 0 then minimum else 0);
    LineItem(line.id, line.basisPoints, rate, minimum, charged, if charged == 0 then Zero else if charged > rate then Minimum else Rate)
  }

  function Charges(amount: nat, lines: seq<Line>): (r: seq<LineItem>)
    ensures |r| == |lines| && forall i | 0 <= i < |r| :: r[i] == Charge(amount, lines[i])
  {
    seq(|lines|, i requires 0 <= i < |lines| => Charge(amount, lines[i]))
  }

  function Sum(items: seq<LineItem>): int
  {
    if items == [] then 0 else Sum(items[..|items| - 1]) + items[|items| - 1].amount
  }

  function CalculateFees(asset: Asset, amount: int, lines: seq<Line>): Result<Breakdown, string>
  {
    if AssetError(asset).Some? then Err(AssetError(asset).value)
    else if amount < 0 then Err("invalid_amount")
    else if !SoundSchedule(lines) then Err("invalid_fee_schedule")
    else
      var items := Charges(amount, lines);
      if Sum(items) > amount then Err("fees_exceed_amount") else Ok(Breakdown(asset, amount, items, Sum(items), amount - Sum(items)))
  }

  /** Half up: the rounded amount is within half a unit of exact, a half going up. */
  lemma RateRounds(amount: nat, basisPoints: nat)
    ensures -5000 < 10000 * RateAmount(amount, basisPoints) - amount * basisPoints <= 5000
    ensures RateAmount(amount, basisPoints) >= 0
  {
    var x := amount * basisPoints;
    assert x >= 0;
  }

  /** A higher gross amount never lowers a line's charge. */
  lemma ChargeMonotone(a: nat, b: nat, line: Line)
    requires a <= b && SoundLine(line)
    ensures 0 <= Charge(a, line).amount <= Charge(b, line).amount
  {
    RateRounds(a, line.basisPoints);
    RateRounds(b, line.basisPoints);
    assert a * line.basisPoints <= b * line.basisPoints;
  }

  lemma {:induction false} SumNonNegative(amount: nat, lines: seq<Line>, n: nat)
    requires SoundSchedule(lines) && n <= |lines|
    ensures Sum(Charges(amount, lines)[..n]) >= 0
  {
    if n > 0 {
      var items := Charges(amount, lines);
      SumNonNegative(amount, lines, n - 1);
      RateRounds(amount, lines[n - 1].basisPoints);
      assert items[..n][..n - 1] == items[..n - 1];
    }
  }

  /** Money is conserved: an accepted breakdown splits the gross amount into its lines and a net that is never negative. */
  lemma Conserved(asset: Asset, amount: int, lines: seq<Line>)
    requires CalculateFees(asset, amount, lines).Ok?
    ensures var b := CalculateFees(asset, amount, lines).value;
      && b.gross == amount == b.net + Sum(b.lines) && b.totalFees == Sum(b.lines) && 0 <= b.net <= b.gross
      && forall i | 0 <= i < |b.lines| :: b.lines[i].id == lines[i].id && b.lines[i].amount >= 0
  {
    SumNonNegative(amount, lines, |lines|);
    var items := Charges(amount, lines);
    assert items[..|lines|] == items;
    forall i | 0 <= i < |lines| ensures items[i].amount >= 0 { RateRounds(amount, lines[i].basisPoints); }
  }

  function Rates(lines: seq<Line>): int
  {
    if lines == [] then 0 else Rates(lines[..|lines| - 1]) + lines[|lines| - 1].basisPoints
  }

  ghost predicate RateOnly(lines: seq<Line>) { SoundSchedule(lines) && forall i | 0 <= i < |lines| :: lines[i].minimum == None }

  lemma Distribute(a: int, x: int, y: int)
    ensures a * (x + y) == a * x + a * y
  {
  }

  /** What rounding half up leaves over a line, in ten-thousandths of a unit. */
  function LeftOver(amount: nat, basisPoints: nat): nat { (amount * basisPoints + 5000) % 10000 }

  function Left(amount: nat, lines: seq<Line>): nat
    requires forall i | 0 <= i < |lines| :: lines[i].basisPoints >= 0
  {
    if lines == [] then 0 else Left(amount, lines[..|lines| - 1]) + LeftOver(amount, lines[|lines| - 1].basisPoints)
  }

  lemma RateLeaves(amount: nat, basisPoints: nat)
    ensures 10000 * RateAmount(amount, basisPoints) == amount * basisPoints + 5000 - LeftOver(amount, basisPoints)
  {
    assert amount * basisPoints >= 0;
  }

  lemma {:induction false} TotalExactlyUpTo(amount: nat, lines: seq<Line>, n: nat)
    requires RateOnly(lines) && n <= |lines|
    ensures 10000 * Sum(Charges(amount, lines)[..n]) == amount * Rates(lines[..n]) + 5000 * n - Left(amount, lines[..n])
  {
    var items := Charges(amount, lines);
    if n > 0 {
      TotalExactlyUpTo(amount, lines, n - 1);
      RateRounds(amount, lines[n - 1].basisPoints);
      RateLeaves(amount, lines[n - 1].basisPoints);
      Distribute(amount, Rates(lines[..n - 1]), lines[n - 1].basisPoints);
      assert items[..n][..n - 1] == items[..n - 1] && lines[..n][..n - 1] == lines[..n - 1];
    }
  }

  lemma RateTotalExactly(amount: nat, lines: seq<Line>)
    requires RateOnly(lines)
    ensures 10000 * Sum(Charges(amount, lines)) == amount * Rates(lines) + 5000 * |lines| - Left(amount, lines)
  {
    TotalExactlyUpTo(amount, lines, |lines|);
    assert Charges(amount, lines)[..|lines|] == Charges(amount, lines) && lines[..|lines|] == lines;
  }

  lemma {:induction false} LeftBounded(amount: nat, lines: seq<Line>)
    requires forall i | 0 <= i < |lines| :: lines[i].basisPoints >= 0
    ensures Left(amount, lines) <= 9999 * |lines|
  {
    if lines != [] { LeftBounded(amount, lines[..|lines| - 1]); }
  }

  /** Lines without a minimum total within half a unit each of the exact total. */
  lemma RateTotal(amount: nat, lines: seq<Line>)
    requires RateOnly(lines)
    ensures -5000 * |lines| <= 10000 * Sum(Charges(amount, lines)) - amount * Rates(lines) <= 5000 * |lines|
  {
    RateTotalExactly(amount, lines);
    LeftBounded(amount, lines);
  }

  /** A rate-only schedule is accepted exactly when the amount covers the rates, half a unit a line less what rounding leaves. */
  lemma RatesFitExactly(asset: Asset, amount: nat, lines: seq<Line>)
    requires AssetError(asset).None? && RateOnly(lines)
    ensures CalculateFees(asset, amount, lines).Ok? <==> amount * Rates(lines) + 5000 * |lines| - Left(amount, lines) <= 10000 * amount
  {
    RateTotalExactly(amount, lines);
  }

  /** So it is never refused for exceeding the amount when the amount covers the rates and half a unit a line. */
  lemma RatesFit(asset: Asset, amount: nat, lines: seq<Line>)
    requires AssetError(asset).None? && RateOnly(lines) && amount * Rates(lines) + 5000 * |lines| <= 10000 * amount
    ensures CalculateFees(asset, amount, lines).Ok?
  {
    RatesFitExactly(asset, amount, lines);
  }

  /** Rates of one hundred percent in all can still be refused: two halves of one unit both round up. */
  lemma HalvesExceed(asset: Asset)
    requires AssetError(asset).None?
    ensures var lines := [Line("a", 5000, None), Line("b", 5000, None)];
      Rates(lines) == 10000 && CalculateFees(asset, 1, lines) == Err("fees_exceed_amount")
  {
    var lines := [Line("a", 5000, None), Line("b", 5000, None)];
    var items := Charges(1, lines);
    assert items[..1][..0] == [] && lines[..1][..0] == [];
    assert Sum(items[..1]) == 1 && Rates(lines[..1]) == 5000;
  }

  // ---------------------------------------------------------------- reconciliation

  datatype Figure = Figure(id: string, amount: int)

  /** What a settlement stored: gross, net, and one figure per line id. */
  datatype Settlement = Settlement(gross: int, lines: seq<Figure>, net: int)

  datatype Mismatch = Mismatch(field: string, expected: Option<int>, actual: Option<int>)

  function Stored(lines: seq<Figure>, id: string): Option<int>
  {
    if lines == [] then None else if lines[0].id == id then Some(lines[0].amount) else Stored(lines[1..], id)
  }

  function Charged(items: seq<LineItem>, id: string): Option<int>
  {
    if items == [] then None else if items[0].id == id then Some(items[0].amount) else Charged(items[1..], id)
  }

  function Compare(field: string, expected: Option<int>, actual: Option<int>): seq<Mismatch>
  {
    if expected != actual then [Mismatch(field, expected, actual)] else []
  }

  function LineMismatches(items: seq<LineItem>, lines: seq<Figure>): seq<Mismatch>
  {
    if items == [] then []
    else
      var last := items[|items| - 1];
      LineMismatches(items[..|items| - 1], lines) + Compare("line:" + last.id, Some(last.amount), Stored(lines, last.id))
  }

  function ExtraMismatches(extra: seq<Figure>, lines: seq<Figure>, items: seq<LineItem>): seq<Mismatch>
  {
    if extra == [] then []
    else
      var last := extra[|extra| - 1];
      ExtraMismatches(extra[..|extra| - 1], lines, items)
      + if Charged(items, last.id).None? then Compare("line:" + last.id, None, Stored(lines, last.id)) else []
  }

  function Mismatches(b: Breakdown, s: Settlement): seq<Mismatch>
  {
    Compare("gross", Some(b.gross), Some(s.gross)) + LineMismatches(b.lines, s.lines) + ExtraMismatches(s.lines, s.lines, b.lines)
    + Compare("net", Some(b.net), Some(s.net))
  }

  method ReconcileFees(b: Breakdown, s: Settlement) returns (matches: bool, mismatches: seq<Mismatch>)
    ensures mismatches == Mismatches(b, s) && matches == (mismatches == [])
  {
    var found := Compare("gross", Some(b.gross), Some(s.gross));
    var charged, i := [], 0;
    while i < |b.lines|
      invariant 0 <= i <= |b.lines| && charged == LineMismatches(b.lines[..i], s.lines)
    {
      assert b.lines[..i + 1][..i] == b.lines[..i];
      charged := charged + Compare("line:" + b.lines[i].id, Some(b.lines[i].amount), Stored(s.lines, b.lines[i].id));
      i := i + 1;
    }
    assert b.lines[..i] == b.lines;
    var extra, j := [], 0;
    while j < |s.lines|
      invariant 0 <= j <= |s.lines| && extra == ExtraMismatches(s.lines[..j], s.lines, b.lines)
    {
      assert s.lines[..j + 1][..j] == s.lines[..j];
      if Charged(b.lines, s.lines[j].id).None? {
        extra := extra + Compare("line:" + s.lines[j].id, None, Stored(s.lines, s.lines[j].id));
      }
      j := j + 1;
    }
    assert s.lines[..j] == s.lines;
    mismatches := found + charged + extra + Compare("net", Some(b.net), Some(s.net));
    matches := mismatches == [];
  }

  lemma {:induction false} StoredMember(lines: seq<Figure>, id: string)
    ensures Stored(lines, id).Some? <==> exists i | 0 <= i < |lines| :: lines[i].id == id
  {
    if lines != [] {
      StoredMember(lines[1..], id);
      if Stored(lines[1..], id).Some? {
        var i :| 0 <= i < |lines[1..]| && lines[1..][i].id == id;
        assert lines[i + 1].id == id;
      }
      forall i | 0 <= i < |lines| && lines[i].id == id ensures Stored(lines, id).Some? {
        if i > 0 { assert lines[1..][i - 1].id == id; }
      }
    }
  }

  lemma {:induction false} ChargedAt(items: seq<LineItem>, i: nat)
    requires i < |items| && forall k, m | 0 <= k < m < |items| :: items[k].id != items[m].id
    ensures Charged(items, items[i].id) == Some(items[i].amount)
  {
    if i > 0 { ChargedAt(items[1..], i - 1); }
  }

  lemma {:induction false} ChargedMember(items: seq<LineItem>, id: string) returns (i: nat)
    requires Charged(items, id).Some?
    ensures i < |items| && items[i].id == id && Charged(items, id) == Some(items[i].amount)
  {
    if items[0].id == id {
      i := 0;
    } else {
      i := ChargedMember(items[1..], id);
      i := i + 1;
    }
  }

  lemma {:induction false} NoLineMismatch(items: seq<LineItem>, lines: seq<Figure>)
    ensures LineMismatches(items, lines) == [] <==> forall i | 0 <= i < |items| :: Stored(lines, items[i].id) == Some(items[i].amount)
  {
    if items != [] {
      var n := |items| - 1;
      NoLineMismatch(items[..n], lines);
      assert forall i | 0 <= i < n :: items[..n][i] == items[i];
    }
  }

  lemma {:induction false} NoExtraMismatch(extra: seq<Figure>, lines: seq<Figure>, items: seq<LineItem>)
    requires forall i | 0 <= i < |extra| :: Stored(lines, extra[i].id).Some?
    ensures ExtraMismatches(extra, lines, items) == [] <==> forall i | 0 <= i < |extra| :: Charged(items, extra[i].id).Some?
  {
    if extra != [] {
      var n := |extra| - 1;
      NoExtraMismatch(extra[..n], lines, items);
      assert forall i | 0 <= i < n :: extra[..n][i] == extra[i];
    }
  }

  /** The same figure, or none, under every line id. */
  ghost predicate SameFigures(items: seq<LineItem>, lines: seq<Figure>) { forall id :: Charged(items, id) == Stored(lines, id) }

  lemma FiguresExactly(items: seq<LineItem>, lines: seq<Figure>)
    requires forall i, j | 0 <= i < j < |items| :: items[i].id != items[j].id
    ensures LineMismatches(items, lines) == [] && ExtraMismatches(lines, lines, items) == [] <==> SameFigures(items, lines)
  {
    NoLineMismatch(items, lines);
    forall i | 0 <= i < |lines| ensures Stored(lines, lines[i].id).Some? { StoredMember(lines, lines[i].id); }
    NoExtraMismatch(lines, lines, items);
    if LineMismatches(items, lines) == [] && ExtraMismatches(lines, lines, items) == [] {
      forall id ensures Charged(items, id) == Stored(lines, id) { SameFigure(items, lines, id); }
    }
    if SameFigures(items, lines) {
      forall i | 0 <= i < |items| ensures Stored(lines, items[i].id) == Some(items[i].amount) { ChargedAt(items, i); }
      forall i | 0 <= i < |lines| ensures Charged(items, lines[i].id).Some? {
        assert Charged(items, lines[i].id) == Stored(lines, lines[i].id);
      }
    }
  }

  lemma MismatchParts(b: Breakdown, s: Settlement)
    ensures Mismatches(b, s) == [] <==>
            b.gross == s.gross && b.net == s.net && LineMismatches(b.lines, s.lines) == [] && ExtraMismatches(s.lines, s.lines, b.lines) == []
  {
  }

  /** A settlement matches exactly when gross, net and the figure under every line id are the breakdown's own. */
  lemma MatchesExactly(b: Breakdown, s: Settlement)
    requires forall i, j | 0 <= i < j < |b.lines| :: b.lines[i].id != b.lines[j].id
    ensures Mismatches(b, s) == [] <==> b.gross == s.gross && b.net == s.net && SameFigures(b.lines, s.lines)
  {
    MismatchParts(b, s);
    FiguresExactly(b.lines, s.lines);
  }

  lemma SameFigure(items: seq<LineItem>, lines: seq<Figure>, id: string)
    requires forall i | 0 <= i < |items| :: Stored(lines, items[i].id) == Some(items[i].amount)
    requires forall i | 0 <= i < |lines| :: Charged(items, lines[i].id).Some?
    ensures Charged(items, id) == Stored(lines, id)
  {
    if Charged(items, id).Some? {
      var i := ChargedMember(items, id);
    } else {
      StoredMember(lines, id);
    }
  }
}
