/** Supplier bills: lines priced from what was submitted, and a header derived from
    the lines that are stored. */
module Bills {
  import opened Money
  import Scaled

  /** A submitted line: quantity, unit price and tax rate in millionths; a line may
      leave any of them out. */
  datatype LineInput = LineInput(quantity: Option<int>, price: Option<int>, rate: Option<int>)

  datatype Line = Line(number: nat, quantity: int, price: int, subtotal: int, tax: int, total: int)

  datatype Sheet = Sheet(currency: string, withholding: int, paid: int, lines: seq<Line>,
                         subtotal: int, tax: int, total: int, due: int)

  /** Absent and zero read alike; the stand-in is one for a quantity. */
  function Given(x: Option<int>, standIn: int): int { if x.None? || x.value == 0 then standIn else x.value }

  function Quantity(x: LineInput): int { Given(x.quantity, MICROS) }
  function Price(x: LineInput): int { Given(x.price, 0) }
  function Rate(x: LineInput): int { Given(x.rate, 0) }

  function Subtotal(x: LineInput, unit: int): int
    requires unit > 0
  {
    QuantizeRatio(Quantity(x) * Price(x), MICROS, unit)
  }

  function Tax(x: LineInput, unit: int): int
    requires unit > 0
  {
    QuantizeRatio(Subtotal(x, unit) * Rate(x), MICROS, unit)
  }

  function Priced(x: LineInput, unit: int, number: nat): Line
    requires unit > 0
  {
    Line(number, Quantity(x), Price(x), Subtotal(x, unit), Tax(x, unit), Subtotal(x, unit) + Tax(x, unit))
  }

  function Lines(inputs: seq<LineInput>, unit: int): (lines: seq<Line>)
    requires unit > 0
    ensures |lines| == |inputs|
  {
    if |inputs| == 0 then []
    else Lines(inputs[..|inputs| - 1], unit) + [Priced(inputs[|inputs| - 1], unit, |inputs|)]
  }

  function Subtotals(lines: seq<Line>): int {
    if |lines| == 0 then 0 else Subtotals(lines[..|lines| - 1]) + lines[|lines| - 1].subtotal
  }
  function Taxes(lines: seq<Line>): int {
    if |lines| == 0 then 0 else Taxes(lines[..|lines| - 1]) + lines[|lines| - 1].tax
  }
  function Totals(lines: seq<Line>): int {
    if |lines| == 0 then 0 else Totals(lines[..|lines| - 1]) + lines[|lines| - 1].total
  }

  function Recalculated(b: Sheet): Sheet {
    var unit := MinorUnit(b.currency);
    var subtotal, tax := Quantize(Subtotals(b.lines), unit), Quantize(Taxes(b.lines), unit);
    var total := subtotal + tax - Quantize(b.withholding, unit);
    b.(subtotal := subtotal, tax := tax, total := total, due := total - b.paid)
  }

  /** What an update names; None leaves a field alone. */
  datatype Patch = Patch(currency: Option<string>, withholding: Option<int>, lines: Option<seq<LineInput>>)

  function Merged(b: Sheet, p: Patch): Sheet {
    b.(currency := if p.currency.Some? then p.currency.value else b.currency,
       withholding := if p.withholding.Some? then p.withholding.value else b.withholding)
  }

  /** The table's checks on a line and on a header. */
  predicate LineStorable(l: Line) {
    l.quantity >= 0 && l.price >= 0 && l.subtotal >= 0 && l.tax >= 0 && l.total >= 0
  }

  predicate HeaderStorable(b: Sheet) {
    && b.subtotal >= 0 && b.tax >= 0 && b.withholding >= 0 && b.total >= 0 && b.paid >= 0
    && b.due == b.total - b.paid && b.paid <= b.total
  }

  predicate LinesStorable(lines: seq<Line>) { forall i :: 0 <= i < |lines| ==> LineStorable(lines[i]) }

  /** What an update comes to, before the table has its say. */
  function Candidate(b: Sheet, p: Patch): Sheet {
    var merged := Merged(b, p);
    var unit := MinorUnit(merged.currency);
    Recalculated(if p.lines.Some? then merged.(lines := Lines(p.lines.value, unit)) else merged)
  }

  function Updated(b: Sheet, p: Patch): Option<Sheet> {
    if p.lines == Some([]) then None
    else if p.lines.Some? && !LinesStorable(Candidate(b, p).lines) then None
    else if !HeaderStorable(Candidate(b, p)) then None
    else Some(Candidate(b, p))
  }

  /** A creation is an update of a blank bill that sends everything. */
  function Created(currency: string, withholding: int, inputs: seq<LineInput>): Option<Sheet> {
    Updated(Sheet(currency, withholding, 0, [], 0, 0, 0, 0), Patch(None, None, Some(inputs)))
  }

  // ----- header and lines agree -----

  predicate WholeLine(l: Line, unit: int)
    requires unit > 0
  {
    l.subtotal % unit == 0 && l.tax % unit == 0 && l.total == l.subtotal + l.tax
  }

  ghost predicate LinesWellFormed(b: Sheet) {
    forall i :: 0 <= i < |b.lines| ==> b.lines[i].number == i + 1 && WholeLine(b.lines[i], MinorUnit(b.currency))
  }

  ghost predicate HeaderAgrees(b: Sheet) {
    && b.subtotal == Subtotals(b.lines) && b.tax == Taxes(b.lines)
    && b.total == Totals(b.lines) - Quantize(b.withholding, MinorUnit(b.currency)) && b.due == b.total - b.paid
  }

  lemma PricedIsWhole(x: LineInput, unit: int, number: nat)
    requires unit > 0
    ensures WholeLine(Priced(x, unit, number), unit)
  {
    var p := RoundHalfUp(Quantity(x) * Price(x), MICROS * unit);
    var q := RoundHalfUp(Subtotal(x, unit) * Rate(x), MICROS * unit);
    Scaled.Unique(p * unit, unit, p, 0);
    Scaled.Unique(q * unit, unit, q, 0);
  }

  lemma {:induction false} LinesAreWhole(inputs: seq<LineInput>, unit: int)
    requires unit > 0
    ensures forall i :: 0 <= i < |inputs| ==> Lines(inputs, unit)[i] == Priced(inputs[i], unit, i + 1)
    ensures forall i :: 0 <= i < |inputs| ==> WholeLine(Lines(inputs, unit)[i], unit)
  {
    if |inputs| > 0 {
      LinesAreWhole(inputs[..|inputs| - 1], unit);
      PricedIsWhole(inputs[|inputs| - 1], unit, |inputs|);
    }
  }

  lemma {:induction false} WholeTotals(lines: seq<Line>, unit: int)
    requires unit > 0 && forall i :: 0 <= i < |lines| ==> WholeLine(lines[i], unit)
    ensures Subtotals(lines) % unit == 0 && Taxes(lines) % unit == 0
    ensures Totals(lines) == Subtotals(lines) + Taxes(lines)
  {
    if |lines| > 0 {
      var last := lines[|lines| - 1];
      WholeTotals(lines[..|lines| - 1], unit);
      Scaled.WholeSum(Subtotals(lines[..|lines| - 1]), last.subtotal, unit);
      Scaled.WholeSum(Taxes(lines[..|lines| - 1]), last.tax, unit);
    }
  }

  lemma RecalculatedAgrees(b: Sheet)
    requires LinesWellFormed(b)
    ensures LinesWellFormed(Recalculated(b)) && HeaderAgrees(Recalculated(b))
  {
    var unit := MinorUnit(b.currency);
    WholeTotals(b.lines, unit);
    QuantizeFixesWholeUnits(Subtotals(b.lines), unit);
    QuantizeFixesWholeUnits(Taxes(b.lines), unit);
    var after := Recalculated(b);
    forall i | 0 <= i < |after.lines|
      ensures after.lines[i].number == i + 1 && WholeLine(after.lines[i], MinorUnit(after.currency))
    {
      assert WholeLine(b.lines[i], unit);
    }
  }

  lemma NewLinesAreWellFormed(b: Sheet, inputs: seq<LineInput>)
    ensures LinesWellFormed(b.(lines := Lines(inputs, MinorUnit(b.currency))))
  {
    LinesAreWhole(inputs, MinorUnit(b.currency));
  }

  ghost predicate Good(b: Sheet) { LinesWellFormed(b) && HeaderAgrees(b) }

  lemma CreatedIsGood(currency: string, withholding: int, inputs: seq<LineInput>)
    requires Created(currency, withholding, inputs).Some?
    ensures Good(Created(currency, withholding, inputs).value)
  {
    var blank := Sheet(currency, withholding, 0, [], 0, 0, 0, 0);
    NewLinesAreWellFormed(blank, inputs);
    RecalculatedAgrees(blank.(lines := Lines(inputs, MinorUnit(currency))));
  }

  /** Lines come along whenever the precision changes. */
  predicate Resubmits(b: Sheet, p: Patch) {
    p.lines.Some? || MinorUnit(Merged(b, p).currency) == MinorUnit(b.currency)
  }

  lemma UpdatedIsGood(b: Sheet, p: Patch)
    requires Good(b) && Resubmits(b, p) && Updated(b, p).Some?
    ensures Good(Updated(b, p).value)
  {
    var merged := Merged(b, p);
    if p.lines.Some? {
      NewLinesAreWellFormed(merged, p.lines.value);
      RecalculatedAgrees(merged.(lines := Lines(p.lines.value, MinorUnit(merged.currency))));
    } else {
      forall i | 0 <= i < |merged.lines|
        ensures merged.lines[i].number == i + 1 && WholeLine(merged.lines[i], MinorUnit(merged.currency))
      {
        assert WholeLine(b.lines[i], MinorUnit(b.currency));
      }
      RecalculatedAgrees(merged);
    }
  }

  function Edited(b: Sheet, patches: seq<Patch>): Sheet {
    if |patches| == 0 then b else
    var before := Edited(b, patches[..|patches| - 1]);
    var after := Updated(before, patches[|patches| - 1]);
    if after.Some? then after.value else before
  }

  /** Every update of a bill that changes its precision comes with its lines. */
  ghost predicate AllResubmit(b: Sheet, patches: seq<Patch>) {
    forall n :: 0 <= n < |patches| ==> Resubmits(Edited(b, patches[..n]), patches[n])
  }

  /** Through any such updates: lines numbered 1..n, header sums of the lines, total
      less the rounded withholding, due less what was paid. */
  lemma {:induction false} EditedIsGood(b: Sheet, patches: seq<Patch>)
    requires Good(b) && AllResubmit(b, patches)
    ensures Good(Edited(b, patches))
  {
    if |patches| > 0 {
      var front := patches[..|patches| - 1];
      assert forall n :: 0 <= n < |front| ==> front[..n] == patches[..n];
      assert forall n :: 0 <= n < |front| ==> Resubmits(Edited(b, patches[..n]), patches[n]);
      EditedIsGood(b, front);
      var before, last := Edited(b, front), patches[|patches| - 1];
      assert Resubmits(before, last);
      if Updated(before, last).Some? {
        UpdatedIsGood(before, last);
      }
    }
  }

  /** Without its lines, a currency change leaves a header that still sums them
      exactly when both sums are whole units of the new currency. */
  lemma CurrencyChangeAgreesIff(b: Sheet, currency: string)
    ensures var unit, p := MinorUnit(currency), Patch(Some(currency), None, None);
            var after := Candidate(b, p);
            && Updated(b, p) in {None, Some(after)} && after.lines == b.lines
            && (after.subtotal == Subtotals(b.lines) && after.tax == Taxes(b.lines)
                <==> Subtotals(b.lines) % unit == 0 && Taxes(b.lines) % unit == 0)
            && Abs(after.total - (Subtotals(b.lines) + Taxes(b.lines) - Quantize(b.withholding, unit))) <= unit
  {
    var unit := MinorUnit(currency);
    QuantizeFixesWholeUnits(Subtotals(b.lines), unit);
    QuantizeFixesWholeUnits(Taxes(b.lines), unit);
    QuantizeError(Subtotals(b.lines), unit);
    QuantizeError(Taxes(b.lines), unit);
  }

  const HALF_POUND: seq<LineInput> := [LineInput(Some(MICROS), Some(500_000), None)]

  /** The bill of one line of EGP 0.50. */
  function HalfPoundBill(): Sheet {
    Sheet("EGP", 0, 0, Lines(HALF_POUND, 10_000), 500_000, 0, 500_000, 500_000)
  }

  lemma ZeroStaysZero(unit: int)
    requires unit > 0
    ensures Quantize(0, unit) == 0
  {
    RoundingMultiple(0, unit);
  }

  lemma HalfPoundIsCreated()
    ensures Created("EGP", 0, HALF_POUND) == Some(HalfPoundBill())
  {
    HalfPoundComesTo();
    ZeroStaysZero(10_000);
    UpdateAcceptedIff(Sheet("EGP", 0, 0, [], 0, 0, 0, 0), Patch(None, None, Some(HALF_POUND)));
  }

  function YenBill(): Sheet {
    Sheet("JPY", 0, 0, Lines(HALF_POUND, 10_000), 1_000_000, 0, 1_000_000, 1_000_000)
  }

  lemma HalfPoundInYen()
    ensures Updated(HalfPoundBill(), Patch(Some("JPY"), None, None))
         == Some(YenBill())
  {
    UnitsOfWitness();
    HalfPoundComesTo();
    ZeroStaysZero(1_000_000);
    LinesAreStorable(HALF_POUND, 10_000);
    UpdateAcceptedIff(HalfPoundBill(), Patch(Some("JPY"), None, None));
  }

  /** One line of EGP 0.50, then moved to yen without its lines: the header says 1, the
      line 0.50. */
  lemma YenChangeDisagrees()
    ensures Created("EGP", 0, HALF_POUND) == Some(HalfPoundBill()) && Good(HalfPoundBill())
    ensures Updated(HalfPoundBill(), Patch(Some("JPY"), None, None)) == Some(YenBill())
    ensures HalfPoundBill().total == 500_000 && YenBill().total == 1_000_000 && Totals(YenBill().lines) == 500_000
    ensures !HeaderAgrees(YenBill())
  {
    HalfPoundIsGood();
    HalfPoundInYen();
    YenBillIsOff();
  }

  lemma HalfPoundIsGood()
    ensures Created("EGP", 0, HALF_POUND) == Some(HalfPoundBill()) && Good(HalfPoundBill())
  {
    HalfPoundIsCreated();
    CreatedIsGood("EGP", 0, HALF_POUND);
  }

  lemma YenBillIsOff()
    ensures Totals(YenBill().lines) == 500_000 && !HeaderAgrees(YenBill())
  {
    HalfPoundComesTo();
    assert Subtotals(YenBill().lines) == 500_000;
  }

  lemma UnitsOfWitness()
    ensures MinorUnit("EGP") == 10_000 && MinorUnit("JPY") == 1_000_000
    ensures Subtotal(HALF_POUND[0], 10_000) == 500_000 && Tax(HALF_POUND[0], 10_000) == 0
  {
    assert Upper("EGP") == "EGP" by { assert "EGP"[1..] == "GP" && "GP"[1..] == "P" && "P"[1..] == ""; }
    assert Upper("JPY") == "JPY" by { assert "JPY"[1..] == "PY" && "PY"[1..] == "Y" && "Y"[1..] == ""; }
  }

  // ----- distance from exact arithmetic -----

  /** Quantity times price with tax on top, unrounded, in 10^-12 micro-units. */
  function ExactLine(x: LineInput): int {
    var net := Quantity(x) * Price(x);
    net * MICROS + net * Rate(x)
  }

  function Exact(inputs: seq<LineInput>): int {
    if |inputs| == 0 then 0 else Exact(inputs[..|inputs| - 1]) + ExactLine(inputs[|inputs| - 1])
  }

  /** s, t, x, r: subtotal, tax, exact subtotal and rate; sr and xr are their products with r. */
  lemma CombinedError(s: int, t: int, x: int, r: int, unit: int, sr: int, xr: int)
    requires unit > 0 && 0 <= r <= MICROS && sr == s * r && xr == x * r
    requires 2 * Abs(s * MICROS - x) <= MICROS * unit && 2 * Abs(t * MICROS - sr) <= MICROS * unit
    ensures 2 * Abs((s + t) * MICROS * MICROS - (x * MICROS + xr)) <= 3 * (MICROS * MICROS * unit)
  {
    var e := s * MICROS - x;
    assert e * r == sr * MICROS - xr by {
      Scaled.Distribute(s * MICROS, x, r);
      Scaled.ScaleTwo(MICROS, s, r);
    }
    assert Abs(e * r) <= Abs(e) * MICROS by {
      Scaled.Monotone(r, MICROS, Abs(e));
      if e < 0 {
        Scaled.Negate(e, r);
      }
      Scaled.NonNegative2(Abs(e), r);
    }
  }

  lemma RoundedTwice(x: int, s: int, t: int, r: int, unit: int)
    requires unit > 0 && 0 <= r <= MICROS
    requires s == QuantizeRatio(x, MICROS, unit) && t == QuantizeRatio(s * r, MICROS, unit)
    ensures 2 * Abs((s + t) * MICROS * MICROS - (x * MICROS + x * r)) <= 3 * (MICROS * MICROS * unit)
  {
    var sr, xr := s * r, x * r;
    QuantizeRatioError(x, MICROS, unit);
    QuantizeRatioError(sr, MICROS, unit);
    CombinedError(s, t, x, r, unit, sr, xr);
  }

  lemma LineError(x: LineInput, unit: int)
    requires unit > 0 && 0 <= Rate(x) <= MICROS
    ensures 2 * Abs((Subtotal(x, unit) + Tax(x, unit)) * MICROS * MICROS - ExactLine(x)) <= 3 * (MICROS * MICROS * unit)
  {
    RoundedTwice(Quantity(x) * Price(x), Subtotal(x, unit), Tax(x, unit), Rate(x), unit);
  }

  predicate Close(total: int, exact: int, n: nat, bound: int) {
    2 * Abs(total * MICROS * MICROS - exact) <= n * bound
  }

  lemma OneMoreLine(total: int, exact: int, n: nat, bound: int, one: int, exactOne: int)
    requires Close(total, exact, n, bound) && Close(one, exactOne, 1, bound)
    ensures Close(total + one, exact + exactOne, n + 1, bound)
  {
    Scaled.Distribute(n, 1, bound);
  }

  lemma {:induction false} ErrorsAccumulate(inputs: seq<LineInput>, unit: int, bound: int)
    requires unit > 0 && bound == 3 * (MICROS * MICROS * unit)
    requires forall i :: 0 <= i < |inputs| ==> 0 <= Rate(inputs[i]) <= MICROS
    ensures Close(Totals(Lines(inputs, unit)), Exact(inputs), |inputs|, bound)
  {
    if |inputs| > 0 {
      var front, last := inputs[..|inputs| - 1], inputs[|inputs| - 1];
      ErrorsAccumulate(front, unit, bound);
      LineError(last, unit);
      OneMoreLine(Totals(Lines(front, unit)), Exact(front), |front|, bound,
                  Subtotal(last, unit) + Tax(last, unit), ExactLine(last));
      OneMoreTotal(inputs, unit);
    }
  }

  lemma OneMoreTotal(inputs: seq<LineInput>, unit: int)
    requires unit > 0 && |inputs| > 0
    ensures var front, last := inputs[..|inputs| - 1], inputs[|inputs| - 1];
            Totals(Lines(inputs, unit)) == Totals(Lines(front, unit)) + (Subtotal(last, unit) + Tax(last, unit))
  {
    var lines := Lines(inputs, unit);
    assert lines[..|lines| - 1] == Lines(inputs[..|inputs| - 1], unit);
  }

  /** For rates between 0 and 1 the lines total within one and a half minor units per
      line of exact arithmetic. */
  lemma TotalsAreClose(inputs: seq<LineInput>, unit: int)
    requires unit > 0 && forall i :: 0 <= i < |inputs| ==> 0 <= Rate(inputs[i]) <= MICROS
    ensures 2 * Abs(Totals(Lines(inputs, unit)) * MICROS * MICROS - Exact(inputs))
         <= |inputs| * (3 * (MICROS * MICROS * unit))
  {
    ErrorsAccumulate(inputs, unit, 3 * (MICROS * MICROS * unit));
  }

  // ----- what was submitted is what is stored -----

  /** A stored line against its own fields: each amount within half a unit of what
      the line says, and no line submitted with a non-negative quantity counts none. */
  lemma LineMeansItsFields(x: LineInput, unit: int, number: nat)
    requires unit > 0
    ensures var l := Priced(x, unit, number);
            && 2 * Abs(l.subtotal * MICROS - l.quantity * l.price) <= MICROS * unit
            && 2 * Abs(l.tax * MICROS - l.subtotal * Rate(x)) <= MICROS * unit
            && (x.quantity.Some? && x.quantity.value != 0 ==> l.quantity == x.quantity.value)
            && (x.quantity.None? || x.quantity.value >= 0 ==> l.quantity > 0)
            && (x.price.Some? ==> l.price == x.price.value)
  {
    QuantizeRatioError(Quantity(x) * Price(x), MICROS, unit);
    QuantizeRatioError(Subtotal(x, unit) * Rate(x), MICROS, unit);
  }

  /** What the serializer lets through: no negative quantity, price or rate. */
  predicate InputsNonNegative(inputs: seq<LineInput>) {
    forall i :: 0 <= i < |inputs| ==> Quantity(inputs[i]) >= 0 && Price(inputs[i]) >= 0 && Rate(inputs[i]) >= 0
  }

  lemma PricedIsStorable(x: LineInput, unit: int, number: nat)
    requires unit > 0 && Quantity(x) >= 0 && Price(x) >= 0 && Rate(x) >= 0
    ensures LineStorable(Priced(x, unit, number))
  {
    Scaled.NonNegative2(Quantity(x), Price(x));
    RatioIsNonNegative(Quantity(x) * Price(x), unit);
    Scaled.NonNegative2(Subtotal(x, unit), Rate(x));
    RatioIsNonNegative(Subtotal(x, unit) * Rate(x), unit);
  }

  lemma RatioIsNonNegative(n: int, unit: int)
    requires n >= 0 && unit > 0
    ensures QuantizeRatio(n, MICROS, unit) >= 0
  {
    NearestWhenNonNegative(n, MICROS * unit);
    Scaled.NonNegative2(RoundHalfUp(n, MICROS * unit), unit);
  }

  lemma LinesAreStorable(inputs: seq<LineInput>, unit: int)
    requires unit > 0 && InputsNonNegative(inputs)
    ensures LinesStorable(Lines(inputs, unit))
  {
    LinesAreWhole(inputs, unit);
    forall i | 0 <= i < |inputs| ensures LineStorable(Lines(inputs, unit)[i]) {
      PricedIsStorable(inputs[i], unit, i + 1);
    }
  }

  lemma {:induction false} SumsAreNonNegative(lines: seq<Line>)
    requires LinesStorable(lines)
    ensures Subtotals(lines) >= 0 && Taxes(lines) >= 0
  {
    if |lines| > 0 {
      SumsAreNonNegative(lines[..|lines| - 1]);
    }
  }

  lemma HeaderStorableIff(b: Sheet)
    requires LinesStorable(b.lines) && b.withholding >= 0 && b.paid >= 0
    ensures var after := Recalculated(b);
            HeaderStorable(after)
            <==> b.paid + Quantize(b.withholding, MinorUnit(b.currency)) <= after.subtotal + after.tax
  {
    var unit := MinorUnit(b.currency);
    SumsAreNonNegative(b.lines);
    RoundingMultiple(0, unit);
    QuantizeIsMonotone(0, Subtotals(b.lines), unit);
    QuantizeIsMonotone(0, Taxes(b.lines), unit);
  }

  /** With no negative figure anywhere, an update is accepted exactly when it has lines and
      what is paid and withheld does not exceed what they come to. */
  lemma UpdateAcceptedIff(b: Sheet, p: Patch)
    requires b.paid >= 0 && Merged(b, p).withholding >= 0
    requires if p.lines.Some? then InputsNonNegative(p.lines.value) else LinesStorable(b.lines)
    ensures var after := Candidate(b, p);
            Updated(b, p).Some?
            <==> p.lines != Some([])
                 && b.paid + Quantize(after.withholding, MinorUnit(after.currency)) <= after.subtotal + after.tax
  {
    var merged := Merged(b, p);
    var unit := MinorUnit(merged.currency);
    if p.lines.Some? {
      LinesAreStorable(p.lines.value, unit);
      HeaderStorableIff(merged.(lines := Lines(p.lines.value, unit)));
    } else {
      HeaderStorableIff(merged);
    }
  }

  /** Any update at all, negative figures included: it is accepted exactly when no line it
      writes and no header figure is negative and what is paid and withheld does not exceed
      what the lines come to. Lines it does not write are not looked at. */
  lemma AnyUpdateAcceptedIff(b: Sheet, p: Patch)
    ensures var after := Candidate(b, p);
            Updated(b, p).Some?
            <==> && p.lines != Some([])
                 && after.subtotal >= 0 && after.tax >= 0 && after.withholding >= 0 && b.paid >= 0
                 && b.paid + Quantize(after.withholding, MinorUnit(after.currency)) <= after.subtotal + after.tax
                 && (p.lines.Some? ==>
                       forall i :: 0 <= i < |after.lines| ==>
                         && after.lines[i].quantity >= 0 && after.lines[i].price >= 0 && after.lines[i].subtotal >= 0
                         && after.lines[i].tax >= 0 && after.lines[i].total >= 0)
  {}

  /** Whatever was sent, what an update leaves behind has no negative figure, in no line it
      wrote and not in the header, and is not paid beyond its total. */
  lemma AcceptedIsNonNegative(b: Sheet, p: Patch)
    requires Updated(b, p).Some?
    ensures var after := Updated(b, p).value;
            && after.subtotal >= 0 && after.tax >= 0 && after.withholding >= 0
            && 0 <= after.paid <= after.total && after.due == after.total - after.paid >= 0
            && (p.lines.Some? ==>
                  && after.lines != []
                  && forall i :: 0 <= i < |after.lines| ==>
                       && after.lines[i].quantity >= 0 && after.lines[i].price >= 0 && after.lines[i].subtotal >= 0
                       && after.lines[i].tax >= 0 && after.lines[i].total >= 0)
  {
    var after := Updated(b, p).value;
    if p.lines.Some? {
      forall i | 0 <= i < |after.lines| ensures LineStorable(after.lines[i]) {}
    }
  }

  lemma HalfPoundWithheld(w: nat)
    ensures Created("EGP", w, HALF_POUND).Some? <==> Quantize(w, 10_000) <= 500_000
  {
    HalfPoundComesTo();
    UpdateAcceptedIff(Sheet("EGP", w, 0, [], 0, 0, 0, 0), Patch(None, None, Some(HALF_POUND)));
  }

  /** Withholding more than the bill comes to is refused. */
  lemma WithholdingIsCapped()
    ensures Created("EGP", 500_000, HALF_POUND).Some? && Created("EGP", 510_000, HALF_POUND).None?
  {
    HalfPoundWithheld(500_000);
    HalfPoundWithheld(510_000);
    RoundingMultiple(50, 10_000);
    RoundingMultiple(51, 10_000);
  }

  lemma HalfPoundComesTo()
    ensures MinorUnit("EGP") == 10_000 && InputsNonNegative(HALF_POUND)
    ensures Subtotals(Lines(HALF_POUND, 10_000)) == 500_000 && Taxes(Lines(HALF_POUND, 10_000)) == 0
    ensures Totals(Lines(HALF_POUND, 10_000)) == 500_000
  {
    UnitsOfWitness();
    var lines := Lines(HALF_POUND, 10_000);
    assert HALF_POUND[..0] == [] && lines == [] + [Priced(HALF_POUND[0], 10_000, 1)];
    assert lines[..0] == [];
  }

  /** An update changes what it names and nothing else but the derived header. */
  lemma UpdateTouchesWhatItNames(b: Sheet, p: Patch)
    requires Updated(b, p).Some?
    ensures var after := Updated(b, p).value;
            && after.paid == b.paid
            && (p.currency.None? ==> after.currency == b.currency)
            && (p.currency.Some? ==> after.currency == p.currency.value)
            && (p.withholding.None? ==> after.withholding == b.withholding)
            && (p.withholding.Some? ==> after.withholding == p.withholding.value)
            && (p.lines.None? ==> after.lines == b.lines)
            && (p.lines.Some? ==> after.lines == Lines(p.lines.value, MinorUnit(after.currency)))
  {}

  /** Sending the same update again changes nothing at all. */
  lemma UpdateIsRepeatable(b: Sheet, p: Patch)
    requires Updated(b, p).Some?
    ensures Updated(Updated(b, p).value, p) == Updated(b, p)
  {
    var after := Updated(b, p).value;
    UpdateTouchesWhatItNames(b, p);
    assert Merged(after, p) == after;
    assert Recalculated(after) == after;
  }

  // ----- the two write paths, as they run -----

  class Bill {
    var currency: string
    var withholding: int
    var paid: int
    var lines: seq<Line>
    var subtotal: int
    var tax: int
    var total: int
    var due: int

    constructor (currency: string, withholding: int, paid: int)
      ensures Contents() == Sheet(currency, withholding, paid, [], 0, 0, 0, 0)
    {
      this.currency, this.withholding, this.paid := currency, withholding, paid;
      lines, subtotal, tax, total, due := [], 0, 0, 0, 0;
    }

    function Contents(): Sheet
      reads this
    {
      Sheet(currency, withholding, paid, lines, subtotal, tax, total, due)
    }

    /** Appends to what is there, numbering from 1. */
    method WriteLines(inputs: seq<LineInput>)
      modifies this`lines
      ensures lines == old(lines) + Lines(inputs, MinorUnit(currency))
    {
      var rows := [];
      var unit := MinorUnit(currency);
      for i := 0 to |inputs|
        invariant rows == Lines(inputs[..i], unit)
      {
        var sent := inputs[i].quantity;
        var quantity := if sent.Some? && sent.value != 0 then sent.value else MICROS;
        var price := if inputs[i].price.Some? then inputs[i].price.value else 0;
        var subtotal := QuantizeRatio(quantity * price, MICROS, unit);
        var rate := if inputs[i].rate.Some? then inputs[i].rate.value else 0;
        var tax := QuantizeRatio(subtotal * rate, MICROS, unit);
        assert inputs[..i + 1][..i] == inputs[..i];
        rows := rows + [Line(i + 1, quantity, price, subtotal, tax, subtotal + tax)];
      }
      assert inputs[..|inputs|] == inputs;
      lines := lines + rows;
    }

    method RecalculateTotals()
      modifies this`subtotal, this`tax, this`total, this`due
      ensures Contents() == Recalculated(old(Contents()))
    {
      var subtotals, taxes := 0, 0;
      for i := 0 to |lines|
        invariant subtotals == Subtotals(lines[..i]) && taxes == Taxes(lines[..i])
      {
        assert lines[..i + 1][..i] == lines[..i];
        subtotals, taxes := subtotals + lines[i].subtotal, taxes + lines[i].tax;
      }
      assert lines[..|lines|] == lines;
      var unit := MinorUnit(currency);
      subtotal, tax := Quantize(subtotals, unit), Quantize(taxes, unit);
      total := subtotal + tax - Quantize(withholding, unit);
      due := total - paid;
    }

    method MergeFields(p: Patch)
      modifies this`currency, this`withholding
      ensures Contents() == Merged(old(Contents()), p)
    {
      if p.currency.Some? {
        currency := p.currency.value;
      }
      if p.withholding.Some? {
        withholding := p.withholding.value;
      }
    }

    /** Wholesale replacement: nothing of the old lines is left. */
    method ReplaceLines(inputs: seq<LineInput>)
      modifies this`lines
      ensures Contents() == old(Contents()).(lines := Lines(inputs, MinorUnit(currency)))
    {
      lines := [];
      WriteLines(inputs);
    }

    /** An update: fields first, then the lines if any were sent, then the header; undone
        when the table refuses what comes of it. */
    method Update(p: Patch) returns (ok: bool)
      modifies this
      ensures ok == Updated(old(Contents()), p).Some?
      ensures Contents() == if ok then Updated(old(Contents()), p).value else old(Contents())
    {
      if p.lines == Some([]) {
        return false;
      }
      var saved := Contents();
      MergeFields(p);
      if p.lines.Some? {
        ReplaceLines(p.lines.value);
      }
      RecalculateTotals();
      if (p.lines.Some? && !LinesStorable(lines)) || !HeaderStorable(Contents()) {
        Restore(saved);
        return false;
      }
      return true;
    }

    method Restore(saved: Sheet)
      modifies this
      ensures Contents() == saved
    {
      currency, withholding, paid, lines := saved.currency, saved.withholding, saved.paid, saved.lines;
      subtotal, tax, total, due := saved.subtotal, saved.tax, saved.total, saved.due;
    }
  }
}
