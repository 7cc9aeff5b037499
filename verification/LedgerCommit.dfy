/** When an accepted draft reaches the ledger: the two checks the database makes on the
    rounded lines, as conditions on the draft alone. */
module LedgerCommit {
  import opened Money
  import opened Sums
  import opened Ledger
  import LedgerLaws

  function Rounded(column: seq<int>, unit: int): (s: seq<int>)
    requires unit > 0
    ensures |s| == |column|
  {
    seq(|column|, i requires 0 <= i < |column| => Quantize(column[i], unit))
  }

  /** No line rounds to nothing on both sides. */
  predicate LinesSurvive(d: EntryDraft) {
    forall i :: 0 <= i < |d.lines| ==>
      Quantize(d.lines[i].debit, MinorUnit(d.currency)) > 0 || Quantize(d.lines[i].credit, MinorUnit(d.currency)) > 0
  }

  /** Rounding line by line gives the rounded totals. */
  predicate SumsAgree(d: EntryDraft) {
    var unit := MinorUnit(d.currency);
    && Sum(Rounded(DraftDebits(d.lines), unit)) == Quantize(Sum(DraftDebits(d.lines)), unit)
    && Sum(Rounded(DraftCredits(d.lines), unit)) == Quantize(Sum(DraftCredits(d.lines)), unit)
  }

  /** Everything the service itself asks before it writes: a valid draft under an unused
      key, an open period of an open year, an active journal and a rate. */
  predicate Admitted(b: Books, d: EntryDraft, onFile: Option<int>) {
    var period, rate := FindPeriod(b.periods, d.date.day), ResolveRate(b, d.currency, d.rate, onFile);
    && Validate(b, d).None? && (d.key == NoKey || FindKey(b.entries, d.key).None?)
    && period.Some? && period.value.status == Open && !period.value.yearClosed
    && d.journal in b.journals && b.journals[d.journal].active
    && rate.Some? && rate.value > 0
  }

  lemma RoundsToNonNegative(x: int, unit: int)
    requires unit > 0 && x >= 0
    ensures Quantize(x, unit) >= 0 && (x == 0 ==> Quantize(x, unit) == 0)
  {
    RoundingMultiple(0, unit);
    QuantizeIsMonotone(0, x, unit);
  }

  lemma LineSurvivesIff(l: LineDraft, unit: int, rate: int, baseUnit: int)
    requires LineOk(l) && unit > 0 && baseUnit > 0
    ensures SingleSided(PostedLine(l, unit, rate, baseUnit))
            <==> Quantize(l.debit, unit) > 0 || Quantize(l.credit, unit) > 0
  {
    RoundsToNonNegative(l.debit, unit);
    RoundsToNonNegative(l.credit, unit);
  }

  lemma WrittenColumns(b: Books, d: EntryDraft, rate: int)
    requires d.journal in b.journals
    ensures var e, unit := NewEntry(b, d, rate), MinorUnit(d.currency);
            && Debits(e.lines) == Rounded(DraftDebits(d.lines), unit)
            && Credits(e.lines) == Rounded(DraftCredits(d.lines), unit)
  {}

  /** What the database says to a valid draft in an open year. */
  lemma CommitOutcome(b: Books, d: EntryDraft, rate: int)
    requires d.journal in b.journals && forall i :: 0 <= i < |d.lines| ==> LineOk(d.lines[i])
    ensures Commit(b, d, rate, false).1
         == if !LinesSurvive(d) then Failed(LineVanishes)
            else if !SumsAgree(d) then Failed(LinesDisagree) else Done(|b.entries|)
  {
    var e, unit := NewEntry(b, d, rate), MinorUnit(d.currency);
    WrittenColumns(b, d, rate);
    forall i | 0 <= i < |d.lines|
      ensures SingleSided(e.lines[i]) <==> Quantize(d.lines[i].debit, unit) > 0 || Quantize(d.lines[i].credit, unit) > 0
    {
      LineSurvivesIff(d.lines[i], unit, rate, MinorUnit(b.base));
    }
  }

  /** A draft the service admits is posted exactly when no line vanishes and the rounded
      lines add up to the rounded totals; otherwise the database undoes it. */
  lemma AdmittedStandsIff(b: Books, d: EntryDraft, onFile: Option<int>)
    requires Admitted(b, d, onFile)
    ensures Post(b, d, onFile).1 == Done(|b.entries|) <==> LinesSurvive(d) && SumsAgree(d)
    ensures Post(b, d, onFile).1.Failed? ==> Post(b, d, onFile).1.error in {LineVanishes, LinesDisagree}
  {
    CommitOutcome(b, d, ResolveRate(b, d.currency, d.rate, onFile).value);
  }

  /** The refusals of the database, for every draft: a vanishing line at once, and
      disagreeing lines at commit, after the service has returned. */
  lemma UndoneIff(b: Books, d: EntryDraft, onFile: Option<int>)
    ensures Post(b, d, onFile).1 == Failed(LineVanishes) <==> Admitted(b, d, onFile) && !LinesSurvive(d)
    ensures Post(b, d, onFile).1 == Failed(LinesDisagree)
            <==> Admitted(b, d, onFile) && LinesSurvive(d) && !SumsAgree(d)
  {
    if Validate(b, d).None? && d.journal in b.journals {
      var rate := ResolveRate(b, d.currency, d.rate, onFile);
      if rate.Some? {
        CommitOutcome(b, d, rate.value);
      }
    }
  }

  /** Lines at currency precision meet both conditions. */
  lemma PreciseDraftSettles(d: EntryDraft)
    requires LedgerLaws.Precise(d) && forall i :: 0 <= i < |d.lines| ==> LineOk(d.lines[i])
    ensures LinesSurvive(d) && SumsAgree(d)
  {
    var unit, debits, credits := MinorUnit(d.currency), DraftDebits(d.lines), DraftCredits(d.lines);
    forall i | 0 <= i < |d.lines|
      ensures Quantize(d.lines[i].debit, unit) == d.lines[i].debit
              && Quantize(d.lines[i].credit, unit) == d.lines[i].credit
    {
      QuantizeFixesWholeUnits(d.lines[i].debit, unit);
      QuantizeFixesWholeUnits(d.lines[i].credit, unit);
    }
    assert Rounded(debits, unit) == debits && Rounded(credits, unit) == credits;
    LedgerLaws.WholeColumn(debits, unit);
    LedgerLaws.WholeColumn(credits, unit);
    QuantizeFixesWholeUnits(Sum(debits), unit);
    QuantizeFixesWholeUnits(Sum(credits), unit);
  }

  /** For such drafts the database never has to undo a posting. */
  lemma PreciseDraftPassesTheTrigger(b: Books, d: EntryDraft, onFile: Option<int>)
    requires LedgerLaws.Precise(d)
    ensures Post(b, d, onFile).1 !in {Failed(LineVanishes), Failed(LinesDisagree)}
  {
    UndoneIff(b, d, onFile);
    if Validate(b, d).None? {
      PreciseDraftSettles(d);
    }
  }
}
