/** What posting and voiding ask of the books, told from the tables alone, and every column
    of what a posting writes. */
module LedgerAdmission {
  import opened Money
  import opened Sums
  import opened Ledger
  import opened LedgerInvariants
  import LedgerCommit

  // ----- the period of a date -----

  /** Period i answers for a day: it covers the day and none before it does. */
  predicate AnswersFor(periods: seq<Period>, i: nat, day: int) {
    && i < |periods| && periods[i].first <= day <= periods[i].last
    && forall j :: 0 <= j < i ==> !(periods[j].first <= day <= periods[j].last)
  }

  /** The lookup finds the first covering period, and nothing exactly when none covers. */
  lemma {:induction false} PeriodFoundIff(periods: seq<Period>, day: int)
    ensures FindPeriod(periods, day).Some? <==> exists i: nat :: AnswersFor(periods, i, day)
    ensures forall i: nat :: AnswersFor(periods, i, day) ==> FindPeriod(periods, day) == Some(periods[i])
    ensures FindPeriod(periods, day).None?
            <==> forall i :: 0 <= i < |periods| ==> !(periods[i].first <= day <= periods[i].last)
  {
    if |periods| > 0 {
      var rest := periods[1..];
      PeriodFoundIff(rest, day);
      if periods[0].first <= day <= periods[0].last {
        assert AnswersFor(periods, 0, day);
      } else {
        forall i: nat | AnswersFor(periods, i, day) ensures AnswersFor(rest, i - 1, day) && rest[i - 1] == periods[i] {
          forall j | 0 <= j < i - 1 ensures !(rest[j].first <= day <= rest[j].last) {
            assert rest[j] == periods[j + 1];
          }
        }
        if i: nat :| AnswersFor(rest, i, day) {
          assert forall j :: 0 < j <= i ==> periods[j] == rest[j - 1];
          assert AnswersFor(periods, i + 1, day);
        }
      }
    }
  }

  /** The day lies in an open period. */
  ghost predicate OpenOn(periods: seq<Period>, day: int) {
    exists i: nat :: AnswersFor(periods, i, day) && periods[i].status == PeriodStatus.Open
  }

  /** And the year it belongs to is not closed. */
  ghost predicate UnlockedOn(periods: seq<Period>, day: int) {
    exists i: nat :: AnswersFor(periods, i, day) && periods[i].status == PeriodStatus.Open && !periods[i].yearClosed
  }

  lemma OpenOnIff(periods: seq<Period>, day: int)
    ensures var found := FindPeriod(periods, day);
            && (OpenOn(periods, day) <==> found.Some? && found.value.status == PeriodStatus.Open)
            && (UnlockedOn(periods, day)
                <==> found.Some? && found.value.status == PeriodStatus.Open && !found.value.yearClosed)
  {
    PeriodFoundIff(periods, day);
    var found := FindPeriod(periods, day);
    if found.Some? {
      var i: nat :| AnswersFor(periods, i, day);
      assert found.value == periods[i];
    }
  }

  // ----- posting -----

  /** A draft the books can take: lines of one side each on live accounts, and totals that
      round to one positive amount. */
  predicate Sendable(b: Books, d: EntryDraft) {
    var unit := MinorUnit(d.currency);
    && |d.lines| >= 2 && d.rate > 0
    && (forall i :: 0 <= i < |d.lines| ==>
          (d.lines[i].debit > 0 && d.lines[i].credit == 0) || (d.lines[i].debit == 0 && d.lines[i].credit > 0))
    && (forall i :: 0 <= i < |d.lines| ==>
          var a := d.lines[i].account; a < |b.accounts| && b.accounts[a].postable && b.accounts[a].active)
    && Quantize(Sum(DraftDebits(d.lines)), unit) == Quantize(Sum(DraftCredits(d.lines)), unit) > 0
  }

  /** The rate a draft is posted at: one in base currency, else the one supplied, and the
      one on file where a supplied one says nothing. */
  predicate PostedAt(b: Books, d: EntryDraft, onFile: Option<int>, rate: int) {
    if d.currency == b.base then d.rate == MICROS == rate
    else rate > 0 && (if d.rate == MICROS then onFile == Some(rate) else d.rate == rate)
  }

  lemma SendableIsValid(b: Books, d: EntryDraft)
    ensures Validate(b, d).None? <==> Sendable(b, d)
  {
    if Sendable(b, d) {
      forall i | 0 <= i < |d.lines| ensures LineOk(d.lines[i]) {}
    }
  }

  lemma RateResolvedIff(b: Books, d: EntryDraft, onFile: Option<int>, rate: int)
    requires d.rate > 0
    ensures PostedAt(b, d, onFile, rate) <==> rate > 0 && ResolveRate(b, d.currency, d.rate, onFile) == Some(rate)
  {}

  ghost predicate Rated(b: Books, d: EntryDraft, onFile: Option<int>) {
    exists rate :: PostedAt(b, d, onFile, rate)
  }

  lemma RatedIff(b: Books, d: EntryDraft, onFile: Option<int>)
    requires d.rate > 0
    ensures var rate := ResolveRate(b, d.currency, d.rate, onFile);
            Rated(b, d, onFile) <==> rate.Some? && rate.value > 0
  {
    var rate := ResolveRate(b, d.currency, d.rate, onFile);
    if rate.Some? {
      RateResolvedIff(b, d, onFile, rate.value);
    }
    if Rated(b, d, onFile) {
      var r :| PostedAt(b, d, onFile, r);
      RateResolvedIff(b, d, onFile, r);
    }
  }

  predicate Unspent(entries: seq<Entry>, key: Key) {
    key == NoKey || forall i :: 0 <= i < |entries| ==> entries[i].key != key
  }

  lemma UnspentIff(entries: seq<Entry>, key: Key)
    ensures Unspent(entries, key) <==> key == NoKey || FindKey(entries, key).None?
  {}

  lemma AdmittedIff(b: Books, d: EntryDraft, onFile: Option<int>)
    ensures LedgerCommit.Admitted(b, d, onFile)
            <==> && Sendable(b, d) && Unspent(b.entries, d.key) && UnlockedOn(b.periods, d.date.day)
                 && d.journal in b.journals && b.journals[d.journal].active && Rated(b, d, onFile)
  {
    SendableIsValid(b, d);
    UnspentIff(b.entries, d.key);
    OpenOnIff(b.periods, d.date.day);
    if Sendable(b, d) {
      RatedIff(b, d, onFile);
    }
  }

  lemma WrittenIsAdmitted(b: Books, d: EntryDraft, onFile: Option<int>)
    ensures |Post(b, d, onFile).0.entries| > |b.entries|
            ==> LedgerCommit.Admitted(b, d, onFile) && Post(b, d, onFile).1 == Done(|b.entries|)
  {}

  /** Posting writes a row exactly when the draft is sendable, its key unspent, its day in an
      open period of an open year, its journal active, a rate at hand, no line rounds to
      nothing and the rounded lines add up to the rounded totals. */
  lemma PostWritesIff(b: Books, d: EntryDraft, onFile: Option<int>)
    ensures |Post(b, d, onFile).0.entries| == |b.entries| + 1
            <==> && Sendable(b, d) && Unspent(b.entries, d.key) && UnlockedOn(b.periods, d.date.day)
                 && d.journal in b.journals && b.journals[d.journal].active && Rated(b, d, onFile)
                 && LedgerCommit.LinesSurvive(d) && LedgerCommit.SumsAgree(d)
  {
    AdmittedIff(b, d, onFile);
    WrittenIsAdmitted(b, d, onFile);
    if LedgerCommit.Admitted(b, d, onFile) {
      LedgerCommit.AdmittedStandsIff(b, d, onFile);
      PostKeepsRows(b, d, onFile);
    }
  }

  /** Nothing is ever posted on a day whose period is missing, closed or half closed: the
      books stay as they were, and the answer is a refusal or an earlier entry. */
  lemma NothingPostedUnlessOpen(b: Books, d: EntryDraft, onFile: Option<int>)
    requires !OpenOn(b.periods, d.date.day)
    ensures Post(b, d, onFile).0 == b
    ensures Post(b, d, onFile).1.Done? ==> !Unspent(b.entries, d.key)
  {
    OpenOnIff(b.periods, d.date.day);
    UnspentIff(b.entries, d.key);
  }

  /** Which of the two refusals it is. */
  lemma PeriodRefusalIff(b: Books, d: EntryDraft, onFile: Option<int>)
    requires Sendable(b, d) && Unspent(b.entries, d.key)
    ensures Post(b, d, onFile).1 == Failed(PeriodNotOpen)
            <==> exists i: nat :: AnswersFor(b.periods, i, d.date.day) && b.periods[i].status != PeriodStatus.Open
    ensures Post(b, d, onFile).1 == Failed(NoPeriod)
            <==> forall i :: 0 <= i < |b.periods| ==> !(b.periods[i].first <= d.date.day <= b.periods[i].last)
  {
    SendableIsValid(b, d);
    UnspentIff(b.entries, d.key);
    PeriodFoundIff(b.periods, d.date.day);
    LateRefusals(b, d, onFile);
  }

  /** Past the period checks a posting is refused for other reasons. */
  lemma LateRefusals(b: Books, d: EntryDraft, onFile: Option<int>)
    requires Validate(b, d).None? && (d.key == NoKey || FindKey(b.entries, d.key).None?)
    ensures var found, o := FindPeriod(b.periods, d.date.day), Post(b, d, onFile).1;
            && (o == Failed(NoPeriod) <==> found.None?)
            && (o == Failed(PeriodNotOpen) <==> found.Some? && found.value.status != PeriodStatus.Open)
  {}

  // ----- what is written -----

  /** Line l as a posting at `rate` stores it: its account, its sides at currency precision,
      and the same sides converted, at base precision. */
  predicate StoresLine(b: Books, d: EntryDraft, rate: int, i: nat, stored: Line)
    requires i < |d.lines|
  {
    var l, unit, baseUnit := d.lines[i], MinorUnit(d.currency), MinorUnit(b.base);
    && stored.account == l.account
    && stored.debit == Quantize(l.debit, unit) && stored.credit == Quantize(l.credit, unit)
    && stored.baseDebit == QuantizeRatio(l.debit * rate, MICROS, baseUnit)
    && stored.baseCredit == QuantizeRatio(l.credit * rate, MICROS, baseUnit)
  }

  /** The new row carries the draft, column by column and line by line, at its rate. */
  lemma PostedRow(b: Books, d: EntryDraft, onFile: Option<int>)
    requires |Post(b, d, onFile).0.entries| > |b.entries|
    ensures var after, n := Post(b, d, onFile).0, |b.entries|;
            && |after.entries| == n + 1
            && after.entries[n].status == Posted && after.entries[n].journal == d.journal
            && after.entries[n].date == d.date && after.entries[n].currency == d.currency
            && after.entries[n].key == d.key && after.entries[n].reversalOf == None
            && PostedAt(b, d, onFile, after.entries[n].rate)
            && |after.entries[n].lines| == |d.lines|
            && forall i :: 0 <= i < |d.lines| ==>
                 StoresLine(b, d, after.entries[n].rate, i, after.entries[n].lines[i])
  {
    NewEntryStands(b, d, onFile);
    RateResolvedIff(b, d, onFile, ResolveRate(b, d.currency, d.rate, onFile).value);
  }

  /** And it is the only row written: the rest of the tables stay, but for the one counter
      its number came from and the balances. */
  lemma PostTouchesNothingElse(b: Books, d: EntryDraft, onFile: Option<int>)
    requires |Post(b, d, onFile).0.entries| > |b.entries|
    ensures var after, n, slot := Post(b, d, onFile).0, |b.entries|, (d.journal, d.date.year);
            && after.entries[..n] == b.entries && after.base == b.base && after.periods == b.periods
            && after.journals == b.journals && slot in after.counters && d.journal in b.journals
            && after.counters == b.counters[slot := after.counters[slot]]
            && after.entries[n].number.Some?
            && after.counters[slot].next == after.entries[n].number.value.value + 1
            && after.entries[n].number.value.year == d.date.year
            && after.entries[n].number.value.prefix == after.counters[slot].prefix
            && after.counters[slot].prefix
               == (if slot in b.counters then b.counters[slot].prefix else b.journals[d.journal].prefix)
            && |after.accounts| == |b.accounts|
            && forall a :: 0 <= a < |b.accounts| ==>
                 after.accounts[a] == b.accounts[a].(balance := after.accounts[a].balance)
  {
    NewEntryStands(b, d, onFile);
  }

  // ----- voiding -----

  /** An entry is voided exactly when it is a draft or posted, its day lies in an open
      period and a reason is given; nothing but its status changes in its row. */
  lemma VoidsIff(b: Books, id: nat, reasonGiven: bool)
    ensures Void(b, id, reasonGiven).1.Done?
            <==> && id < |b.entries| && b.entries[id].status in {Draft, Posted} && reasonGiven
                 && OpenOn(b.periods, b.entries[id].date.day)
    ensures Void(b, id, reasonGiven).1.Done? ==>
              Void(b, id, reasonGiven).0.entries == b.entries[id := b.entries[id].(status := Voided)]
    ensures Void(b, id, reasonGiven).1.Failed? ==> Void(b, id, reasonGiven).0 == b
  {
    if id < |b.entries| {
      OpenOnIff(b.periods, b.entries[id].date.day);
    }
  }
}
