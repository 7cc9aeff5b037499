/** The base-currency columns and the nightly whole-ledger check that sums them. */
module LedgerBase {
  import opened Money
  import opened Sums
  import opened Ledger
  import opened LedgerInvariants
  import LedgerLaws
  import Scaled

  function BaseGapColumn(lines: seq<Line>): (s: seq<int>)
    ensures |s| == |lines|
  {
    seq(|lines|, i requires 0 <= i < |lines| => lines[i].baseDebit - lines[i].baseCredit)
  }

  /** Base debits minus base credits of one entry. */
  function BaseGap(e: Entry): int {
    Sum(BaseGapColumn(e.lines))
  }

  function PostedGaps(entries: seq<Entry>): (s: seq<int>)
    ensures |s| == |entries|
  {
    seq(|entries|, i requires 0 <= i < |entries| => if entries[i].status == Posted then BaseGap(entries[i]) else 0)
  }

  /** assert_ledger_balanced: base debits equal base credits over POSTED entries. */
  predicate NightlyCheck(b: Books) {
    Sum(PostedGaps(b.entries)) == 0
  }

  function NightlyGap(b: Books): int { Sum(PostedGaps(b.entries)) }

  // ----- what each operation does to the check -----

  /** A column of a draft in base currency, line by line. */
  function Converted(column: seq<int>, rate: int, baseUnit: int): (s: seq<int>)
    requires baseUnit > 0
    ensures |s| == |column|
  {
    seq(|column|, i requires 0 <= i < |column| => QuantizeRatio(column[i] * rate, MICROS, baseUnit))
  }

  /** Converted debits minus converted credits: computable from the draft and its rate. */
  function ConvertedGap(d: EntryDraft, rate: int, baseUnit: int): int
    requires baseUnit > 0
  {
    Sum(Converted(DraftDebits(d.lines), rate, baseUnit)) - Sum(Converted(DraftCredits(d.lines), rate, baseUnit))
  }

  lemma GapIsConverted(b: Books, d: EntryDraft, rate: int)
    requires d.journal in b.journals
    ensures BaseGap(NewEntry(b, d, rate)) == ConvertedGap(d, rate, MinorUnit(b.base))
  {
    var unit, gaps := MinorUnit(b.base), BaseGapColumn(NewEntry(b, d, rate).lines);
    SumLinear(Converted(DraftDebits(d.lines), rate, unit), 1, Converted(DraftCredits(d.lines), rate, unit), gaps);
  }

  lemma GapsSnoc(entries: seq<Entry>, e: Entry)
    ensures Sum(PostedGaps(entries + [e])) == Sum(PostedGaps(entries)) + if e.status == Posted then BaseGap(e) else 0
  {
    var x := if e.status == Posted then BaseGap(e) else 0;
    assert PostedGaps(entries + [e]) == PostedGaps(entries) + [x];
    SumSnoc(PostedGaps(entries), x);
  }

  lemma GapsUpdate(entries: seq<Entry>, i: nat, e: Entry)
    requires i < |entries| && e.lines == entries[i].lines
    ensures Sum(PostedGaps(entries[i := e])) == Sum(PostedGaps(entries))
            - (if entries[i].status == Posted then BaseGap(e) else 0) + (if e.status == Posted then BaseGap(e) else 0)
  {
    var x := if e.status == Posted then BaseGap(e) else 0;
    assert PostedGaps(entries[i := e]) == PostedGaps(entries)[i := x];
    SumUpdate(PostedGaps(entries), i, x);
  }

  /** The rate a new posting of d is converted at. */
  function RateOf(b: Books, d: EntryDraft, onFile: Option<int>): int {
    var rate := ResolveRate(b, d.currency, d.rate, onFile);
    if rate.Some? then rate.value else 0
  }

  lemma PostMovesNightlyGap(b: Books, d: EntryDraft, onFile: Option<int>)
    ensures NightlyGap(Post(b, d, onFile).0)
         == NightlyGap(b) + if |Post(b, d, onFile).0.entries| > |b.entries|
                            then ConvertedGap(d, RateOf(b, d, onFile), MinorUnit(b.base)) else 0
  {
    if |Post(b, d, onFile).0.entries| > |b.entries| {
      NewEntryStands(b, d, onFile);
      var rate := RateOf(b, d, onFile);
      GapsSnoc(b.entries, NewEntry(b, d, rate));
      GapIsConverted(b, d, rate);
    }
  }

  /** A posting keeps the nightly check exactly when its converted debits and credits
      have equal sums. */
  lemma PostKeepsNightlyIff(b: Books, d: EntryDraft, onFile: Option<int>)
    requires NightlyCheck(b) && Post(b, d, onFile).1 == Done(|b.entries|)
    ensures NightlyCheck(Post(b, d, onFile).0)
            <==> Sum(Converted(DraftDebits(d.lines), RateOf(b, d, onFile), MinorUnit(b.base)))
                 == Sum(Converted(DraftCredits(d.lines), RateOf(b, d, onFile), MinorUnit(b.base)))
  {
    PostMovesNightlyGap(b, d, onFile);
  }

  /** Voiding keeps it exactly when the entry was a draft or had no gap. */
  lemma VoidKeepsNightlyIff(b: Books, id: nat, reasonGiven: bool)
    requires NightlyCheck(b) && Void(b, id, reasonGiven).1.Done?
    ensures id < |b.entries|
    ensures NightlyCheck(Void(b, id, reasonGiven).0) <==> b.entries[id].status != Posted || BaseGap(b.entries[id]) == 0
  {
    GapsUpdate(b.entries, id, b.entries[id].(status := Voided));
    assert Void(b, id, reasonGiven).0.entries == b.entries[id := b.entries[id].(status := Voided)];
  }

  /** Reversing drops the original's gap and adds the mirror's, if a mirror is written. */
  lemma ReverseMovesNightlyGap(b: Books, id: nat, on: Date, onFile: Option<int>)
    requires Reverse(b, id, on, onFile).1.Done?
    ensures id < |b.entries|
    ensures NightlyGap(Reverse(b, id, on, onFile).0)
         == NightlyGap(Post(b, Mirror(b.entries[id], id, on), onFile).0) - BaseGap(b.entries[id])
  {
    var d := Mirror(b.entries[id], id, on);
    var (posted, outcome) := Post(b, d, onFile);
    PostKeepsRows(b, d, onFile);
    assert posted.entries[id] == posted.entries[..|b.entries|][id] == b.entries[id];
    GapsUpdate(posted.entries, id, posted.entries[id].(status := Reversed));
    var marked := WithStatus(posted, id, Reversed);
    GapsUpdate(marked.entries, outcome.id, marked.entries[outcome.id].(reversalOf := Some(id)));
  }

  /** So a reversal keeps the check exactly when the mirror's gap is the original's, or,
      with the derived key spent, when the original had none. */
  lemma ReverseKeepsNightlyIff(b: Books, id: nat, on: Date, onFile: Option<int>)
    requires NightlyCheck(b) && Reverse(b, id, on, onFile).1.Done?
    ensures id < |b.entries|
    ensures var d := Mirror(b.entries[id], id, on);
            NightlyCheck(Reverse(b, id, on, onFile).0)
            <==> BaseGap(b.entries[id]) == if FindKey(b.entries, ReversalKey(id)).None?
                                           then ConvertedGap(d, RateOf(b, d, onFile), MinorUnit(b.base)) else 0
  {
    var d := Mirror(b.entries[id], id, on);
    ReverseMovesNightlyGap(b, id, on, onFile);
    PostMovesNightlyGap(b, d, onFile);
  }

  // ----- how large a gap can be -----

  lemma BaseEntryHasNoGap(base: string, accounts: nat, e: Entry)
    requires WellPosted(base, accounts, e) && e.currency == base
    ensures BaseGap(e) == 0
  {
    SumLinear(Debits(e.lines), 1, Credits(e.lines), BaseGapColumn(e.lines));
  }

  /** Books kept in one currency always pass the nightly check, whatever was posted,
      voided or reversed. */
  lemma SingleCurrencyPassesNightly(b: Books)
    requires Inv(b)
    requires forall i :: 0 <= i < |b.entries| && b.entries[i].status == Posted ==> b.entries[i].currency == b.base
    ensures NightlyCheck(b)
  {
    forall i | 0 <= i < |b.entries| ensures PostedGaps(b.entries)[i] == 0 {
      assert RowOk(b.base, |b.accounts|, b.entries[i]);
      if b.entries[i].status == Posted {
        BaseEntryHasNoGap(b.base, |b.accounts|, b.entries[i]);
      }
    }
    SumZero(PostedGaps(b.entries));
  }

  /** A foreign entry's gap: half a base unit for every line, and whatever the raw totals
      differ by, converted. Where they agree that is one unit for every two lines. */
  lemma ForeignGapBound(b: Books, d: EntryDraft, rate: int)
    requires d.journal in b.journals && rate >= 0 && forall i :: 0 <= i < |d.lines| ==> LineOk(d.lines[i])
    ensures var gap, raw := BaseGap(NewEntry(b, d, rate)), Abs(Sum(DraftDebits(d.lines)) - Sum(DraftCredits(d.lines)));
            && 2 * Abs(gap) * MICROS <= |d.lines| * MinorUnit(b.base) * MICROS + 2 * (raw * rate)
            && (raw == 0 ==> 2 * Abs(gap) <= |d.lines| * MinorUnit(b.base))
  {
    var gaps, unit := BaseGapColumn(NewEntry(b, d, rate).lines), MinorUnit(b.base);
    var exact := Exacts(d.lines);
    var errors := Errors(gaps, exact, rate);
    ErrorsAreSmall(b, d, rate);
    SumBound(errors, -(MICROS * unit), MICROS * unit);
    SumLinear(DraftDebits(d.lines), 1, DraftCredits(d.lines), exact);
    GapFromErrors(gaps, exact, errors, rate);
    HalfUnitEach(Sum(gaps), |d.lines|, unit, Sum(errors), Sum(exact), rate);
  }

  function Exacts(lines: seq<LineDraft>): (s: seq<int>)
    ensures |s| == |lines| && forall i :: 0 <= i < |lines| ==> s[i] == lines[i].debit - lines[i].credit
  {
    seq(|lines|, i requires 0 <= i < |lines| => lines[i].debit - lines[i].credit)
  }

  /** Twice the rounding error of each line, scaled by the rate's denominator. */
  function Errors(gaps: seq<int>, exact: seq<int>, rate: int): (s: seq<int>)
    requires |gaps| == |exact|
    ensures |s| == |gaps| && forall i :: 0 <= i < |gaps| ==> s[i] == 2 * gaps[i] * MICROS - 2 * (exact[i] * rate)
  {
    seq(|gaps|, i requires 0 <= i < |gaps| => 2 * gaps[i] * MICROS - 2 * (exact[i] * rate))
  }

  lemma ErrorsAreSmall(b: Books, d: EntryDraft, rate: int)
    requires d.journal in b.journals && forall i :: 0 <= i < |d.lines| ==> LineOk(d.lines[i])
    ensures var unit := MinorUnit(b.base);
            var errors := Errors(BaseGapColumn(NewEntry(b, d, rate).lines), Exacts(d.lines), rate);
            forall i :: 0 <= i < |d.lines| ==> -(MICROS * unit) <= errors[i] <= MICROS * unit
  {
    var unit, errors := MinorUnit(b.base), Errors(BaseGapColumn(NewEntry(b, d, rate).lines), Exacts(d.lines), rate);
    forall i | 0 <= i < |d.lines| ensures -(MICROS * unit) <= errors[i] <= MICROS * unit {
      LineRounding(d.lines[i], rate, unit);
    }
  }

  lemma HalfUnitEach(gap: int, n: nat, unit: int, errors: int, raw: int, rate: int)
    requires unit > 0 && rate >= 0 && errors == 2 * gap * MICROS - 2 * (raw * rate)
    requires -(MICROS * unit) * n <= errors <= (MICROS * unit) * n
    ensures 2 * Abs(gap) * MICROS <= n * unit * MICROS + 2 * (Abs(raw) * rate)
    ensures raw == 0 ==> 2 * Abs(gap) <= n * unit
  {
    var own, apart := n * unit, raw * rate;
    Scaled.Reorder(MICROS, unit, n);
    Scaled.Negate(MICROS * unit, n);
    assert (MICROS * unit) * n == own * MICROS;
    assert Abs(raw) * rate == if raw < 0 then -apart else apart by {
      Scaled.Negate(raw, rate);
    }
    assert raw >= 0 ==> apart >= 0 by { if raw >= 0 { Scaled.NonNegative2(raw, rate); } }
    assert raw < 0 ==> apart <= 0 by { if raw < 0 { Scaled.Monotone(raw, 0, rate); } }
  }

  lemma LineRounding(l: LineDraft, rate: int, unit: int)
    requires LineOk(l) && unit > 0
    ensures var debit := QuantizeRatio(l.debit * rate, MICROS, unit);
            var credit := QuantizeRatio(l.credit * rate, MICROS, unit);
            -(MICROS * unit) <= 2 * (debit - credit) * MICROS - 2 * ((l.debit - l.credit) * rate) <= MICROS * unit
  {
    QuantizeRatioError(l.debit * rate, MICROS, unit);
    QuantizeRatioError(l.credit * rate, MICROS, unit);
    Scaled.Distribute(l.debit, l.credit, rate);
    if l.debit == 0 {
      RoundingMultiple(0, MICROS * unit);
    } else {
      RoundingMultiple(0, MICROS * unit);
    }
  }

  lemma {:induction false} GapFromErrors(gaps: seq<int>, exact: seq<int>, errors: seq<int>, rate: int)
    requires |gaps| == |exact| == |errors|
    requires forall i :: 0 <= i < |gaps| ==> errors[i] == 2 * gaps[i] * MICROS - 2 * (exact[i] * rate)
    ensures Sum(errors) == 2 * Sum(gaps) * MICROS - 2 * (Sum(exact) * rate)
  {
    if |gaps| > 0 {
      var n := |gaps| - 1;
      GapFromErrors(gaps[..n], exact[..n], errors[..n], rate);
      Scaled.Distribute(Sum(exact[..n]), exact[n], rate);
    }
  }

  // ----- balances in document amounts against balances in base currency -----

  /** The same lines with their base amounts. */
  function InBase(lines: seq<Line>): (r: seq<Line>)
    ensures |r| == |lines|
    ensures forall i :: 0 <= i < |lines| ==>
              r[i].account == lines[i].account && r[i].debit == lines[i].baseDebit && r[i].credit == lines[i].baseCredit
  {
    seq(|lines|, i requires 0 <= i < |lines| =>
      lines[i].(debit := lines[i].baseDebit, credit := lines[i].baseCredit))
  }

  function EntriesInBase(entries: seq<Entry>): (r: seq<Entry>)
    ensures |r| == |entries|
    ensures forall i :: 0 <= i < |entries| ==> r[i] == entries[i].(lines := InBase(entries[i].lines))
  {
    seq(|entries|, i requires 0 <= i < |entries| => entries[i].(lines := InBase(entries[i].lines)))
  }

  /** An account's net in base currency over live entries, as the reports sum it. */
  function BaseNet(b: Books, account: nat): int {
    NetOver(EntriesInBase(b.entries), LIVE, account)
  }

  /** Document net minus base net, entry by entry, over the live foreign ones. */
  function ForeignColumn(base: string, entries: seq<Entry>, account: nat): (s: seq<int>)
    ensures |s| == |entries|
  {
    seq(|entries|, i requires 0 <= i < |entries| =>
      if entries[i].status in LIVE && entries[i].currency != base
      then Net(entries[i].lines, account) - Net(InBase(entries[i].lines), account) else 0)
  }

  lemma BaseEntriesAgree(base: string, accounts: nat, e: Entry, account: nat)
    requires RowOk(base, accounts, e) && e.status in LIVE && e.currency == base
    ensures Net(InBase(e.lines), account) == Net(e.lines, account)
  {
    assert WellPosted(base, accounts, e);
    assert forall i :: 0 <= i < |e.lines| ==> BaseEqualsDocument(e.lines[i]);
    assert InBase(e.lines) == e.lines;
  }

  /** The cached balance, kept in document amounts, is the base net exactly when the
      differences of the account's live foreign entries cancel. */
  lemma CacheIsBaseNetIff(b: Books, account: nat)
    requires Inv(b) && account < |b.accounts|
    ensures b.accounts[account].balance == Signed(b.accounts[account].increasesOnDebit, BaseNet(b, account))
            <==> Sum(ForeignColumn(b.base, b.entries, account)) == 0
  {
    var documents, bases := NetColumn(b.entries, LIVE, account), NetColumn(EntriesInBase(b.entries), LIVE, account);
    var foreign := ForeignColumn(b.base, b.entries, account);
    forall i | 0 <= i < |b.entries| ensures documents[i] == 1 * bases[i] + foreign[i] {
      assert RowOk(b.base, |b.accounts|, b.entries[i]);
      if b.entries[i].status in LIVE && b.entries[i].currency == b.base {
        BaseEntriesAgree(b.base, |b.accounts|, b.entries[i], account);
      }
    }
    SumLinear(documents, 1, bases, foreign);
  }

  lemma GapOverAccounts(lines: seq<Line>, n: nat)
    requires forall i :: 0 <= i < |lines| ==> lines[i].account < n
    ensures Sum(LedgerLaws.NetPerAccount(InBase(lines), n)) == Sum(BaseGapColumn(lines))
  {
    LedgerLaws.NetOverAllAccounts(InBase(lines), n);
    SumLinear(Debits(InBase(lines)), 1, Credits(InBase(lines)), BaseGapColumn(lines));
  }

  /** What the reports sum: POSTED entries, in base currency. */
  function Reported(e: Entry): Entry {
    e.(lines := InBase(e.lines), status := if e.status == Posted then Posted else Voided)
  }

  function AsReported(entries: seq<Entry>): (r: seq<Entry>)
    ensures |r| == |entries| && forall i :: 0 <= i < |entries| ==> r[i] == Reported(entries[i])
  {
    seq(|entries|, i requires 0 <= i < |entries| => Reported(entries[i]))
  }

  lemma {:induction false} ReportedNetsAddUp(base: string, n: nat, entries: seq<Entry>)
    requires forall i :: 0 <= i < |entries| ==> RowOk(base, n, entries[i])
    ensures Sum(LedgerLaws.NetsByAccount(AsReported(entries), n)) == Sum(PostedGaps(entries))
  {
    if |entries| == 0 {
      forall a | 0 <= a < n ensures LedgerLaws.NetsByAccount(AsReported(entries), n)[a] == 0 {}
      SumZero(LedgerLaws.NetsByAccount(AsReported(entries), n));
    } else {
      var front, e := entries[..|entries| - 1], entries[|entries| - 1];
      assert entries == front + [e] && RowOk(base, n, e);
      ReportedNetsAddUp(base, n, front);
      assert AsReported(entries) == AsReported(front) + [Reported(e)];
      LedgerLaws.NetsSnoc(AsReported(front), Reported(e), n);
      GapsSnoc(front, e);
      if e.status == Posted {
        forall i | 0 <= i < |e.lines| ensures e.lines[i].account < n {
          assert LineStands(n, e.lines[i], MinorUnit(e.currency));
        }
        GapOverAccounts(e.lines, n);
      }
    }
  }

  /** On every run the trial balance of the reports is out by exactly the nightly gap: it
      balances if and only if the nightly check passes. */
  lemma ReportedTrialBalanceIffNightly(base: string, journals: map<string, Journal>, ops: seq<Op>)
    ensures var b := Run(EmptyBooks(base, journals), ops);
            var nets := LedgerLaws.NetsByAccount(AsReported(b.entries), |b.accounts|);
            Sum(nets) == NightlyGap(b) && (Sum(nets) == 0 <==> NightlyCheck(b))
  {
    var b := Run(EmptyBooks(base, journals), ops);
    RunKeepsInv(base, journals, ops);
    ReportedNetsAddUp(b.base, |b.accounts|, b.entries);
  }

  // ----- witnesses -----

  const DAY := Date(15, 2026)
  const GENERAL: map<string, Journal> := map["GEN" := Journal("JE", true)]

  /** Two open accounts and one open period. */
  const READY: seq<Op> := [AddAccount(true, true), AddAccount(false, true), SetPeriods([Period(1, 31, Open, false)])]

  function ReadyBooks(base: string): (b: Books) {
    Books(base, [Account(true, true, true, 0), Account(false, true, true, 0)], [Period(1, 31, Open, false)],
          GENERAL, map[], [])
  }

  lemma ReadyIsReachable(base: string)
    ensures Run(EmptyBooks(base, GENERAL), READY) == ReadyBooks(base)
  {
    var b0 := EmptyBooks(base, GENERAL);
    assert READY[..2] == [AddAccount(true, true), AddAccount(false, true)];
    assert READY[..2][..1] == [AddAccount(true, true)];
    assert READY[..2][..1][..0] == [];
    assert Run(b0, READY[..2][..1]) == Apply(b0, AddAccount(true, true));
    assert Run(b0, READY[..2]) == Apply(Apply(b0, AddAccount(true, true)), AddAccount(false, true));
  }

  lemma SumOfLast(a: int, b: int, c: int)
    ensures Sum([a, b, c]) == a + b + c
  {
    SumSnoc([a, b], c);
    SumSnoc([a], b);
    SumSnoc([], a);
    assert [a, b] + [c] == [a, b, c] && [a] + [b] == [a, b] && [] + [a] == [a];
  }

  /** USD 0.01 + 0.01 against 0.02 at a rate of 0.5 into EGP books. */
  const HALF_RATE_DRAFT := EntryDraft("GEN", DAY, "USD",
    [LineDraft(0, 10_000, 0), LineDraft(0, 10_000, 0), LineDraft(1, 0, 20_000)], 500_000, NoKey)

  lemma HalfRateRow()
    ensures var e := NewEntry(ReadyBooks("EGP"), HALF_RATE_DRAFT, 500_000);
            && e.lines == [Line(0, 10_000, 0, 10_000, 0), Line(0, 10_000, 0, 10_000, 0), Line(1, 0, 20_000, 0, 10_000)]
            && e.totalDebit == 20_000 == e.totalCredit && e.status == Posted
  {
    var d := HALF_RATE_DRAFT;
    TwoDecimals();
    assert DraftDebits(d.lines) == [10_000, 10_000, 0] && DraftCredits(d.lines) == [0, 0, 20_000];
    SumOfLast(10_000, 10_000, 0);
    SumOfLast(0, 0, 20_000);
  }

  lemma HalfRateAccepted()
    ensures Validate(ReadyBooks("EGP"), HALF_RATE_DRAFT).None?
  {
    var d := HALF_RATE_DRAFT;
    TwoDecimals();
    assert DraftDebits(d.lines) == [10_000, 10_000, 0] && DraftCredits(d.lines) == [0, 0, 20_000];
    SumOfLast(10_000, 10_000, 0);
    SumOfLast(0, 0, 20_000);
    assert forall i :: 0 <= i < 3 ==> LineOk(d.lines[i]);
  }

  lemma HalfRateCommits()
    ensures Commit(ReadyBooks("EGP"), HALF_RATE_DRAFT, 500_000, false)
         == (Recorded(ReadyBooks("EGP"), HALF_RATE_DRAFT, 500_000), Done(0))
  {
    HalfRateRow();
    var e := NewEntry(ReadyBooks("EGP"), HALF_RATE_DRAFT, 500_000);
    assert Debits(e.lines) == [10_000, 10_000, 0] && Credits(e.lines) == [0, 0, 20_000];
    SumOfLast(10_000, 10_000, 0);
    SumOfLast(0, 0, 20_000);
  }

  lemma HalfRateGap(e: Entry)
    requires e.lines == [Line(0, 10_000, 0, 10_000, 0), Line(0, 10_000, 0, 10_000, 0), Line(1, 0, 20_000, 0, 10_000)]
    requires e.status == Posted
    ensures Sum(PostedGaps([e])) == 10_000
  {
    assert BaseGapColumn(e.lines) == [10_000, 10_000, -10_000];
    SumOfLast(10_000, 10_000, -10_000);
    assert PostedGaps([e]) == [] + [10_000];
    SumSnoc([], 10_000);
  }

  /** The nightly check can fail with nothing loaded outside the application: one
      ordinary foreign-currency posting is enough. */
  lemma ForeignPostingFailsNightly()
    ensures Post(ReadyBooks("EGP"), HALF_RATE_DRAFT, None).1 == Done(0)
    ensures !NightlyCheck(Post(ReadyBooks("EGP"), HALF_RATE_DRAFT, None).0)
  {
    var b := ReadyBooks("EGP");
    HalfRateAccepted();
    HalfRateCommits();
    assert FindPeriod(b.periods, 15) == Some(Period(1, 31, Open, false));
    HalfRateRow();
    HalfRateGap(NewEntry(b, HALF_RATE_DRAFT, 500_000));
    assert b.entries + [NewEntry(b, HALF_RATE_DRAFT, 500_000)] == [NewEntry(b, HALF_RATE_DRAFT, 500_000)];
  }

  lemma TwoDecimals()
    ensures MinorUnit("USD") == 10_000 && MinorUnit("EGP") == 10_000
  {
    assert Upper("USD") == "USD" by { assert "USD"[1..] == "SD" && "SD"[1..] == "D" && "D"[1..] == ""; }
    assert Upper("EGP") == "EGP" by { assert "EGP"[1..] == "GP" && "GP"[1..] == "P" && "P"[1..] == ""; }
  }

  /** 0.014 + 0.014 against 0.03: the totals agree once rounded, the rounded lines
      do not, and the posting is undone at commit. */
  const SUB_CENT_DRAFT := EntryDraft("GEN", DAY, "EGP",
    [LineDraft(0, 14_000, 0), LineDraft(0, 14_000, 0), LineDraft(1, 0, 30_000)], MICROS, NoKey)

  lemma SubCentAccepted()
    ensures Validate(ReadyBooks("EGP"), SUB_CENT_DRAFT).None?
    ensures NewEntry(ReadyBooks("EGP"), SUB_CENT_DRAFT, MICROS).totalDebit == 30_000
  {
    var d := SUB_CENT_DRAFT;
    TwoDecimals();
    assert DraftDebits(d.lines) == [14_000, 14_000, 0] && DraftCredits(d.lines) == [0, 0, 30_000];
    SumOfLast(14_000, 14_000, 0);
    SumOfLast(0, 0, 30_000);
    assert forall i :: 0 <= i < 3 ==> LineOk(d.lines[i]);
  }

  lemma SubCentLines()
    ensures var e := NewEntry(ReadyBooks("EGP"), SUB_CENT_DRAFT, MICROS);
            && Debits(e.lines) == [10_000, 10_000, 0] && Credits(e.lines) == [0, 0, 30_000]
  {
    TwoDecimals();
  }

  lemma AcceptedDraftUndoneAtCommit()
    ensures Validate(ReadyBooks("EGP"), SUB_CENT_DRAFT).None?
    ensures Post(ReadyBooks("EGP"), SUB_CENT_DRAFT, None).1 == Failed(LinesDisagree)
  {
    var b, d := ReadyBooks("EGP"), SUB_CENT_DRAFT;
    SubCentAccepted();
    SubCentLines();
    var e := NewEntry(b, d, MICROS);
    SumOfLast(10_000, 10_000, 0);
    assert FindPeriod(b.periods, 15) == Some(Period(1, 31, Open, false));
    assert forall i :: 0 <= i < |e.lines| ==>
        e.lines[i].debit == Debits(e.lines)[i] && e.lines[i].credit == Credits(e.lines)[i];
    assert forall i :: 0 <= i < 3 ==> SingleSided(e.lines[i]);
  }
}
