/** The posting service: one tenant's tables updated in place, proved against the
    ledger functions. */
module LedgerService {
  import opened Money
  import opened Sums
  import opened Ledger
  import opened LedgerInvariants
  import LedgerAdmission
  import LedgerDrafts
  import LedgerLaws
  import Scaled

  class GeneralLedger {
    const base: string
    var accounts: seq<Account>
    var periods: seq<Period>
    var journals: map<string, Journal>
    var counters: map<(string, int), Counter>
    var entries: seq<Entry>

    function Tables(): Books
      reads this
    {
      Books(base, accounts, periods, journals, counters, entries)
    }

    ghost predicate Valid()
      reads this
    {
      Inv(Tables())
    }

    constructor (base: string, journals: map<string, Journal>)
      ensures Valid() && Tables() == EmptyBooks(base, journals)
    {
      this.base := base;
      this.accounts, this.periods, this.journals := [], [], journals;
      this.counters, this.entries := map[], [];
      new;
      RunKeepsInv(base, journals, []);
    }

    /** One delta per account touched by the lines. */
    method GatherDeltas(lines: seq<Line>, sign: int) returns (delta: map<nat, int>)
      requires forall i :: 0 <= i < |lines| ==> lines[i].account < |accounts|
      ensures forall a :: a in delta ==>
                a < |accounts| && delta[a] == sign * Signed(accounts[a].increasesOnDebit, Net(lines, a))
      ensures forall i :: 0 <= i < |lines| ==> lines[i].account in delta
    {
      delta := map[];
      for i := 0 to |lines|
        invariant forall a :: a in delta ==>
                    a < |accounts| && delta[a] == sign * Signed(accounts[a].increasesOnDebit, Net(lines[..i], a))
        invariant forall a :: a in delta <==> exists k :: 0 <= k < i && lines[k].account == a
      {
        var l := lines[i];
        var movement := if accounts[l.account].increasesOnDebit then l.debit - l.credit else l.credit - l.debit;
        ghost var front := lines[..i];
        assert lines[..i + 1] == front + [l];
        NetsGrow(front, l);
        if l.account !in delta {
          Untouched(front, l.account);
        }
        SignedSum(accounts[l.account].increasesOnDebit, Net(front, l.account), l.debit - l.credit, sign);
        delta := delta[l.account := (if l.account in delta then delta[l.account] else 0) + movement * sign];
      }
      assert lines[..|lines|] == lines;
    }

    static lemma NetsGrow(front: seq<Line>, l: Line)
      ensures Net(front + [l], l.account) == Net(front, l.account) + l.debit - l.credit
      ensures forall a: nat :: a != l.account ==> Net(front + [l], a) == Net(front, a)
    {
      forall a: nat ensures Net(front + [l], a) == Net(front, a) + if l.account == a then l.debit - l.credit else 0 {
        LedgerLaws.NetSnoc(front, l, a);
      }
    }

    static lemma SignedSum(side: bool, net: int, more: int, sign: int)
      ensures sign * Signed(side, net + more) == sign * Signed(side, net) + Signed(side, more) * sign
    {
      Scaled.Distribute(Signed(side, net), Signed(side, more), sign);
    }

    /** Write each touched account once. */
    method ApplyToCachedBalances(lines: seq<Line>, sign: int)
      requires forall i :: 0 <= i < |lines| ==> lines[i].account < |accounts|
      modifies this`accounts
      ensures accounts == Applied(old(accounts), lines, sign)
    {
      var delta := GatherDeltas(lines, sign);
      var todo := delta.Keys;
      while todo != {}
        invariant todo <= delta.Keys && |accounts| == |old(accounts)|
        invariant forall a :: 0 <= a < |accounts| ==>
                    accounts[a] == if a in delta && a !in todo
                                   then old(accounts)[a].(balance := old(accounts)[a].balance + delta[a])
                                   else old(accounts)[a]
        decreases todo
      {
        var a :| a in todo;
        accounts := accounts[a := accounts[a].(balance := accounts[a].balance + delta[a])];
        todo := todo - {a};
      }
      forall a | 0 <= a < |accounts| ensures accounts[a] == Applied(old(accounts), lines, sign)[a] {
        if a !in delta {
          Untouched(lines, a);
        }
      }
    }

    /** Take the next value off the counter row, creating the row at 1. */
    method AllocateNumber(journal: string, year: int) returns (number: Number)
      requires journal in journals
      modifies this`counters
      ensures var c := NextNumber(old(Tables()), journal, year);
              && number == Number(c.prefix, year, c.next)
              && counters == old(counters)[(journal, year) := c.(next := c.next + 1)]
    {
      if (journal, year) !in counters {
        counters := counters[(journal, year) := Counter(journals[journal].prefix, 1)];
      }
      var c := counters[(journal, year)];
      counters := counters[(journal, year) := c.(next := c.next + 1)];
      number := Number(c.prefix, year, c.next);
    }

    method PostEntry(d: EntryDraft, onFile: Option<int>) returns (outcome: Outcome)
      requires Valid()
      modifies this
      ensures Valid() && (Tables(), outcome) == Post(old(Tables()), d, onFile)
      ensures |entries| > |old(entries)| ==> LedgerAdmission.OpenOn(old(periods), d.date.day)
    {
      PostKeepsInv(Tables(), d, onFile);
      LedgerAdmission.OpenOnIff(periods, d.date.day);
      var invalid := Validate(Tables(), d);
      if invalid.Some? {
        return Failed(invalid.value);
      }
      if d.key != NoKey {
        var existing := FindKey(entries, d.key);
        if existing.Some? {
          return Done(existing.value);
        }
      }
      var period := FindPeriod(periods, d.date.day);
      if period.None? {
        return Failed(NoPeriod);
      }
      if period.value.status != Open {
        return Failed(PeriodNotOpen);
      }
      if d.journal !in journals || !journals[d.journal].active {
        return Failed(NoSuchJournal);
      }
      var rate := ResolveRate(Tables(), d.currency, d.rate, onFile);
      if rate.None? || rate.value <= 0 {
        return Failed(NoRate);
      }
      outcome := CommitEntry(d, rate.value, period.value.yearClosed);
    }

    /** The writes of one posting, undone together when the database refuses one. */
    method CommitEntry(d: EntryDraft, rate: int, yearClosed: bool) returns (outcome: Outcome)
      requires d.journal in journals
      requires forall i :: 0 <= i < |d.lines| ==> d.lines[i].account < |accounts|
      modifies this
      ensures (Tables(), outcome) == Commit(old(Tables()), d, rate, yearClosed)
    {
      var savedCounters, savedEntries, savedAccounts := counters, entries, accounts;
      var lines := PostedLines(Tables(), d, rate);
      var number := AllocateNumber(d.journal, d.date.year);
      if yearClosed {
        counters := savedCounters;
        return Failed(PeriodLocked);
      }
      var unit := MinorUnit(d.currency);
      var e := Entry(Posted, d.journal, d.date, d.currency, rate,
                     Quantize(Sum(DraftDebits(d.lines)), unit), Quantize(Sum(DraftCredits(d.lines)), unit),
                     Some(number), lines, d.key, None);
      assert e == NewEntry(old(Tables()), d, rate);
      entries := entries + [e];
      ApplyToCachedBalances(lines, 1);
      if exists i :: 0 <= i < |lines| && !SingleSided(lines[i]) {
        counters, entries, accounts := savedCounters, savedEntries, savedAccounts;
        return Failed(LineVanishes);
      }
      if Sum(Debits(lines)) != e.totalDebit || Sum(Credits(lines)) != e.totalCredit {
        counters, entries, accounts := savedCounters, savedEntries, savedAccounts;
        return Failed(LinesDisagree);
      }
      return Done(|savedEntries|);
    }

    method VoidEntry(id: nat, reasonGiven: bool) returns (outcome: Outcome)
      requires Valid()
      modifies this
      ensures Valid() && (Tables(), outcome) == Void(old(Tables()), id, reasonGiven)
      ensures outcome.Done? ==>
                id < |old(entries)| && LedgerAdmission.OpenOn(old(periods), old(entries)[id].date.day)
    {
      VoidKeepsInv(Tables(), id, reasonGiven);
      if id < |entries| {
        LedgerAdmission.OpenOnIff(periods, entries[id].date.day);
      }
      if id >= |entries| {
        return Failed(NoSuchEntry);
      }
      var e := entries[id];
      if !Allowed(e.status, Voided) {
        return Failed(IllegalTransition);
      }
      var period := FindPeriod(periods, e.date.day);
      if period.None? {
        return Failed(NoPeriod);
      }
      if period.value.status != Open {
        return Failed(PeriodNotOpen);
      }
      if !reasonGiven {
        return Failed(ReasonMissing);
      }
      if e.status == Posted {
        assert RowOk(base, |accounts|, e);
        forall i | 0 <= i < |e.lines| ensures e.lines[i].account < |accounts| {
          assert LineStands(|accounts|, e.lines[i], MinorUnit(e.currency));
        }
        ApplyToCachedBalances(e.lines, -1);
      }
      entries := entries[id := e.(status := Voided)];
      return Done(id);
    }

    /** Swap the sides, line by line. */
    static method MirrorDraft(e: Entry, id: nat, on: Date) returns (d: EntryDraft)
      ensures d == Mirror(e, id, on)
    {
      d := EntryDraft(e.journal, on, e.currency, [], e.rate, ReversalKey(id));
      for i := 0 to |e.lines|
        invariant d == Mirror(e, id, on).(lines := Mirror(e, id, on).lines[..i])
      {
        d := d.(lines := d.lines + [LineDraft(e.lines[i].account, e.lines[i].credit, e.lines[i].debit)]);
      }
    }

    static method RebuildDraft(e: Entry, key: Key) returns (d: EntryDraft)
      ensures d == FromStored(e, key)
    {
      d := EntryDraft(e.journal, e.date, e.currency, [], e.rate, key);
      for i := 0 to |e.lines|
        invariant d == FromStored(e, key).(lines := FromStored(e, key).lines[..i])
      {
        d := d.(lines := d.lines + [LineDraft(e.lines[i].account, e.lines[i].debit, e.lines[i].credit)]);
      }
    }

    method ReverseEntry(id: nat, on: Date, onFile: Option<int>) returns (outcome: Outcome)
      requires Valid()
      modifies this
      ensures Valid() && (Tables(), outcome) == Reverse(old(Tables()), id, on, onFile)
    {
      ReverseKeepsInv(Tables(), id, on, onFile);
      if id >= |entries| {
        return Failed(NoSuchEntry);
      }
      var e := entries[id];
      if e.status != Posted {
        return Failed(IllegalTransition);
      }
      if exists i :: 0 <= i < |entries| && entries[i].reversalOf == Some(id) {
        return Failed(AlreadyReversed);
      }
      var draft := MirrorDraft(e, id, on);
      outcome := PostEntry(draft, onFile);
      if outcome.Done? {
        entries := entries[id := entries[id].(status := Reversed)];
        entries := entries[outcome.id := entries[outcome.id].(reversalOf := Some(id))];
      }
    }

    method PostStoredDraft(id: nat, clientKey: Key, onFile: Option<int>) returns (outcome: Outcome)
      requires Valid()
      modifies this
      ensures Valid() && (Tables(), outcome) == PostDraft(old(Tables()), id, clientKey, onFile)
      ensures LedgerDrafts.AddsWhatIsStored(old(Tables()), id, Tables())
    {
      PostDraftKeepsInv(Tables(), id, clientKey, onFile);
      LedgerDrafts.PostingAddsWhatIsStored(Tables(), id, clientKey, onFile);
      if id >= |entries| {
        return Failed(NoSuchEntry);
      }
      var e := entries[id];
      if e.status != Draft {
        return Failed(IllegalTransition);
      }
      if |e.lines| < 2 {
        return Failed(TooFewLines);
      }
      var savedCounters, savedEntries, savedAccounts := counters, entries, accounts;
      var draft := RebuildDraft(e, if clientKey == NoKey then DraftKey(id) else clientKey);
      outcome := PostEntry(draft, onFile);
      if outcome.Done? && entries[id].status == Draft {
        var voiding := VoidEntry(id, true);
        if voiding.Failed? {
          counters, entries, accounts := savedCounters, savedEntries, savedAccounts;
          return voiding;
        }
      }
    }
  }
}
