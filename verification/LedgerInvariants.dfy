/** What every run of the ledger keeps. */
module LedgerInvariants {
  import opened Money
  import opened Sums
  import opened Ledger

  // ----- balances by status -----

  predicate Live(s: Status) {
    s == Posted || s == Reversed
  }

  /** Net debit of an account over the entries with one of the given statuses. */
  function NetOver(entries: seq<Entry>, statuses: set<Status>, account: nat): int {
    Sum(NetColumn(entries, statuses, account))
  }

  function NetColumn(entries: seq<Entry>, statuses: set<Status>, account: nat): (s: seq<int>)
    ensures |s| == |entries|
  {
    seq(|entries|, i requires 0 <= i < |entries| =>
      if entries[i].status in statuses then Net(entries[i].lines, account) else 0)
  }

  const LIVE: set<Status> := {Posted, Reversed}

  lemma NetOverSnoc(entries: seq<Entry>, e: Entry, statuses: set<Status>, account: nat)
    ensures NetOver(entries + [e], statuses, account)
         == NetOver(entries, statuses, account) + if e.status in statuses then Net(e.lines, account) else 0
  {
    var c := NetColumn(entries, statuses, account);
    var x := if e.status in statuses then Net(e.lines, account) else 0;
    assert NetColumn(entries + [e], statuses, account) == c + [x];
    SumSnoc(c, x);
  }

  lemma NetOverUpdate(entries: seq<Entry>, i: nat, e: Entry, statuses: set<Status>, account: nat)
    requires i < |entries| && e.lines == entries[i].lines
    ensures NetOver(entries[i := e], statuses, account)
         == NetOver(entries, statuses, account)
            - (if entries[i].status in statuses then Net(e.lines, account) else 0)
            + (if e.status in statuses then Net(e.lines, account) else 0)
  {
    var c := NetColumn(entries, statuses, account);
    var x := if e.status in statuses then Net(e.lines, account) else 0;
    assert NetColumn(entries[i := e], statuses, account) == c[i := x];
    SumUpdate(c, i, x);
  }

  // ----- numbering -----

  function NumbersOf(entries: seq<Entry>, journal: string, year: int): seq<nat> {
    if |entries| == 0 then []
    else
      var e := entries[|entries| - 1];
      NumbersOf(entries[..|entries| - 1], journal, year)
      + if e.number.Some? && e.journal == journal && e.date.year == year then [e.number.value.value] else []
  }

  lemma NumbersSnoc(entries: seq<Entry>, e: Entry, journal: string, year: int)
    ensures NumbersOf(entries + [e], journal, year) == NumbersOf(entries, journal, year)
            + if e.number.Some? && e.journal == journal && e.date.year == year then [e.number.value.value] else []
  {
    assert (entries + [e])[..|entries|] == entries;
  }

  lemma {:induction false} NumbersUpdate(entries: seq<Entry>, i: nat, e: Entry, journal: string, year: int)
    requires i < |entries|
    requires e.number == entries[i].number
    requires e.number.Some? ==> e.journal == entries[i].journal && e.date == entries[i].date
    ensures NumbersOf(entries[i := e], journal, year) == NumbersOf(entries, journal, year)
  {
    var n := |entries| - 1;
    if i < n {
      NumbersUpdate(entries[..n], i, e, journal, year);
      assert entries[i := e][..n] == entries[..n][i := e];
    } else {
      assert entries[i := e][..n] == entries[..n];
    }
  }

  function UpTo(next: nat): (s: seq<nat>)
    requires next >= 1
  {
    seq(next - 1, i requires 0 <= i < next - 1 => i + 1)
  }

  // ----- the invariant -----

  /** A numbered entry balances to its control totals on lines of whole minor units. */
  predicate WellPosted(base: string, accounts: nat, e: Entry) {
    && |e.lines| >= 2
    && (forall i :: 0 <= i < |e.lines| ==> LineStands(accounts, e.lines[i], MinorUnit(e.currency)))
    && (e.currency == base ==> forall i :: 0 <= i < |e.lines| ==> BaseEqualsDocument(e.lines[i]))
    && Sum(Debits(e.lines)) == e.totalDebit == e.totalCredit == Sum(Credits(e.lines))
    && e.totalDebit > 0 && e.rate > 0
  }

  predicate LineStands(accounts: nat, l: Line, unit: int)
    requires unit > 0
  {
    l.account < accounts && SingleSided(l) && l.debit % unit == 0 && l.credit % unit == 0
  }

  predicate BaseEqualsDocument(l: Line) {
    l.baseDebit == l.debit && l.baseCredit == l.credit
  }

  predicate RowOk(base: string, accounts: nat, e: Entry) {
    && (e.number.Some? ==> WellPosted(base, accounts, e))
    && (e.number.None? ==> e.key == NoKey && !Live(e.status))
    && (e.status == Draft ==> e.number.None?)
  }

  ghost predicate CacheIsExact(b: Books) {
    forall a :: 0 <= a < |b.accounts| ==>
      b.accounts[a].balance == Signed(b.accounts[a].increasesOnDebit, NetOver(b.entries, LIVE, a))
  }

  ghost predicate KeysUnique(entries: seq<Entry>) {
    forall i, j :: 0 <= i < j < |entries| && entries[i].key != NoKey ==> entries[i].key != entries[j].key
  }

  ghost predicate Gapless(b: Books) {
    forall journal: string, year: int :: GaplessIn(b, journal, year)
  }

  ghost predicate GaplessIn(b: Books, journal: string, year: int) {
    if (journal, year) in b.counters
    then b.counters[(journal, year)].next >= 1
         && NumbersOf(b.entries, journal, year) == UpTo(b.counters[(journal, year)].next)
    else NumbersOf(b.entries, journal, year) == []
  }

  ghost predicate Inv(b: Books) {
    && (forall i :: 0 <= i < |b.entries| ==> RowOk(b.base, |b.accounts|, b.entries[i]))
    && CacheIsExact(b)
    && KeysUnique(b.entries)
    && Gapless(b)
  }

  // ----- posting keeps it -----

  lemma Untouched(lines: seq<Line>, account: nat)
    requires forall i :: 0 <= i < |lines| ==> lines[i].account != account
    ensures Net(lines, account) == 0
  {
    SumZero(seq(|lines|, i requires 0 <= i < |lines| =>
      if lines[i].account == account then lines[i].debit - lines[i].credit else 0));
  }

  lemma UnknownAccountIsFlat(b: Books, account: nat)
    requires Inv(b) && account >= |b.accounts|
    ensures NetOver(b.entries, LIVE, account) == 0
  {
    forall i | 0 <= i < |b.entries| ensures NetColumn(b.entries, LIVE, account)[i] == 0 {
      assert RowOk(b.base, |b.accounts|, b.entries[i]);
      if b.entries[i].status in LIVE {
        Untouched(b.entries[i].lines, account);
      }
    }
    SumZero(NetColumn(b.entries, LIVE, account));
  }

  /** When posting writes a new row, the row is well posted. */
  lemma NewEntryStands(b: Books, d: EntryDraft, onFile: Option<int>)
    requires Post(b, d, onFile).1.Done? && |Post(b, d, onFile).0.entries| > |b.entries|
    ensures Post(b, d, onFile).1 == Done(|b.entries|)
    ensures d.journal in b.journals && ResolveRate(b, d.currency, d.rate, onFile).Some?
    ensures var rate := ResolveRate(b, d.currency, d.rate, onFile).value;
            && Post(b, d, onFile).0 == Recorded(b, d, rate)
            && WellPosted(b.base, |b.accounts|, NewEntry(b, d, rate))
            && (d.key == NoKey || FindKey(b.entries, d.key).None?)
  {
    var rate := ResolveRate(b, d.currency, d.rate, onFile).value;
    var e := NewEntry(b, d, rate);
    WrittenAreWhole(b, d, rate);
    forall i | 0 <= i < |e.lines| ensures LineStands(|b.accounts|, e.lines[i], MinorUnit(d.currency)) {
      assert SingleSided(e.lines[i]);
    }
    if d.currency == b.base {
      WrittenInBase(b, d);
    }
  }

  lemma WrittenAreWhole(b: Books, d: EntryDraft, rate: int)
    ensures var lines, unit := PostedLines(b, d, rate), MinorUnit(d.currency);
            forall i :: 0 <= i < |lines| ==> lines[i].debit % unit == 0 && lines[i].credit % unit == 0
  {
    var unit := MinorUnit(d.currency);
    forall i | 0 <= i < |d.lines|
      ensures Quantize(d.lines[i].debit, unit) % unit == 0 && Quantize(d.lines[i].credit, unit) % unit == 0
    {
      QuantizedIsWhole(d.lines[i].debit, unit);
      QuantizedIsWhole(d.lines[i].credit, unit);
    }
  }

  lemma WrittenInBase(b: Books, d: EntryDraft)
    requires d.currency == b.base
    ensures var lines := PostedLines(b, d, MICROS);
            forall i :: 0 <= i < |lines| ==> BaseEqualsDocument(lines[i])
  {
    var lines, unit := PostedLines(b, d, MICROS), MinorUnit(d.currency);
    forall i | 0 <= i < |lines| ensures BaseEqualsDocument(lines[i]) {
      QuantizeAtRateOne(d.lines[i].debit, unit);
      QuantizeAtRateOne(d.lines[i].credit, unit);
    }
  }

  lemma RecordedKeepsCache(b: Books, d: EntryDraft, rate: int)
    requires Inv(b) && d.journal in b.journals
    ensures CacheIsExact(Recorded(b, d, rate))
  {
    var b', e := Recorded(b, d, rate), NewEntry(b, d, rate);
    forall a | 0 <= a < |b'.accounts|
      ensures b'.accounts[a].balance == Signed(b'.accounts[a].increasesOnDebit, NetOver(b'.entries, LIVE, a))
    {
      NetOverSnoc(b.entries, e, LIVE, a);
    }
  }

  lemma RecordedKeepsNumbers(b: Books, d: EntryDraft, rate: int)
    requires Inv(b) && d.journal in b.journals
    ensures Gapless(Recorded(b, d, rate))
  {
    var b' := Recorded(b, d, rate);
    forall journal: string, year: int ensures GaplessIn(b', journal, year) {
      RecordedKeepsNumbersIn(b, d, rate, journal, year);
    }
  }

  lemma RecordedKeepsNumbersIn(b: Books, d: EntryDraft, rate: int, journal: string, year: int)
    requires GaplessIn(b, journal, year) && d.journal in b.journals
    ensures GaplessIn(Recorded(b, d, rate), journal, year)
  {
    NumbersSnoc(b.entries, NewEntry(b, d, rate), journal, year);
    if journal == d.journal && year == d.date.year {
      var next := NextNumber(b, journal, year).next;
      assert next >= 1 && UpTo(next + 1) == UpTo(next) + [next];
    }
  }

  lemma PostKeepsInv(b: Books, d: EntryDraft, onFile: Option<int>)
    requires Inv(b)
    ensures Inv(Post(b, d, onFile).0)
  {
    var b' := Post(b, d, onFile).0;
    if |b'.entries| > |b.entries| {
      NewEntryStands(b, d, onFile);
      var rate := ResolveRate(b, d.currency, d.rate, onFile).value;
      RecordedKeepsCache(b, d, rate);
      RecordedKeepsNumbers(b, d, rate);
      forall i | 0 <= i < |b'.entries| ensures RowOk(b'.base, |b'.accounts|, b'.entries[i]) {
        assert i < |b.entries| ==> RowOk(b.base, |b.accounts|, b.entries[i]);
      }
    }
  }

  // ----- changing the status or the reversal link of a row -----

  /** Rewriting a row without touching its lines, number or key keeps everything
      but possibly the balances. */
  lemma RowRewriteKeeps(b: Books, i: nat, e: Entry)
    requires Inv(b) && i < |b.entries|
    requires e == b.entries[i].(status := e.status, reversalOf := e.reversalOf)
    requires RowOk(b.base, |b.accounts|, e)
    ensures var b' := b.(entries := b.entries[i := e]);
            && (forall k :: 0 <= k < |b'.entries| ==> RowOk(b'.base, |b'.accounts|, b'.entries[k]))
            && KeysUnique(b'.entries) && Gapless(b')
  {
    var b' := b.(entries := b.entries[i := e]);
    forall journal: string, year: int ensures GaplessIn(b', journal, year) {
      assert GaplessIn(b, journal, year);
      NumbersUpdate(b.entries, i, e, journal, year);
    }
    forall k | 0 <= k < |b'.entries| ensures RowOk(b'.base, |b'.accounts|, b'.entries[k]) {
      assert RowOk(b.base, |b.accounts|, b.entries[k]);
    }
  }

  lemma VoidKeepsInv(b: Books, id: nat, reasonGiven: bool)
    requires Inv(b)
    ensures Inv(Void(b, id, reasonGiven).0)
  {
    var (b', outcome) := Void(b, id, reasonGiven);
    if outcome.Done? {
      var e := b.entries[id].(status := Voided);
      assert RowOk(b.base, |b.accounts|, b.entries[id]);
      RowRewriteKeeps(b, id, e);
      assert b'.entries == b.entries[id := e];
      forall journal: string, year: int ensures GaplessIn(b', journal, year) {
        assert GaplessIn(b.(entries := b.entries[id := e]), journal, year);
      }
      forall a | 0 <= a < |b'.accounts|
        ensures b'.accounts[a].balance == Signed(b'.accounts[a].increasesOnDebit, NetOver(b'.entries, LIVE, a))
      {
        NetOverUpdate(b.entries, id, e, LIVE, a);
      }
    }
  }

  lemma LiveRewriteKeepsInv(b: Books, i: nat, e: Entry)
    requires Inv(b) && i < |b.entries|
    requires e == b.entries[i].(status := e.status, reversalOf := e.reversalOf)
    requires Live(e.status) == Live(b.entries[i].status) && (e.status == Draft ==> b.entries[i].status == Draft)
    ensures Inv(b.(entries := b.entries[i := e]))
  {
    var b' := b.(entries := b.entries[i := e]);
    assert RowOk(b.base, |b.accounts|, b.entries[i]);
    RowRewriteKeeps(b, i, e);
    forall a | 0 <= a < |b'.accounts|
      ensures b'.accounts[a].balance == Signed(b'.accounts[a].increasesOnDebit, NetOver(b'.entries, LIVE, a))
    {
      NetOverUpdate(b.entries, i, e, LIVE, a);
    }
  }

  lemma PostKeepsRows(b: Books, d: EntryDraft, onFile: Option<int>)
    ensures var b' := Post(b, d, onFile).0;
            && |b.entries| <= |b'.entries| <= |b.entries| + 1
            && b'.entries[..|b.entries|] == b.entries
            && b'.periods == b.periods && b'.journals == b.journals && b'.base == b.base
            && |b'.accounts| == |b.accounts|
  {}

  lemma PostAnswersUnderItsKey(b: Books, d: EntryDraft, onFile: Option<int>)
    requires Post(b, d, onFile).1.Done? && d.key != NoKey
    ensures Post(b, d, onFile).0.entries[Post(b, d, onFile).1.id].key == d.key
  {}

  lemma ReverseKeepsInv(b: Books, id: nat, on: Date, onFile: Option<int>)
    requires Inv(b)
    ensures Inv(Reverse(b, id, on, onFile).0)
  {
    var (b', outcome) := Reverse(b, id, on, onFile);
    if outcome.Done? {
      var d := Mirror(b.entries[id], id, on);
      PostKeepsInv(b, d, onFile);
      PostKeepsRows(b, d, onFile);
      var posted := Post(b, d, onFile).0;
      assert posted.entries[id] == posted.entries[..|b.entries|][id] == b.entries[id];
      LiveRewriteKeepsInv(posted, id, posted.entries[id].(status := Reversed));
      var marked := WithStatus(posted, id, Reversed);
      LiveRewriteKeepsInv(marked, outcome.id, marked.entries[outcome.id].(reversalOf := Some(id)));
    }
  }

  lemma PostDraftKeepsInv(b: Books, id: nat, key: Key, onFile: Option<int>)
    requires Inv(b)
    ensures Inv(PostDraft(b, id, key, onFile).0)
  {
    if id < |b.entries| {
      var d := FromStored(b.entries[id], if key == NoKey then DraftKey(id) else key);
      PostKeepsInv(b, d, onFile);
      VoidKeepsInv(Post(b, d, onFile).0, id, true);
    }
  }

  lemma AddDraftKeepsInv(b: Books, d: EntryDraft)
    requires Inv(b) && CanSave(b, d)
    ensures Inv(Apply(b, AddDraft(d)))
  {
    var b', e := Apply(b, AddDraft(d)), StoredDraft(d);
    forall journal: string, year: int ensures GaplessIn(b', journal, year) {
      assert GaplessIn(b, journal, year);
      NumbersSnoc(b.entries, e, journal, year);
    }
    forall a | 0 <= a < |b'.accounts|
      ensures b'.accounts[a].balance == Signed(b'.accounts[a].increasesOnDebit, NetOver(b'.entries, LIVE, a))
    {
      NetOverSnoc(b.entries, e, LIVE, a);
    }
  }

  lemma EditDraftKeepsInv(b: Books, op: Op)
    requires Inv(b) && op.EditDraft? && CanEdit(b, op.id, op.journal, op.date, op.rate)
    ensures Inv(Apply(b, op))
  {
    var b', e := Apply(b, op), Edited(b.entries[op.id], op.journal, op.date, op.currency, op.rate);
    assert RowOk(b.base, |b.accounts|, b.entries[op.id]);
    forall journal: string, year: int ensures GaplessIn(b', journal, year) {
      assert GaplessIn(b, journal, year);
      NumbersUpdate(b.entries, op.id, e, journal, year);
    }
    forall i | 0 <= i < |b'.entries| ensures RowOk(b'.base, |b'.accounts|, b'.entries[i]) {
      assert RowOk(b.base, |b.accounts|, b.entries[i]);
    }
    forall a | 0 <= a < |b'.accounts|
      ensures b'.accounts[a].balance == Signed(b'.accounts[a].increasesOnDebit, NetOver(b'.entries, LIVE, a))
    {
      NetOverUpdate(b.entries, op.id, e, LIVE, a);
    }
  }

  lemma AccountOpsKeepCache(b: Books, op: Op)
    requires Inv(b) && (op.AddAccount? || op.ArchiveAccount? || op.SetPeriods?)
    ensures CacheIsExact(Apply(b, op))
  {
    var b' := Apply(b, op);
    forall a | 0 <= a < |b'.accounts|
      ensures b'.accounts[a].balance == Signed(b'.accounts[a].increasesOnDebit, NetOver(b'.entries, LIVE, a))
    {
      if a == |b.accounts| {
        UnknownAccountIsFlat(b, a);
      }
    }
  }

  lemma AccountOpsKeepInv(b: Books, op: Op)
    requires Inv(b) && (op.AddAccount? || op.ArchiveAccount? || op.SetPeriods?)
    ensures Inv(Apply(b, op))
  {
    var b' := Apply(b, op);
    AccountOpsKeepCache(b, op);
    forall journal: string, year: int ensures GaplessIn(b', journal, year) {
      assert GaplessIn(b, journal, year);
    }
    forall i | 0 <= i < |b'.entries| ensures RowOk(b'.base, |b'.accounts|, b'.entries[i]) {
      assert RowOk(b.base, |b.accounts|, b.entries[i]);
    }
  }

  /** Every operation, successful or refused, keeps the invariant. */
  lemma ApplyKeepsInv(b: Books, op: Op)
    requires Inv(b)
    ensures Inv(Apply(b, op))
  {
    match op
    case DoPost(d, onFile) => PostKeepsInv(b, d, onFile);
    case DoPostDraft(id, key, onFile) => PostDraftKeepsInv(b, id, key, onFile);
    case DoVoid(id, given) => VoidKeepsInv(b, id, given);
    case DoReverse(id, on, onFile) => ReverseKeepsInv(b, id, on, onFile);
    case AddDraft(d) =>
      if CanSave(b, d) {
        AddDraftKeepsInv(b, d);
      }
    case EditDraft(id, journal, date, _, rate) =>
      if CanEdit(b, id, journal, date, rate) {
        EditDraftKeepsInv(b, op);
      }
    case _ => AccountOpsKeepInv(b, op);
  }

  /** Over every run from empty books: cached balances are exact, every numbered
      entry balances, keys are unique and numbers run 1, 2, 3, ... without a gap. */
  lemma {:induction false} RunKeepsInv(base: string, journals: map<string, Journal>, ops: seq<Op>)
    ensures Inv(Run(EmptyBooks(base, journals), ops))
  {
    if |ops| > 0 {
      RunKeepsInv(base, journals, ops[..|ops| - 1]);
      ApplyKeepsInv(Run(EmptyBooks(base, journals), ops[..|ops| - 1]), ops[|ops| - 1]);
    }
  }
}
