/** The general ledger of one tenant as a value, and what posting, voiding and
    reversing an entry do to it. */
module Ledger {
  import opened Money
  import opened Sums

  // ----- rows -----

  datatype Status = Draft | Posted | Voided | Reversed
  datatype PeriodStatus = Open | SoftClosed | Closed
  datatype Date = Date(day: int, year: int)
  datatype Period = Period(first: int, last: int, status: PeriodStatus, yearClosed: bool)
  datatype Account = Account(increasesOnDebit: bool, postable: bool, active: bool, balance: int)
  datatype Journal = Journal(prefix: string, active: bool)
  datatype Counter = Counter(prefix: string, next: nat)
  datatype Number = Number(prefix: string, year: int, value: nat)

  /** An idempotency key: absent, text sent by a client, or one of the two keys the
      service derives. A client may send the text of a derived key. */
  datatype Key = NoKey | Text(text: string) | DraftKey(id: nat) | ReversalKey(id: nat)

  datatype Line = Line(account: nat, debit: int, credit: int, baseDebit: int, baseCredit: int)
  datatype Entry = Entry(status: Status, journal: string, date: Date, currency: string, rate: int,
                         totalDebit: int, totalCredit: int, number: Option<Number>, lines: seq<Line>,
                         key: Key, reversalOf: Option<nat>)

  datatype Books = Books(base: string, accounts: seq<Account>, periods: seq<Period>,
                         journals: map<string, Journal>, counters: map<(string, int), Counter>,
                         entries: seq<Entry>)

  // ----- drafts handed to the posting service -----

  datatype LineDraft = LineDraft(account: nat, debit: int, credit: int)
  datatype EntryDraft = EntryDraft(journal: string, date: Date, currency: string, lines: seq<LineDraft>,
                                   rate: int, key: Key)

  datatype Error =
    | BadLine | TooFewLines | Unbalanced | ZeroAmount | BadRate | NoSuchAccount | AccountRefused
    | NoPeriod | PeriodNotOpen | NoSuchJournal | NoRate | LineVanishes | LinesDisagree | PeriodLocked
    | NoSuchEntry | IllegalTransition | ReasonMissing | AlreadyReversed

  datatype Outcome = Done(id: nat) | Failed(error: Error)

  // ----- totals -----

  function Debits(lines: seq<Line>): (s: seq<int>) {
    seq(|lines|, i requires 0 <= i < |lines| => lines[i].debit)
  }

  function Credits(lines: seq<Line>): (s: seq<int>) {
    seq(|lines|, i requires 0 <= i < |lines| => lines[i].credit)
  }

  function DraftDebits(lines: seq<LineDraft>): (s: seq<int>) {
    seq(|lines|, i requires 0 <= i < |lines| => lines[i].debit)
  }

  function DraftCredits(lines: seq<LineDraft>): (s: seq<int>) {
    seq(|lines|, i requires 0 <= i < |lines| => lines[i].credit)
  }

  /** Debits minus credits of the lines against one account. */
  function Net(lines: seq<Line>, account: nat): int {
    Sum(seq(|lines|, i requires 0 <= i < |lines| =>
      if lines[i].account == account then lines[i].debit - lines[i].credit else 0))
  }

  /** A net debit as a movement of a balance with the given normal side. */
  function Signed(increasesOnDebit: bool, net: int): int {
    if increasesOnDebit then net else -net
  }

  // ----- checks made before anything is written -----

  predicate LineOk(l: LineDraft) {
    l.debit >= 0 && l.credit >= 0 && (l.debit > 0) != (l.credit > 0)
  }

  function Validate(b: Books, d: EntryDraft): Option<Error> {
    var unit := MinorUnit(d.currency);
    var debit, credit := Quantize(Sum(DraftDebits(d.lines)), unit), Quantize(Sum(DraftCredits(d.lines)), unit);
    if exists i :: 0 <= i < |d.lines| && !LineOk(d.lines[i]) then Some(BadLine)
    else if |d.lines| < 2 then Some(TooFewLines)
    else if debit != credit then Some(Unbalanced)
    else if debit <= 0 then Some(ZeroAmount)
    else if d.rate <= 0 then Some(BadRate)
    else if exists i :: 0 <= i < |d.lines| && d.lines[i].account >= |b.accounts| then Some(NoSuchAccount)
    else if exists i :: 0 <= i < |d.lines| && d.lines[i].account < |b.accounts| &&
                        !(b.accounts[d.lines[i].account].postable && b.accounts[d.lines[i].account].active)
    then Some(AccountRefused)
    else None
  }

  function FindKey(entries: seq<Entry>, key: Key): (r: Option<nat>)
    ensures r.Some? ==> r.value < |entries| && entries[r.value].key == key
    ensures r.None? ==> forall i :: 0 <= i < |entries| ==> entries[i].key != key
  {
    if |entries| == 0 then None
    else
      var before := FindKey(entries[..|entries| - 1], key);
      if before.Some? then before
      else if entries[|entries| - 1].key == key then Some(|entries| - 1) else None
  }

  function FindPeriod(periods: seq<Period>, day: int): (r: Option<Period>) {
    if |periods| == 0 then None
    else if periods[0].first <= day <= periods[0].last then Some(periods[0])
    else FindPeriod(periods[1..], day)
  }

  /** The rate an entry is posted at; a supplied rate of 1 means "not supplied". */
  function ResolveRate(b: Books, currency: string, supplied: int, onFile: Option<int>): (r: Option<int>) {
    if currency == b.base then (if supplied == MICROS then Some(MICROS) else None)
    else if supplied != MICROS then Some(supplied)
    else onFile
  }

  // ----- what is written -----

  function PostedLine(l: LineDraft, unit: int, rate: int, baseUnit: int): Line
    requires unit > 0 && baseUnit > 0
  {
    Line(l.account, Quantize(l.debit, unit), Quantize(l.credit, unit),
         QuantizeRatio(l.debit * rate, MICROS, baseUnit), QuantizeRatio(l.credit * rate, MICROS, baseUnit))
  }

  function PostedLines(b: Books, d: EntryDraft, rate: int): (lines: seq<Line>)
    ensures |lines| == |d.lines|
  {
    var unit, baseUnit := MinorUnit(d.currency), MinorUnit(b.base);
    seq(|d.lines|, i requires 0 <= i < |d.lines| => PostedLine(d.lines[i], unit, rate, baseUnit))
  }

  predicate SingleSided(l: Line) {
    (l.debit > 0 && l.credit == 0) || (l.credit > 0 && l.debit == 0)
  }

  function NextNumber(b: Books, journal: string, year: int): (c: Counter)
    requires journal in b.journals
  {
    if (journal, year) in b.counters then b.counters[(journal, year)] else Counter(b.journals[journal].prefix, 1)
  }

  /** Every account moved by its own lines, `sign` times. */
  function Applied(accounts: seq<Account>, lines: seq<Line>, sign: int): (r: seq<Account>)
    ensures |r| == |accounts|
  {
    seq(|accounts|, a requires 0 <= a < |accounts| =>
      accounts[a].(balance := accounts[a].balance + sign * Signed(accounts[a].increasesOnDebit, Net(lines, a))))
  }

  function NewEntry(b: Books, d: EntryDraft, rate: int): Entry
    requires d.journal in b.journals
  {
    var unit := MinorUnit(d.currency);
    var c := NextNumber(b, d.journal, d.date.year);
    Entry(Posted, d.journal, d.date, d.currency, rate,
          Quantize(Sum(DraftDebits(d.lines)), unit), Quantize(Sum(DraftCredits(d.lines)), unit),
          Some(Number(c.prefix, d.date.year, c.next)), PostedLines(b, d, rate), d.key, None)
  }

  function Recorded(b: Books, d: EntryDraft, rate: int): Books
    requires d.journal in b.journals
  {
    var c := NextNumber(b, d.journal, d.date.year);
    b.(counters := b.counters[(d.journal, d.date.year) := c.(next := c.next + 1)],
       entries := b.entries + [NewEntry(b, d, rate)],
       accounts := Applied(b.accounts, PostedLines(b, d, rate), 1))
  }

  /** Writing the entry, its lines and the balances: all of it, or nothing when a
      row check or the commit-time balance trigger objects. */
  function Commit(b: Books, d: EntryDraft, rate: int, yearClosed: bool): (r: (Books, Outcome))
    requires d.journal in b.journals
    ensures r.1.Failed? ==> r.0 == b
    ensures r.1.Done? ==> r == (Recorded(b, d, rate), Done(|b.entries|))
  {
    var e := NewEntry(b, d, rate);
    if yearClosed then (b, Failed(PeriodLocked))
    else if exists i :: 0 <= i < |e.lines| && !SingleSided(e.lines[i]) then (b, Failed(LineVanishes))
    else if Sum(Debits(e.lines)) != e.totalDebit || Sum(Credits(e.lines)) != e.totalCredit
    then (b, Failed(LinesDisagree))
    else (Recorded(b, d, rate), Done(|b.entries|))
  }

  /** post_entry, in its own transaction. `onFile` is the rate table's answer. */
  function Post(b: Books, d: EntryDraft, onFile: Option<int>): (r: (Books, Outcome))
    ensures r.1.Failed? ==> r.0 == b
    ensures r.1.Done? ==> r.1.id < |r.0.entries| && |b.entries| <= |r.0.entries|
  {
    var invalid := Validate(b, d);
    if invalid.Some? then (b, Failed(invalid.value)) else
    var existing := if d.key == NoKey then None else FindKey(b.entries, d.key);
    if existing.Some? then (b, Done(existing.value)) else
    var period := FindPeriod(b.periods, d.date.day);
    if period.None? then (b, Failed(NoPeriod)) else
    if period.value.status != Open then (b, Failed(PeriodNotOpen)) else
    if d.journal !in b.journals || !b.journals[d.journal].active then (b, Failed(NoSuchJournal)) else
    var rate := ResolveRate(b, d.currency, d.rate, onFile);
    if rate.None? || rate.value <= 0 then (b, Failed(NoRate)) else
    Commit(b, d, rate.value, period.value.yearClosed)
  }

  // ----- the entry life cycle -----

  predicate Allowed(from: Status, to: Status) {
    match from
    case Draft => to in {Posted, Voided}
    case Posted => to in {Voided, Reversed}
    case _ => false
  }

  function WithStatus(b: Books, id: nat, s: Status): Books
    requires id < |b.entries|
  {
    b.(entries := b.entries[id := b.entries[id].(status := s)])
  }

  function Void(b: Books, id: nat, reasonGiven: bool): (r: (Books, Outcome))
    ensures r.1.Failed? ==> r.0 == b
  {
    if id >= |b.entries| then (b, Failed(NoSuchEntry)) else
    var e := b.entries[id];
    if !Allowed(e.status, Voided) then (b, Failed(IllegalTransition)) else
    var period := FindPeriod(b.periods, e.date.day);
    if period.None? then (b, Failed(NoPeriod)) else
    if period.value.status != Open then (b, Failed(PeriodNotOpen)) else
    if !reasonGiven then (b, Failed(ReasonMissing)) else
    var unwound := if e.status == Posted then b.(accounts := Applied(b.accounts, e.lines, -1)) else b;
    (WithStatus(unwound, id, Voided), Done(id))
  }

  function Mirror(e: Entry, id: nat, on: Date): EntryDraft {
    EntryDraft(e.journal, on, e.currency,
               seq(|e.lines|, i requires 0 <= i < |e.lines| =>
                 LineDraft(e.lines[i].account, e.lines[i].credit, e.lines[i].debit)),
               e.rate, ReversalKey(id))
  }

  function Reverse(b: Books, id: nat, on: Date, onFile: Option<int>): (r: (Books, Outcome))
    ensures r.1.Failed? ==> r.0 == b
  {
    if id >= |b.entries| then (b, Failed(NoSuchEntry)) else
    var e := b.entries[id];
    if e.status != Posted then (b, Failed(IllegalTransition)) else
    if exists i :: 0 <= i < |b.entries| && b.entries[i].reversalOf == Some(id) then (b, Failed(AlreadyReversed)) else
    var (posted, outcome) := Post(b, Mirror(e, id, on), onFile);
    if outcome.Failed? then (b, outcome) else
    var marked := WithStatus(posted, id, Reversed);
    (marked.(entries := marked.entries[outcome.id := marked.entries[outcome.id].(reversalOf := Some(id))]), outcome)
  }

  /** A stored draft as the posting service receives it. */
  function FromStored(e: Entry, key: Key): EntryDraft {
    EntryDraft(e.journal, e.date, e.currency,
               seq(|e.lines|, i requires 0 <= i < |e.lines| =>
                 LineDraft(e.lines[i].account, e.lines[i].debit, e.lines[i].credit)),
               e.rate, key)
  }

  /** Post a stored draft: a new posted row, then the draft retired as voided. */
  function PostDraft(b: Books, id: nat, clientKey: Key, onFile: Option<int>): (r: (Books, Outcome))
    ensures r.1.Failed? ==> r.0 == b
  {
    if id >= |b.entries| then (b, Failed(NoSuchEntry)) else
    var e := b.entries[id];
    if e.status != Draft then (b, Failed(IllegalTransition)) else
    if |e.lines| < 2 then (b, Failed(TooFewLines)) else
    var key := if clientKey == NoKey then DraftKey(id) else clientKey;
    var (posted, outcome) := Post(b, FromStored(e, key), onFile);
    if outcome.Failed? then (b, outcome) else
    if posted.entries[id].status != Draft then (posted, outcome) else
    var (retired, voiding) := Void(posted, id, true);
    if voiding.Failed? then (b, voiding) else (retired, outcome)
  }

  // ----- the rest of the alphabet of a run -----

  datatype Op =
    | DoPost(draft: EntryDraft, onFile: Option<int>)
    | DoPostDraft(id: nat, key: Key, onFile: Option<int>)
    | DoVoid(id: nat, reasonGiven: bool)
    | DoReverse(id: nat, on: Date, onFile: Option<int>)
    | AddDraft(draft: EntryDraft)
    | EditDraft(id: nat, journal: string, date: Option<Date>, currency: string, rate: int)
    | AddAccount(increasesOnDebit: bool, postable: bool)
    | ArchiveAccount(account: nat)
    | SetPeriods(periods: seq<Period>)

  /** What saving a draft asks: lines of one side each on existing accounts, a period for
      its day, open or not, a journal and a rate. It need not balance. */
  predicate CanSave(b: Books, d: EntryDraft) {
    && |d.lines| > 0 && d.rate > 0 && d.journal in b.journals && FindPeriod(b.periods, d.date.day).Some?
    && forall i :: 0 <= i < |d.lines| ==> LineOk(d.lines[i]) && d.lines[i].account < |b.accounts|
  }

  /** A draft line: the amounts as given, and their plain conversion to six decimals. */
  function StoredLine(l: LineDraft, rate: int): Line {
    Line(l.account, l.debit, l.credit, RoundHalfUp(l.debit * rate, MICROS), RoundHalfUp(l.credit * rate, MICROS))
  }

  /** Saving a draft allocates no number and takes no key. */
  function StoredDraft(d: EntryDraft): Entry {
    Entry(Draft, d.journal, d.date, d.currency, d.rate, Sum(DraftDebits(d.lines)), Sum(DraftCredits(d.lines)), None,
          seq(|d.lines|, i requires 0 <= i < |d.lines| => StoredLine(d.lines[i], d.rate)), NoKey, None)
  }

  /** An edit reaches the header of a draft and nothing else; a new date needs a period. */
  predicate CanEdit(b: Books, id: nat, journal: string, date: Option<Date>, rate: int) {
    && id < |b.entries| && b.entries[id].status == Draft && journal in b.journals && rate > 0
    && (date.Some? ==> FindPeriod(b.periods, date.value.day).Some?)
  }

  function Edited(e: Entry, journal: string, date: Option<Date>, currency: string, rate: int): Entry {
    e.(journal := journal, date := if date.Some? then date.value else e.date, currency := currency, rate := rate)
  }

  function Apply(b: Books, op: Op): Books {
    match op
    case DoPost(d, onFile) => Post(b, d, onFile).0
    case DoPostDraft(id, key, onFile) => PostDraft(b, id, key, onFile).0
    case DoVoid(id, given) => Void(b, id, given).0
    case DoReverse(id, on, onFile) => Reverse(b, id, on, onFile).0
    case AddDraft(d) => if CanSave(b, d) then b.(entries := b.entries + [StoredDraft(d)]) else b
    case EditDraft(id, journal, date, currency, rate) =>
      if CanEdit(b, id, journal, date, rate)
      then b.(entries := b.entries[id := Edited(b.entries[id], journal, date, currency, rate)])
      else b
    case AddAccount(side, postable) => b.(accounts := b.accounts + [Account(side, postable, true, 0)])
    case ArchiveAccount(a) =>
      if a < |b.accounts| && b.accounts[a].balance == 0
      then b.(accounts := b.accounts[a := b.accounts[a].(active := false, postable := false)])
      else b
    case SetPeriods(ps) => b.(periods := ps)
  }

  function Run(b: Books, ops: seq<Op>): Books {
    if |ops| == 0 then b else Apply(Run(b, ops[..|ops| - 1]), ops[|ops| - 1])
  }

  function EmptyBooks(base: string, journals: map<string, Journal>): Books {
    Books(base, [], [], journals, map[], [])
  }
}
