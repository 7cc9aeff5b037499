/** Stored drafts: what posting one writes, and that saving a draft first changes nothing
    about what is posted. */
module LedgerDrafts {
  import opened Money
  import opened Sums
  import opened Ledger
  import opened LedgerInvariants
  import opened LedgerLaws
  import opened LedgerAdmission

  lemma DraftGoesThroughPost(b: Books, id: nat, clientKey: Key, onFile: Option<int>)
    requires |PostDraft(b, id, clientKey, onFile).0.entries| > |b.entries|
    ensures id < |b.entries| && b.entries[id].status == Draft
    ensures var d := FromStored(b.entries[id], KeyFor(id, clientKey));
            var (posted, after) := (Post(b, d, onFile).0, PostDraft(b, id, clientKey, onFile).0);
            && |posted.entries| == |b.entries| + 1 && posted.entries[..|b.entries|] == b.entries
            && after.accounts == posted.accounts
            && after.entries == posted.entries[id := b.entries[id].(status := Voided)]
  {
    var d := FromStored(b.entries[id], KeyFor(id, clientKey));
    PostKeepsRows(b, d, onFile);
    var posted := Post(b, d, onFile).0;
    assert posted.entries[id] == posted.entries[..|b.entries|][id] == b.entries[id];
  }

  /** p carries what e says: journal, date, currency, and on every line the same account
      with the same sides at currency precision. */
  predicate Carries(p: Entry, e: Entry) {
    var unit := MinorUnit(e.currency);
    && p.journal == e.journal && p.date == e.date && p.currency == e.currency && |p.lines| == |e.lines|
    && forall i :: 0 <= i < |e.lines| ==>
         p.lines[i].account == e.lines[i].account && p.lines[i].debit == Quantize(e.lines[i].debit, unit)
         && p.lines[i].credit == Quantize(e.lines[i].credit, unit)
  }

  /** A stored draft is posted as it was stored: a new row with its journal, date, currency
      and lines, each account debited and credited what the draft says at currency
      precision; the draft itself is marked as voided and no other row changes. */
  lemma DraftPostsItsLines(b: Books, id: nat, clientKey: Key, onFile: Option<int>)
    requires |PostDraft(b, id, clientKey, onFile).0.entries| > |b.entries|
    ensures id < |b.entries| && |PostDraft(b, id, clientKey, onFile).0.entries| == |b.entries| + 1
    ensures var after, e := PostDraft(b, id, clientKey, onFile).0, b.entries[id];
            var p := after.entries[|b.entries|];
            && p.status == Posted && p.key == (if clientKey == NoKey then DraftKey(id) else clientKey)
            && Carries(p, e) && after.entries[..|b.entries|] == b.entries[id := e.(status := Voided)]
  {
    var e := b.entries[id];
    var d := FromStored(e, KeyFor(id, clientKey));
    DraftGoesThroughPost(b, id, clientKey, onFile);
    PostedRow(b, d, onFile);
    var posted := Post(b, d, onFile).0;
    var retired := e.(status := Voided);
    assert posted.entries[id := retired][..|b.entries|] == posted.entries[..|b.entries|][id := retired];
  }

  /** Whatever posting a stored draft adds to the books carries that draft. */
  ghost predicate AddsWhatIsStored(b: Books, id: nat, after: Books) {
    |after.entries| > |b.entries| ==> id < |b.entries| && Carries(after.entries[|b.entries|], b.entries[id])
  }

  lemma PostingAddsWhatIsStored(b: Books, id: nat, clientKey: Key, onFile: Option<int>)
    ensures AddsWhatIsStored(b, id, PostDraft(b, id, clientKey, onFile).0)
  {
    if |PostDraft(b, id, clientKey, onFile).0.entries| > |b.entries| {
      DraftPostsItsLines(b, id, clientKey, onFile);
    }
  }

  ghost predicate PreciseLines(e: Entry) {
    forall i :: 0 <= i < |e.lines| ==>
      e.lines[i].debit % MinorUnit(e.currency) == 0 && e.lines[i].credit % MinorUnit(e.currency) == 0
  }

  lemma NetOfSame(lines: seq<Line>, same: seq<Line>, account: nat)
    requires |same| == |lines|
    requires forall i :: 0 <= i < |lines| ==>
               same[i].account == lines[i].account && same[i].debit == lines[i].debit
               && same[i].credit == lines[i].credit
    ensures Net(same, account) == Net(lines, account)
  {
    assert seq(|same|, i requires 0 <= i < |same| =>
      if same[i].account == account then same[i].debit - same[i].credit else 0)
        == seq(|lines|, i requires 0 <= i < |lines| =>
          if lines[i].account == account then lines[i].debit - lines[i].credit else 0);
  }

  /** So a draft at currency precision moves every balance by its own stored lines. */
  lemma PreciseDraftMovesItsNets(b: Books, id: nat, clientKey: Key, onFile: Option<int>, account: nat)
    requires |PostDraft(b, id, clientKey, onFile).0.entries| > |b.entries|
    requires id < |b.entries| && PreciseLines(b.entries[id]) && account < |b.accounts|
    ensures var after := PostDraft(b, id, clientKey, onFile).0;
            && account < |after.accounts|
            && after.accounts[account].balance
               == b.accounts[account].balance
                  + Signed(b.accounts[account].increasesOnDebit, Net(b.entries[id].lines, account))
  {
    var e := b.entries[id];
    var d, unit := FromStored(e, KeyFor(id, clientKey)), MinorUnit(e.currency);
    DraftGoesThroughPost(b, id, clientKey, onFile);
    NewEntryStands(b, d, onFile);
    var written := NewEntry(b, d, ResolveRate(b, d.currency, d.rate, onFile).value).lines;
    forall i | 0 <= i < |e.lines|
      ensures Quantize(e.lines[i].debit, unit) == e.lines[i].debit
              && Quantize(e.lines[i].credit, unit) == e.lines[i].credit
    {
      QuantizeFixesWholeUnits(e.lines[i].debit, unit);
      QuantizeFixesWholeUnits(e.lines[i].credit, unit);
    }
    NetOfSame(e.lines, written, account);
  }

  // ----- saving first -----

  /** A draft is saved exactly when its lines have one side each on accounts that exist and
      its day has a period, open or not; balanced it need not be. It is one unnumbered row at
      the end with the lines as given, and no balance or counter moves. */
  lemma SavesIff(b: Books, d: EntryDraft)
    ensures |Apply(b, AddDraft(d)).entries| == |b.entries| + 1
            <==> && d.lines != [] && d.rate > 0 && d.journal in b.journals
                 && (exists i: nat :: AnswersFor(b.periods, i, d.date.day))
                 && forall i :: 0 <= i < |d.lines| ==>
                      && d.lines[i].account < |b.accounts|
                      && ((d.lines[i].debit > 0 && d.lines[i].credit == 0)
                          || (d.lines[i].debit == 0 && d.lines[i].credit > 0))
    ensures var after, n := Apply(b, AddDraft(d)), |b.entries|;
            && after == b.(entries := after.entries) && |after.entries| >= n && after.entries[..n] == b.entries
            && (|after.entries| > n ==>
                  && after.entries[n].status == Draft && after.entries[n].number == None
                  && after.entries[n].key == NoKey && |after.entries[n].lines| == |d.lines|
                  && forall i :: 0 <= i < |d.lines| ==>
                       && after.entries[n].lines[i].account == d.lines[i].account
                       && after.entries[n].lines[i].debit == d.lines[i].debit
                       && after.entries[n].lines[i].credit == d.lines[i].credit
                       && after.entries[n].lines[i].baseDebit == RoundHalfUp(d.lines[i].debit * d.rate, MICROS)
                       && after.entries[n].lines[i].baseCredit == RoundHalfUp(d.lines[i].credit * d.rate, MICROS))
  {
    PeriodFoundIff(b.periods, d.date.day);
  }

  /** An edit goes through exactly on a draft, with a journal, a rate and, when it moves the
      day, a period to move it to; it changes the header of that row and nothing else. */
  lemma EditsIff(b: Books, id: nat, journal: string, date: Option<Date>, currency: string, rate: int)
    ensures var after := Apply(b, EditDraft(id, journal, date, currency, rate));
            if id < |b.entries| && b.entries[id].status == Draft && journal in b.journals && rate > 0
               && (date.Some? ==> exists i: nat :: AnswersFor(b.periods, i, date.value.day))
            then
              var e := b.entries[id];
              var day := if date.Some? then date.value else e.date;
              after == b.(entries := b.entries[id := Entry(Draft, journal, day, currency, rate, e.totalDebit,
                                                           e.totalCredit, e.number, e.lines, e.key, e.reversalOf)])
            else after == b
  {
    if date.Some? {
      PeriodFoundIff(b.periods, date.value.day);
    }
  }

  /** Nothing of a draft is lost on the way through the table. */
  lemma SavedDraftComesBack(d: EntryDraft, key: Key)
    ensures FromStored(StoredDraft(d), key) == d.(key := key)
  {
    assert FromStored(StoredDraft(d), key).lines == d.lines;
  }

  lemma {:induction false} FindKeySnoc(entries: seq<Entry>, e: Entry, key: Key)
    requires e.key != key
    ensures FindKey(entries + [e], key) == FindKey(entries, key)
  {
    assert (entries + [e])[..|entries|] == entries;
  }

  lemma ValidateIgnoresRows(b: Books, entries: seq<Entry>, d: EntryDraft)
    ensures Validate(b.(entries := entries), d) == Validate(b, d)
  {}

  /** The same answer, up to where the new row lands, and the same balances and numbers. */
  predicate SameResult(here: (Books, Outcome), there: (Books, Outcome)) {
    && (here.1.Done? <==> there.1.Done?) && (here.1.Failed? ==> there.1 == here.1)
    && there.0.accounts == here.0.accounts && there.0.counters == here.0.counters
  }

  lemma CommitIgnoresRows(b: Books, entries: seq<Entry>, d: EntryDraft, rate: int, yearClosed: bool)
    requires d.journal in b.journals
    ensures SameResult(Commit(b, d, rate, yearClosed), Commit(b.(entries := entries), d, rate, yearClosed))
  {
    assert NewEntry(b.(entries := entries), d, rate) == NewEntry(b, d, rate);
  }

  /** Posting under an unspent key reads nothing of the rows. */
  lemma RowsAreIdle(b: Books, entries: seq<Entry>, d: EntryDraft, onFile: Option<int>)
    requires d.key == NoKey || (FindKey(b.entries, d.key).None? && FindKey(entries, d.key).None?)
    ensures SameResult(Post(b, d, onFile), Post(b.(entries := entries), d, onFile))
  {
    ValidateIgnoresRows(b, entries, d);
    if Validate(b, d).None? && d.journal in b.journals {
      var period, rate := FindPeriod(b.periods, d.date.day), ResolveRate(b, d.currency, d.rate, onFile);
      if period.Some? && rate.Some? {
        CommitIgnoresRows(b, entries, d, rate.value, period.value.yearClosed);
      }
    }
  }

  /** A draft row in the books does not change how another draft is posted. */
  lemma DraftRowIsIdle(b: Books, saved: EntryDraft, d: EntryDraft, onFile: Option<int>)
    requires Unspent(b.entries, d.key) && CanSave(b, saved)
    ensures SameResult(Post(b, d, onFile), Post(Apply(b, AddDraft(saved)), d, onFile))
  {
    UnspentIff(b.entries, d.key);
    if d.key != NoKey {
      FindKeySnoc(b.entries, StoredDraft(saved), d.key);
    }
    RowsAreIdle(b, b.entries + [StoredDraft(saved)], d, onFile);
  }

  /** Retiring the draft after a posting is never refused: the period was open a moment ago. */
  lemma RetiringIsSilent(b: Books, id: nat, clientKey: Key, onFile: Option<int>)
    requires id < |b.entries| && b.entries[id].status == Draft && |b.entries[id].lines| >= 2
    requires Unspent(b.entries, KeyFor(id, clientKey))
    ensures SameResult(Post(b, FromStored(b.entries[id], KeyFor(id, clientKey)), onFile),
                       PostDraft(b, id, clientKey, onFile))
  {
    var d := FromStored(b.entries[id], KeyFor(id, clientKey));
    PostKeepsRows(b, d, onFile);
    var posted := Post(b, d, onFile).0;
    assert posted.entries[id] == posted.entries[..|b.entries|][id] == b.entries[id];
    if Post(b, d, onFile).1.Done? {
      UnspentIff(b.entries, d.key);
      assert FindPeriod(b.periods, d.date.day).value.status == PeriodStatus.Open;
    }
  }

  lemma OneLineIsRefused(b: Books, d: EntryDraft, onFile: Option<int>)
    requires |d.lines| < 2
    ensures Post(b, d, onFile).1.Failed?
  {
    assert !Sendable(b, d);
    SendableIsValid(b, d);
  }

  lemma UnsavableIsRefused(b: Books, d: EntryDraft, onFile: Option<int>)
    requires !CanSave(b, d) && Unspent(b.entries, d.key)
    ensures Post(b, d, onFile).1.Failed?
  {
    SendableIsValid(b, d);
    UnspentIff(b.entries, d.key);
    if Sendable(b, d) {
      forall i | 0 <= i < |d.lines| ensures LineOk(d.lines[i]) && d.lines[i].account < |b.accounts| {}
    }
  }

  lemma SameResultTwice(a: (Books, Outcome), b: (Books, Outcome), c: (Books, Outcome))
    requires SameResult(a, b) && SameResult(b, c)
    ensures SameResult(a, c)
  {}

  lemma SavedRow(b: Books, d: EntryDraft)
    requires CanSave(b, d)
    ensures var entries := Apply(b, AddDraft(d)).entries;
            |entries| == |b.entries| + 1 && entries[|b.entries|] == StoredDraft(d)
    ensures forall key :: key != NoKey && Unspent(b.entries, key) ==> Unspent(Apply(b, AddDraft(d)).entries, key)
  {}

  lemma SavedThenPosted(b: Books, d: EntryDraft, clientKey: Key, onFile: Option<int>)
    requires Unspent(b.entries, KeyFor(|b.entries|, clientKey)) && CanSave(b, d) && |d.lines| >= 2
    ensures SameResult(Post(b, d.(key := KeyFor(|b.entries|, clientKey)), onFile),
                       PostDraft(Apply(b, AddDraft(d)), |b.entries|, clientKey, onFile))
  {
    var b1, n, direct := Apply(b, AddDraft(d)), |b.entries|, d.(key := KeyFor(|b.entries|, clientKey));
    SavedRow(b, d);
    SavedDraftComesBack(d, direct.key);
    DraftRowIsIdle(b, d, direct, onFile);
    RetiringIsSilent(b1, n, clientKey, onFile);
    SameResultTwice(Post(b, direct, onFile), Post(b1, direct, onFile), PostDraft(b1, n, clientKey, onFile));
  }

  lemma SavedAloneIsRefused(b: Books, d: EntryDraft, clientKey: Key, onFile: Option<int>)
    requires |d.lines| < 2 || !CanSave(b, d)
    ensures PostDraft(Apply(b, AddDraft(d)), |b.entries|, clientKey, onFile).1.Failed?
  {}

  /** Saving a draft and posting it later under an unused key comes to posting it at once:
      the same refusals, balances and numbers. What cannot be saved, and a single line, is
      refused either way. */
  lemma SavingFirstChangesNothing(b: Books, d: EntryDraft, clientKey: Key, onFile: Option<int>)
    requires Unspent(b.entries, KeyFor(|b.entries|, clientKey))
    ensures var direct := d.(key := KeyFor(|b.entries|, clientKey));
            var atOnce := Post(b, direct, onFile);
            var later := PostDraft(Apply(b, AddDraft(d)), |b.entries|, clientKey, onFile);
            if |d.lines| < 2 || !CanSave(b, d) then atOnce.1.Failed? && later.1.Failed? else SameResult(atOnce, later)
  {
    var direct := d.(key := KeyFor(|b.entries|, clientKey));
    if |d.lines| < 2 || !CanSave(b, d) {
      SavedAloneIsRefused(b, d, clientKey, onFile);
      if |d.lines| < 2 {
        OneLineIsRefused(b, direct, onFile);
      } else {
        UnsavableIsRefused(b, direct, onFile);
      }
    } else {
      SavedThenPosted(b, d, clientKey, onFile);
    }
  }

  /** And the posted row carries the lines submitted, sides included. */
  lemma SavedDraftPostsWhatWasSent(b: Books, d: EntryDraft, clientKey: Key, onFile: Option<int>)
    requires |PostDraft(Apply(b, AddDraft(d)), |b.entries|, clientKey, onFile).0.entries| > |b.entries| + 1
    ensures var after, n, unit := PostDraft(Apply(b, AddDraft(d)), |b.entries|, clientKey, onFile).0, |b.entries| + 1,
                                  MinorUnit(d.currency);
            && after.entries[n].date == d.date && after.entries[n].journal == d.journal
            && after.entries[n].currency == d.currency && |after.entries[n].lines| == |d.lines|
            && forall i :: 0 <= i < |d.lines| ==>
                 var l := after.entries[n].lines[i];
                 l.account == d.lines[i].account && l.debit == Quantize(d.lines[i].debit, unit)
                 && l.credit == Quantize(d.lines[i].credit, unit)
  {
    if !CanSave(b, d) {
      SavedAloneIsRefused(b, d, clientKey, onFile);
    } else {
      SavedRow(b, d);
      DraftPostsItsLines(Apply(b, AddDraft(d)), |b.entries|, clientKey, onFile);
    }
  }
}
