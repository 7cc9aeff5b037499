/** Corrections, the trial balance, and exactly where the ledger's own documentation
    promises more than the code delivers. */
module LedgerLaws {
  import opened Money
  import opened Sums
  import opened Ledger
  import opened LedgerInvariants
  import Scaled

  // ----- void -----

  /** Posting and then voiding puts every account back and keeps the number. */
  lemma PostThenVoidRestores(b: Books, d: EntryDraft, onFile: Option<int>)
    requires var (b1, o) := Post(b, d, onFile); o == Done(|b.entries|)
    ensures var (b2, o2) := Void(Post(b, d, onFile).0, |b.entries|, true);
            && o2 == Done(|b.entries|)
            && b2.accounts == b.accounts
            && b2.entries[|b.entries|].status == Voided
            && b2.entries[|b.entries|].number == Post(b, d, onFile).0.entries[|b.entries|].number
            && b2.counters == Post(b, d, onFile).0.counters
  {
    var b1 := Post(b, d, onFile).0;
    var e := b1.entries[|b.entries|];
    assert e.status == Posted && b1.accounts == Applied(b.accounts, e.lines, 1);
    var b2 := Void(b1, |b.entries|, true).0;
    forall a | 0 <= a < |b.accounts| ensures b2.accounts[a] == b.accounts[a] {}
  }

  /** The balance an account would have without entry `id`. */
  function Without(b: Books, id: nat, account: nat): int
    requires id < |b.entries| && account < |b.accounts|
  {
    b.accounts[account].balance - Signed(b.accounts[account].increasesOnDebit, Net(b.entries[id].lines, account))
  }

  /** Whenever it happens, voiding leaves every account as without the entry, or where it
      stood if the entry was still a draft. */
  lemma VoidNetsOut(b: Books, id: nat, reasonGiven: bool, account: nat)
    requires Void(b, id, reasonGiven).1.Done? && account < |b.accounts|
    ensures id < |b.entries| && |Void(b, id, reasonGiven).0.accounts| == |b.accounts|
    ensures Void(b, id, reasonGiven).0.accounts[account].balance
         == if b.entries[id].status == Posted then Without(b, id, account) else b.accounts[account].balance
    ensures Void(b, id, reasonGiven).0.entries[id].status == Voided
    ensures Void(b, id, reasonGiven).0.entries[id].number == b.entries[id].number
  {}

  /** The books never held it: a void, however late, leaves the balances of the other
      live entries. */
  lemma VoidForgetsTheEntry(b: Books, id: nat, reasonGiven: bool, account: nat)
    requires Inv(b) && Void(b, id, reasonGiven).1.Done? && account < |b.accounts|
    ensures var after := Void(b, id, reasonGiven).0;
            && |after.accounts| == |b.accounts| && id < |after.entries|
            && after.accounts[account].balance
               == Signed(b.accounts[account].increasesOnDebit, NetOver(after.entries[..id], LIVE, account)
                                                              + NetOver(after.entries[id + 1..], LIVE, account))
  {
    VoidKeepsInv(b, id, reasonGiven);
    var after := Void(b, id, reasonGiven).0;
    assert after.entries == after.entries[..id] + [after.entries[id]] + after.entries[id + 1..];
    NetOverSnoc(after.entries[..id], after.entries[id], LIVE, account);
    NetOverAppend(after.entries[..id + 1], after.entries[id + 1..], account);
    assert after.entries[..id + 1] == after.entries[..id] + [after.entries[id]];
    assert after.entries[..id + 1] + after.entries[id + 1..] == after.entries;
  }

  lemma NetOverAppend(x: seq<Entry>, y: seq<Entry>, account: nat)
    ensures NetOver(x + y, LIVE, account) == NetOver(x, LIVE, account) + NetOver(y, LIVE, account)
  {
    assert NetColumn(x + y, LIVE, account) == NetColumn(x, LIVE, account) + NetColumn(y, LIVE, account);
    SumAppend(NetColumn(x, LIVE, account), NetColumn(y, LIVE, account));
  }

  // ----- reverse -----

  lemma MirrorColumns(e: Entry, id: nat, on: Date)
    ensures DraftDebits(Mirror(e, id, on).lines) == Credits(e.lines)
    ensures DraftCredits(Mirror(e, id, on).lines) == Debits(e.lines)
  {}

  lemma NetOfSwapped(lines: seq<Line>, swapped: seq<Line>, account: nat)
    requires |swapped| == |lines|
    requires forall i :: 0 <= i < |lines| ==>
               swapped[i].account == lines[i].account && swapped[i].debit == lines[i].credit
               && swapped[i].credit == lines[i].debit
    ensures Net(swapped, account) == -Net(lines, account)
  {
    var a := seq(|lines|, i requires 0 <= i < |lines| =>
      if lines[i].account == account then lines[i].debit - lines[i].credit else 0);
    var b := seq(|swapped|, i requires 0 <= i < |swapped| =>
      if swapped[i].account == account then swapped[i].debit - swapped[i].credit else 0);
    var zeros := seq(|lines|, i => 0);
    SumLinear(b, -1, a, zeros);
    SumZero(zeros);
  }

  /** The mirror row carries exactly the original lines with the sides swapped. */
  lemma MirrorSwapsSides(b: Books, id: nat, on: Date, rate: int)
    requires Inv(b) && id < |b.entries| && b.entries[id].status == Posted
    requires b.entries[id].journal in b.journals
    ensures var e, m := b.entries[id], NewEntry(b, Mirror(b.entries[id], id, on), rate);
            && |m.lines| == |e.lines| && m.totalDebit == e.totalDebit == m.totalCredit
            && forall i :: 0 <= i < |e.lines| ==>
                 m.lines[i].account == e.lines[i].account && m.lines[i].debit == e.lines[i].credit
                 && m.lines[i].credit == e.lines[i].debit
  {
    var e := b.entries[id];
    var unit := MinorUnit(e.currency);
    assert RowOk(b.base, |b.accounts|, e);
    MirrorColumns(e, id, on);
    WholeColumn(Debits(e.lines), unit);
    QuantizeFixesWholeUnits(e.totalDebit, unit);
    forall i | 0 <= i < |e.lines|
      ensures Quantize(e.lines[i].debit, unit) == e.lines[i].debit
              && Quantize(e.lines[i].credit, unit) == e.lines[i].credit
    {
      assert LineStands(|b.accounts|, e.lines[i], unit);
      QuantizeFixesWholeUnits(e.lines[i].debit, unit);
      QuantizeFixesWholeUnits(e.lines[i].credit, unit);
    }
  }

  lemma {:induction false} WholeColumn(s: seq<int>, unit: int)
    requires unit > 0 && forall i :: 0 <= i < |s| ==> s[i] % unit == 0
    ensures Sum(s) % unit == 0
  {
    if |s| > 0 {
      var n := |s| - 1;
      WholeColumn(s[..n], unit);
      Scaled.WholeSum(Sum(s[..n]), s[n], unit);
    }
  }

  predicate ArithmeticError(e: Error) {
    e in {BadLine, TooFewLines, Unbalanced, ZeroAmount, BadRate, NoSuchAccount, LineVanishes, LinesDisagree}
  }

  /** The mirror of a standing entry passes every check on amounts made before writing. */
  lemma MirrorIsValid(b: Books, id: nat, on: Date)
    requires Inv(b) && id < |b.entries| && b.entries[id].status == Posted
    ensures Validate(b, Mirror(b.entries[id], id, on)) in {None, Some(AccountRefused)}
  {
    var e := b.entries[id];
    var d, unit := Mirror(e, id, on), MinorUnit(e.currency);
    assert RowOk(b.base, |b.accounts|, e);
    MirrorColumns(e, id, on);
    WholeColumn(Debits(e.lines), unit);
    QuantizeFixesWholeUnits(e.totalDebit, unit);
    forall i | 0 <= i < |d.lines| ensures LineOk(d.lines[i]) && d.lines[i].account < |b.accounts| {
      assert LineStands(|b.accounts|, e.lines[i], unit);
    }
  }

  /** And what is written passes the checks of the database. */
  lemma MirrorIsCommitted(b: Books, id: nat, on: Date, rate: int, yearClosed: bool)
    requires Inv(b) && id < |b.entries| && b.entries[id].status == Posted && b.entries[id].journal in b.journals
    ensures Commit(b, Mirror(b.entries[id], id, on), rate, yearClosed).1 in {Done(|b.entries|), Failed(PeriodLocked)}
  {
    var e, m := b.entries[id], NewEntry(b, Mirror(b.entries[id], id, on), rate);
    assert RowOk(b.base, |b.accounts|, e);
    MirrorSwapsSides(b, id, on, rate);
    assert Debits(m.lines) == Credits(e.lines) && Credits(m.lines) == Debits(e.lines);
    forall i | 0 <= i < |m.lines| ensures SingleSided(m.lines[i]) {
      assert LineStands(|b.accounts|, e.lines[i], MinorUnit(e.currency));
    }
  }

  /** What can refuse a valid draft: its surroundings, or the database at commit. */
  lemma FailedPosting(b: Books, d: EntryDraft, onFile: Option<int>)
    requires Validate(b, d).None?
    ensures var o := Post(b, d, onFile).1;
            o.Failed? ==> o.error in {NoPeriod, PeriodNotOpen, NoSuchJournal, NoRate}
                          || (d.journal in b.journals
                              && exists rate, yearClosed :: o == Commit(b, d, rate, yearClosed).1)
  {}

  lemma MirrorFailsOnlyOutside(b: Books, id: nat, on: Date, onFile: Option<int>)
    requires Inv(b) && id < |b.entries| && b.entries[id].status == Posted
    ensures var o := Post(b, Mirror(b.entries[id], id, on), onFile).1; o.Failed? ==> !ArithmeticError(o.error)
  {
    var d := Mirror(b.entries[id], id, on);
    MirrorIsValid(b, id, on);
    if Validate(b, d).None? {
      FailedPosting(b, d, onFile);
      if d.journal in b.journals {
        forall rate, yearClosed ensures Commit(b, d, rate, yearClosed).1 in {Done(|b.entries|), Failed(PeriodLocked)} {
          MirrorIsCommitted(b, id, on, rate, yearClosed);
        }
      }
    }
  }

  /** A posted entry can always be mirrored as far as the amounts go: only a closed
      period, a refused account, a journal or a rate can stand in the way. */
  lemma ReversalNeverFailsOnAmounts(b: Books, id: nat, on: Date, onFile: Option<int>)
    requires Inv(b) && id < |b.entries| && b.entries[id].status == Posted
    ensures Reverse(b, id, on, onFile).1.Failed? ==> !ArithmeticError(Reverse(b, id, on, onFile).1.error)
  {
    MirrorFailsOnlyOutside(b, id, on, onFile);
  }

  /** A reversal's balances are those of posting its mirror. */
  lemma ReversePostsMirror(b: Books, id: nat, on: Date, onFile: Option<int>)
    requires Reverse(b, id, on, onFile).1.Done?
    ensures id < |b.entries| && b.entries[id].status == Posted
    ensures Post(b, Mirror(b.entries[id], id, on), onFile).1.Done?
    ensures Reverse(b, id, on, onFile).0.accounts == Post(b, Mirror(b.entries[id], id, on), onFile).0.accounts
    ensures id < |Reverse(b, id, on, onFile).0.entries| && Reverse(b, id, on, onFile).0.entries[id].status == Reversed
  {
    PostKeepsRows(b, Mirror(b.entries[id], id, on), onFile);
  }

  lemma MirrorNetsOutIff(b: Books, id: nat, on: Date, onFile: Option<int>, account: nat)
    requires Inv(b) && id < |b.entries| && b.entries[id].status == Posted && account < |b.accounts|
    requires Post(b, Mirror(b.entries[id], id, on), onFile).1.Done?
    ensures account < |Post(b, Mirror(b.entries[id], id, on), onFile).0.accounts|
    ensures Post(b, Mirror(b.entries[id], id, on), onFile).0.accounts[account].balance == Without(b, id, account) <==>
            (FindKey(b.entries, ReversalKey(id)).None? || Net(b.entries[id].lines, account) == 0)
  {
    var e, d := b.entries[id], Mirror(b.entries[id], id, on);
    PostKeepsRows(b, d, onFile);
    if FindKey(b.entries, ReversalKey(id)).None? {
      NewEntryStands(b, d, onFile);
      var rate := ResolveRate(b, d.currency, d.rate, onFile).value;
      MirrorSwapsSides(b, id, on, rate);
      NetOfSwapped(e.lines, NewEntry(b, d, rate).lines, account);
    } else {
      assert Post(b, d, onFile).0 == b;
    }
  }

  /** A successful reversal nets the entry out of every account exactly when its
      derived key was still unused, or the entry never moved that account. */
  lemma ReverseNetsOutIff(b: Books, id: nat, on: Date, onFile: Option<int>, account: nat)
    requires Inv(b) && Reverse(b, id, on, onFile).1.Done? && account < |b.accounts|
    ensures id < |b.entries| && account < |Reverse(b, id, on, onFile).0.accounts|
    ensures Reverse(b, id, on, onFile).0.accounts[account].balance == Without(b, id, account) <==>
            (FindKey(b.entries, ReversalKey(id)).None? || Net(b.entries[id].lines, account) == 0)
  {
    ReversePostsMirror(b, id, on, onFile);
    MirrorNetsOutIff(b, id, on, onFile, account);
  }

  /** A client may spend a reversal key first; reversing then moves no balance. */
  lemma TakenReversalKeyMovesNothing(b: Books, id: nat, on: Date, onFile: Option<int>)
    requires Inv(b) && Reverse(b, id, on, onFile).1.Done? && FindKey(b.entries, ReversalKey(id)).Some?
    ensures Reverse(b, id, on, onFile).0.accounts == b.accounts
    ensures |Reverse(b, id, on, onFile).0.entries| == |b.entries|
  {}

  /** The key a stored draft is posted under. */
  function KeyFor(id: nat, clientKey: Key): Key { if clientKey == NoKey then DraftKey(id) else clientKey }

  /** Posting a stored draft retires it either way, but writes a posting exactly when its
      key was unused; under a spent key the draft is voided and nothing stands for it. */
  lemma DraftIsPostedIff(b: Books, id: nat, clientKey: Key, onFile: Option<int>)
    requires PostDraft(b, id, clientKey, onFile).1.Done?
    ensures var (after, o) := PostDraft(b, id, clientKey, onFile);
            && id < |b.entries| && id < |after.entries| && after.entries[id].status == Voided
            && (|after.entries| == |b.entries| + 1 <==> FindKey(b.entries, KeyFor(id, clientKey)).None?)
            && (FindKey(b.entries, KeyFor(id, clientKey)).Some? ==>
                  after.accounts == b.accounts && |after.entries| == |b.entries|
                  && Some(o.id) == FindKey(b.entries, KeyFor(id, clientKey)))
  {
    var d := FromStored(b.entries[id], KeyFor(id, clientKey));
    PostKeepsRows(b, d, onFile);
    assert Post(b, d, onFile).0.entries[id] == Post(b, d, onFile).0.entries[..|b.entries|][id];
  }

  // ----- retries -----

  /** A second posting under a key already used answers with the first entry and
      writes nothing. */
  lemma RepostIsANoOp(b: Books, d: EntryDraft, onFile: Option<int>, again: EntryDraft, onFile2: Option<int>)
    requires Inv(b) && Post(b, d, onFile).1.Done? && d.key != NoKey && again.key == d.key
    requires Validate(Post(b, d, onFile).0, again).None?
    ensures Post(Post(b, d, onFile).0, again, onFile2) == (Post(b, d, onFile).0, Post(b, d, onFile).1)
  {
    var (b1, o) := Post(b, d, onFile);
    PostKeepsInv(b, d, onFile);
    PostAnswersUnderItsKey(b, d, onFile);
    HolderIsFound(b1.entries, o.id);
  }

  lemma HolderIsFound(entries: seq<Entry>, i: nat)
    requires KeysUnique(entries) && i < |entries| && entries[i].key != NoKey
    ensures FindKey(entries, entries[i].key) == Some(i)
  {
    var found := FindKey(entries, entries[i].key);
    assert found.Some? && entries[found.value].key == entries[i].key;
  }

  // ----- the account ledger reads POSTED entries only -----

  lemma NetSplitsByStatus(entries: seq<Entry>, account: nat)
    ensures NetOver(entries, LIVE, account) == NetOver(entries, {Posted}, account)
            + NetOver(entries, {Reversed}, account)
  {
    SumLinear(NetColumn(entries, LIVE, account), 1,
              NetColumn(entries, {Posted}, account), NetColumn(entries, {Reversed}, account));
  }

  /** What the POSTED-only ledger says an account's balance is. */
  function PostedOnly(b: Books, account: nat): int
    requires account < |b.accounts|
  {
    Signed(b.accounts[account].increasesOnDebit, NetOver(b.entries, {Posted}, account))
  }

  /** The POSTED-only sum differs from cached_balance by exactly the reversed
      originals, so the two agree exactly when those net to zero. */
  lemma PostedOnlyGap(b: Books, account: nat)
    requires Inv(b) && account < |b.accounts|
    ensures b.accounts[account].balance - PostedOnly(b, account)
         == Signed(b.accounts[account].increasesOnDebit, NetOver(b.entries, {Reversed}, account))
    ensures PostedOnly(b, account) == b.accounts[account].balance <==> NetOver(b.entries, {Reversed}, account) == 0
  {
    NetSplitsByStatus(b.entries, account);
  }

  /** Changing an account's normal side afterwards, which the update endpoint
      accepts, keeps the cache exact only at a zero balance. */
  lemma SideEditKeepsCacheIff(b: Books, account: nat)
    requires Inv(b) && account < |b.accounts|
    ensures var x := b.accounts[account];
            CacheIsExact(b.(accounts := b.accounts[account := x.(increasesOnDebit := !x.increasesOnDebit)]))
            <==> x.balance == 0
  {
    var x := b.accounts[account];
    var b' := b.(accounts := b.accounts[account := x.(increasesOnDebit := !x.increasesOnDebit)]);
    if CacheIsExact(b') {
      assert b'.accounts[account].balance == Signed(!x.increasesOnDebit, NetOver(b.entries, LIVE, account));
    }
  }

  // ----- trial balance over the cached balances -----

  /** Entry i holds account i's net debit as its cached balance reports it. */
  function NetBalances(b: Books): (s: seq<int>)
    ensures |s| == |b.accounts|
  {
    seq(|b.accounts|, a requires 0 <= a < |b.accounts| => Signed(b.accounts[a].increasesOnDebit, b.accounts[a].balance))
  }

  function NetPerAccount(lines: seq<Line>, n: nat): (s: seq<int>)
    ensures |s| == n
  {
    seq(n, a requires 0 <= a < n => Net(lines, a))
  }

  lemma NetSnoc(lines: seq<Line>, l: Line, account: nat)
    ensures Net(lines + [l], account) == Net(lines, account) + if l.account == account then l.debit - l.credit else 0
  {
    var c := seq(|lines|, i requires 0 <= i < |lines| =>
      if lines[i].account == account then lines[i].debit - lines[i].credit else 0);
    var x := if l.account == account then l.debit - l.credit else 0;
    assert seq(|lines + [l]|, i requires 0 <= i < |lines + [l]| =>
      if (lines + [l])[i].account == account then (lines + [l])[i].debit - (lines + [l])[i].credit else 0) == c + [x];
    SumSnoc(c, x);
  }

  /** Adding up an entry over accounts is adding it up over lines. */
  lemma {:induction false} NetOverAllAccounts(lines: seq<Line>, n: nat)
    requires forall i :: 0 <= i < |lines| ==> lines[i].account < n
    ensures Sum(NetPerAccount(lines, n)) == Sum(Debits(lines)) - Sum(Credits(lines))
  {
    if |lines| == 0 {
      forall a | 0 <= a < n ensures NetPerAccount(lines, n)[a] == 0 {
        Untouched(lines, a);
      }
      SumZero(NetPerAccount(lines, n));
    } else {
      var front, l := lines[..|lines| - 1], lines[|lines| - 1];
      assert lines == front + [l];
      NetOverAllAccounts(front, n);
      NetsOneMore(front, l, n);
      TotalsOneMore(front, l);
    }
  }

  lemma TotalsOneMore(front: seq<Line>, l: Line)
    ensures Sum(Debits(front + [l])) == Sum(Debits(front)) + l.debit
    ensures Sum(Credits(front + [l])) == Sum(Credits(front)) + l.credit
  {
    assert Debits(front + [l]) == Debits(front) + [l.debit] && Credits(front + [l]) == Credits(front) + [l.credit];
    SumSnoc(Debits(front), l.debit);
    SumSnoc(Credits(front), l.credit);
  }

  lemma NetsOneMore(front: seq<Line>, l: Line, n: nat)
    requires l.account < n
    ensures Sum(NetPerAccount(front + [l], n)) == Sum(NetPerAccount(front, n)) + (l.debit - l.credit)
  {
    var before, after := NetPerAccount(front, n), NetPerAccount(front + [l], n);
    forall a | 0 <= a < n ensures after[a] == before[a] + if a == l.account then l.debit - l.credit else 0 {
      NetSnoc(front, l, a);
    }
    assert after == before[l.account := before[l.account] + (l.debit - l.credit)];
    SumUpdate(before, l.account, before[l.account] + (l.debit - l.credit));
  }

  function NetsByAccount(entries: seq<Entry>, n: nat): (s: seq<int>)
    ensures |s| == n
  {
    seq(n, a requires 0 <= a < n => NetOver(entries, LIVE, a))
  }

  lemma NetsSnoc(front: seq<Entry>, e: Entry, n: nat)
    ensures Sum(NetsByAccount(front + [e], n))
         == Sum(NetsByAccount(front, n)) + if e.status in LIVE then Sum(NetPerAccount(e.lines, n)) else 0
  {
    var total, before := NetsByAccount(front + [e], n), NetsByAccount(front, n);
    var own := if e.status in LIVE then NetPerAccount(e.lines, n) else seq(n, a => 0);
    forall a | 0 <= a < n ensures total[a] == 1 * before[a] + own[a] {
      NetOverSnoc(front, e, LIVE, a);
    }
    SumLinear(total, 1, before, own);
    if e.status !in LIVE {
      SumZero(own);
    }
  }

  lemma StandingLinesCancel(base: string, n: nat, e: Entry)
    requires WellPosted(base, n, e)
    ensures Sum(NetPerAccount(e.lines, n)) == 0
  {
    forall i | 0 <= i < |e.lines| ensures e.lines[i].account < n {
      assert LineStands(n, e.lines[i], MinorUnit(e.currency));
    }
    NetOverAllAccounts(e.lines, n);
  }

  lemma {:induction false} LiveNetsCancel(base: string, n: nat, entries: seq<Entry>)
    requires forall i :: 0 <= i < |entries| ==> RowOk(base, n, entries[i])
    ensures Sum(NetsByAccount(entries, n)) == 0
  {
    if |entries| == 0 {
      forall a | 0 <= a < n ensures NetsByAccount(entries, n)[a] == 0 {}
      SumZero(NetsByAccount(entries, n));
    } else {
      var front, e := entries[..|entries| - 1], entries[|entries| - 1];
      LiveNetsCancel(base, n, front);
      NetsSnoc(front, e, n);
      assert entries == front + [e];
      assert RowOk(base, n, e);
      if e.status in LIVE {
        StandingLinesCancel(base, n, e);
      }
    }
  }

  lemma BalancesCancel(b: Books)
    requires Inv(b)
    ensures Sum(NetBalances(b)) == 0
  {
    var nets := NetsByAccount(b.entries, |b.accounts|);
    LiveNetsCancel(b.base, |b.accounts|, b.entries);
    forall a | 0 <= a < |b.accounts| ensures NetBalances(b)[a] == nets[a] {}
    assert NetBalances(b) == nets;
  }

  /** On every run the cached balances themselves form a balanced trial balance:
      debit-side balances equal credit-side balances. */
  lemma TrialBalanceHolds(base: string, journals: map<string, Journal>, ops: seq<Op>)
    ensures Sum(NetBalances(Run(EmptyBooks(base, journals), ops))) == 0
  {
    RunKeepsInv(base, journals, ops);
    BalancesCancel(Run(EmptyBooks(base, journals), ops));
  }

  // ----- when is a draft accepted -----

  /** Acceptance compares at currency precision: the raw totals differ by less than
      one minor unit and both round to the same positive amount. */
  lemma AcceptedTotalsAreClose(b: Books, d: EntryDraft)
    requires Validate(b, d).None?
    ensures var unit, debit, credit := MinorUnit(d.currency), Sum(DraftDebits(d.lines)), Sum(DraftCredits(d.lines));
            && Abs(debit - credit) < unit
            && Quantize(debit, unit) == Quantize(credit, unit) > 0
  {
    var unit, debit, credit := MinorUnit(d.currency), Sum(DraftDebits(d.lines)), Sum(DraftCredits(d.lines));
    RoundHalfUpIsNearest(debit, unit, RoundHalfUp(debit, unit));
    RoundHalfUpIsNearest(credit, unit, RoundHalfUp(credit, unit));
  }

  ghost predicate Precise(d: EntryDraft) {
    forall i :: 0 <= i < |d.lines| ==>
      d.lines[i].debit % MinorUnit(d.currency) == 0 && d.lines[i].credit % MinorUnit(d.currency) == 0
  }

  /** With every line at currency precision the two amount checks together accept
      exactly the balanced non-zero drafts. */
  lemma PreciseAcceptanceIsBalance(b: Books, d: EntryDraft)
    requires Precise(d) && |d.lines| >= 2 && forall i :: 0 <= i < |d.lines| ==> LineOk(d.lines[i])
    ensures Validate(b, d) !in {Some(Unbalanced), Some(ZeroAmount)} <==>
            Sum(DraftDebits(d.lines)) == Sum(DraftCredits(d.lines)) > 0
  {
    var unit, debit, credit := MinorUnit(d.currency), Sum(DraftDebits(d.lines)), Sum(DraftCredits(d.lines));
    WholeColumn(DraftDebits(d.lines), unit);
    WholeColumn(DraftCredits(d.lines), unit);
    QuantizeFixesWholeUnits(debit, unit);
    QuantizeFixesWholeUnits(credit, unit);
  }
}
