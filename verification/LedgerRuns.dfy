/** Runs from empty books on which the ledger keeps less than it is said to. */
module LedgerRuns {
  import opened Money
  import opened Sums
  import opened Ledger
  import opened LedgerInvariants
  import opened LedgerLaws
  import opened LedgerBase
  import LedgerPages

  const EMPTY := EmptyBooks("EGP", GENERAL)

  /** 0.01 from one account to the other. */
  function Plain(flip: bool, key: Key): EntryDraft {
    EntryDraft("GEN", DAY, "EGP",
      if flip then [LineDraft(0, 0, 10_000), LineDraft(1, 10_000, 0)]
      else [LineDraft(0, 10_000, 0), LineDraft(1, 0, 10_000)],
      MICROS, key)
  }

  function PlainLines(flip: bool): seq<Line> {
    if flip then [Line(0, 0, 10_000, 0, 10_000), Line(1, 10_000, 0, 10_000, 0)]
    else [Line(0, 10_000, 0, 10_000, 0), Line(1, 0, 10_000, 0, 10_000)]
  }

  predicate Open(b: Books) {
    && b.base == "EGP" && |b.accounts| == 2 && b.journals == GENERAL
    && b.periods == [Period(1, 31, PeriodStatus.Open, false)]
    && b.accounts[0].postable && b.accounts[0].active && b.accounts[1].postable && b.accounts[1].active
    && b.accounts[0].increasesOnDebit
  }

  lemma SumOfTwo(a: int, b: int)
    ensures Sum([a, b]) == a + b
  {
    SumSnoc([a], b);
    SumSnoc([], a);
    assert [a] + [b] == [a, b] && [] + [a] == [a];
  }

  lemma PlainTotals(flip: bool, key: Key)
    ensures var d := Plain(flip, key); Sum(DraftDebits(d.lines)) == 10_000 == Sum(DraftCredits(d.lines))
    ensures Sum(Debits(PlainLines(flip))) == 10_000 == Sum(Credits(PlainLines(flip)))
    ensures Net(PlainLines(flip), 0) == if flip then -10_000 else 10_000
  {
    var d := Plain(flip, key);
    SumOfTwo(10_000, 0);
    SumOfTwo(0, 10_000);
    var first, second := if flip then [0, 10_000] else [10_000, 0], if flip then [10_000, 0] else [0, 10_000];
    assert DraftDebits(d.lines) == first && DraftCredits(d.lines) == second;
    assert Debits(PlainLines(flip)) == first && Credits(PlainLines(flip)) == second;
    assert Net([], 0) == 0;
    NetSnoc([], PlainLines(flip)[0], 0);
    NetSnoc([PlainLines(flip)[0]], PlainLines(flip)[1], 0);
    assert [] + [PlainLines(flip)[0]] == [PlainLines(flip)[0]];
    assert [PlainLines(flip)[0]] + [PlainLines(flip)[1]] == PlainLines(flip);
  }

  lemma PlainIsValid(b: Books, flip: bool, key: Key)
    requires Open(b)
    ensures Validate(b, Plain(flip, key)).None?
  {
    TwoDecimals();
    PlainTotals(flip, key);
    assert forall i :: 0 <= i < 2 ==> LineOk(Plain(flip, key).lines[i]);
  }

  lemma PlainRow(b: Books, flip: bool, key: Key)
    requires Open(b)
    ensures var e := NewEntry(b, Plain(flip, key), MICROS);
            && e.lines == PlainLines(flip) && e.totalDebit == 10_000 == e.totalCredit && e.status == Posted
            && e.journal == "GEN" && e.currency == "EGP" && e.rate == MICROS && e.key == key && e.reversalOf == None
  {
    TwoDecimals();
    PlainTotals(flip, key);
  }

  /** In open books the draft posts, under any key not yet used. */
  lemma PlainPosts(b: Books, flip: bool, key: Key)
    requires Open(b) && (key == NoKey || FindKey(b.entries, key).None?)
    ensures Post(b, Plain(flip, key), None) == (Recorded(b, Plain(flip, key), MICROS), Done(|b.entries|))
    ensures Open(Recorded(b, Plain(flip, key), MICROS))
  {
    PlainIsValid(b, flip, key);
    PlainRow(b, flip, key);
    PlainTotals(flip, key);
    assert FindPeriod(b.periods, 15) == Some(Period(1, 31, PeriodStatus.Open, false));
  }

  lemma MirrorIsPlain(b: Books, e: Entry, id: nat)
    requires e.lines == PlainLines(false) && e.journal == "GEN" && e.currency == "EGP" && e.rate == MICROS
    ensures Mirror(e, id, DAY) == Plain(true, ReversalKey(id))
  {
    assert Mirror(e, id, DAY).lines == Plain(true, ReversalKey(id)).lines;
  }

  // ----- the runs -----

  const POSTED: seq<Op> := READY + [DoPost(Plain(false, NoKey), None)]
  const REVERSED: seq<Op> := POSTED + [DoReverse(0, DAY, None)]
  const SPENT: seq<Op> := POSTED + [DoPost(Plain(false, ReversalKey(0)), None)]
  const SPENT_THEN_REVERSED: seq<Op> := SPENT + [DoReverse(0, DAY, None)]

  lemma OneMore(b: Books, ops: seq<Op>, op: Op)
    ensures Run(b, ops + [op]) == Apply(Run(b, ops), op)
  {
    assert (ops + [op])[..|ops|] == ops;
  }

  function AfterOne(): Books { Recorded(ReadyBooks("EGP"), Plain(false, NoKey), MICROS) }

  lemma PostedRun()
    ensures Run(EMPTY, POSTED) == AfterOne() && Open(AfterOne()) && Inv(AfterOne())
    ensures |AfterOne().entries| == 1
            && AfterOne().entries[0] == NewEntry(ReadyBooks("EGP"), Plain(false, NoKey), MICROS)
    ensures AfterOne().accounts[0].balance == 10_000
  {
    ReadyIsReachable("EGP");
    OneMore(EMPTY, READY, DoPost(Plain(false, NoKey), None));
    PlainPosts(ReadyBooks("EGP"), false, NoKey);
    PlainRow(ReadyBooks("EGP"), false, NoKey);
    PlainTotals(false, NoKey);
    RunKeepsInv("EGP", GENERAL, POSTED);
  }

  /** Posting and then flipping the account's normal side leaves a wrong balance. */
  lemma SideEditBreaksCache()
    ensures var b := Run(EMPTY, POSTED);
            |b.accounts| == 2 &&
            var flipped := b.accounts[0].(increasesOnDebit := !b.accounts[0].increasesOnDebit);
            !CacheIsExact(b.(accounts := b.accounts[0 := flipped]))
  {
    PostedRun();
    SideEditKeepsCacheIff(AfterOne(), 0);
  }

  lemma MirrorPosts()
    ensures Post(AfterOne(), Mirror(AfterOne().entries[0], 0, DAY), None)
         == (Recorded(AfterOne(), Plain(true, ReversalKey(0)), MICROS), Done(1))
  {
    var b := AfterOne();
    PostedRun();
    PlainRow(ReadyBooks("EGP"), false, NoKey);
    MirrorIsPlain(b, b.entries[0], 0);
    assert b.entries[..0] == [] && FindKey(b.entries, ReversalKey(0)).None?;
    PlainPosts(b, true, ReversalKey(0));
  }

  lemma ReversalSucceeds()
    ensures Reverse(AfterOne(), 0, DAY, None).1 == Done(1)
    ensures var marked := WithStatus(Recorded(AfterOne(), Plain(true, ReversalKey(0)), MICROS), 0, Reversed);
            |marked.entries| == 2
            && Reverse(AfterOne(), 0, DAY, None).0
               == marked.(entries := marked.entries[1 := marked.entries[1].(reversalOf := Some(0))])
  {
    PostedRun();
    PlainRow(ReadyBooks("EGP"), false, NoKey);
    MirrorPosts();
  }

  lemma ReversalIsRun()
    ensures Run(EMPTY, REVERSED) == Reverse(AfterOne(), 0, DAY, None).0
  {
    PostedRun();
    OneMore(EMPTY, POSTED, DoReverse(0, DAY, None));
  }

  lemma ReversalDone()
    ensures Reverse(AfterOne(), 0, DAY, None).1 == Done(1)
            && Run(EMPTY, REVERSED) == Reverse(AfterOne(), 0, DAY, None).0
    ensures |Run(EMPTY, REVERSED).entries| == 2
            && Run(EMPTY, REVERSED).entries[0] == AfterOne().entries[0].(status := Reversed)
    ensures Run(EMPTY, REVERSED).entries[1].status == Posted && |Run(EMPTY, REVERSED).accounts| == 2
  {
    PostedRun();
    ReversalIsRun();
    ReversalSucceeds();
    PlainRow(AfterOne(), true, ReversalKey(0));
  }

  /** Posting and then reversing: whatever the rows are stamped, the newest page of the
      account's ledger does not close at the cached balance. */
  lemma ReversalPartsLedgerFromCache(stamp: (nat, nat) -> (int, nat), history: seq<LedgerPages.Row>)
    requires LedgerPages.IsHistory(LedgerPages.PostedRows(Run(EMPTY, REVERSED).entries, 0, stamp), history)
    ensures var b := Run(EMPTY, REVERSED);
            && |b.accounts| == 2
            && LedgerPages.Prefix(b.accounts[0].increasesOnDebit, history, |history|) != b.accounts[0].balance
  {
    var b := Run(EMPTY, REVERSED);
    ReversalDone();
    RunKeepsInv("EGP", GENERAL, REVERSED);
    ReversedNet(b);
    LedgerPages.ClosingEqualsCacheIff(b, 0, stamp, history);
  }

  lemma ReversedNet(b: Books)
    requires |b.entries| == 2 && b.entries[1].status == Posted
    requires b.entries[0] == NewEntry(ReadyBooks("EGP"), Plain(false, NoKey), MICROS).(status := Reversed)
    ensures NetOver(b.entries, {Reversed}, 0) == 10_000
  {
    PlainRow(ReadyBooks("EGP"), false, NoKey);
    PlainTotals(false, NoKey);
    assert NetColumn(b.entries, {Reversed}, 0) == [10_000, 0];
    SumOfTwo(10_000, 0);
  }

  function AfterTwo(): Books { Recorded(AfterOne(), Plain(false, ReversalKey(0)), MICROS) }

  lemma SpentRun()
    ensures Run(EMPTY, SPENT) == AfterTwo() && Open(AfterTwo())
    ensures |AfterTwo().entries| == 2 && AfterTwo().entries[0] == AfterOne().entries[0]
    ensures AfterTwo().entries[1].key == ReversalKey(0) && AfterTwo().entries[1].reversalOf == None
  {
    PostedRun();
    OneMore(EMPTY, POSTED, DoPost(Plain(false, ReversalKey(0)), None));
    assert AfterOne().entries[..0] == [] && FindKey(AfterOne().entries, ReversalKey(0)).None?;
    PlainPosts(AfterOne(), false, ReversalKey(0));
    PlainRow(AfterOne(), false, ReversalKey(0));
  }

  /** A client spends the key reversal:{id}, then the entry is reversed: the reversal
      succeeds, the entry reads as reversed, and no balance moves. */
  lemma SpentKeyReversalIsReachable()
    ensures var before, after := Run(EMPTY, SPENT), Run(EMPTY, SPENT_THEN_REVERSED);
            && Reverse(before, 0, DAY, None).1 == Done(1)
            && after.accounts == before.accounts && |after.entries| == 2 && after.entries[0].status == Reversed
  {
    var b := AfterTwo();
    PostedRun();
    SpentRun();
    OneMore(EMPTY, SPENT, DoReverse(0, DAY, None));
    PlainRow(ReadyBooks("EGP"), false, NoKey);
    MirrorIsPlain(b, b.entries[0], 0);
    PlainIsValid(b, true, ReversalKey(0));
    FirstUnderKey(b);
    assert Post(b, Plain(true, ReversalKey(0)), None) == (b, Done(1));
  }

  lemma FirstUnderKey(b: Books)
    requires |b.entries| == 2 && b.entries[0].key == NoKey && b.entries[1].key == ReversalKey(0)
    ensures FindKey(b.entries, ReversalKey(0)) == Some(1)
  {
    assert b.entries[..1] == [b.entries[0]] && b.entries[..1][..0] == [];
    assert FindKey(b.entries[..1], ReversalKey(0)).None?;
  }

  const CANCELLED: seq<Op> := POSTED + [DoPost(Plain(true, NoKey), None)]
  const ARCHIVED: seq<Op> := CANCELLED + [ArchiveAccount(0)]
  const VOIDED: seq<Op> := ARCHIVED + [DoVoid(0, true)]

  function AfterCancelling(): Books { Recorded(AfterOne(), Plain(true, NoKey), MICROS) }

  lemma CancelledRun()
    ensures Run(EMPTY, CANCELLED) == AfterCancelling() && Open(AfterCancelling())
    ensures AfterCancelling().accounts[0].balance == 0 && |AfterCancelling().entries| == 2
    ensures AfterCancelling().entries[0] == NewEntry(ReadyBooks("EGP"), Plain(false, NoKey), MICROS)
  {
    PostedRun();
    OneMore(EMPTY, POSTED, DoPost(Plain(true, NoKey), None));
    PlainPosts(AfterOne(), true, NoKey);
    PlainRow(AfterOne(), true, NoKey);
    PlainTotals(true, NoKey);
  }

  lemma VoidPutsBack(b: Books)
    requires |b.accounts| == 2 && b.accounts[0].balance == 0 && b.accounts[0].increasesOnDebit
    requires |b.entries| > 0 && b.entries[0].status == Posted && b.entries[0].date == DAY
    requires b.entries[0].lines == PlainLines(false) && b.periods == [Period(1, 31, PeriodStatus.Open, false)]
    ensures Void(b, 0, true).1 == Done(0)
    ensures |Void(b, 0, true).0.accounts| == 2 && Void(b, 0, true).0.accounts[0].balance == -10_000
    ensures Void(b, 0, true).0.accounts[0].active == b.accounts[0].active
  {
    assert FindPeriod(b.periods, 15) == Some(Period(1, 31, PeriodStatus.Open, false));
    PlainTotals(false, NoKey);
    VoidNetsOut(b, 0, true, 0);
  }

  function AfterArchiving(): Books {
    var b := AfterCancelling();
    if |b.accounts| == 0 then b
    else b.(accounts := b.accounts[0 := b.accounts[0].(active := false, postable := false)])
  }

  lemma ArchivedRun()
    ensures Run(EMPTY, ARCHIVED) == AfterArchiving()
  {
    CancelledRun();
    OneMore(EMPTY, CANCELLED, ArchiveAccount(0));
  }

  /** An account emptied and archived, then one of its entries voided: the archived account
      carries a balance again. */
  lemma VoidRefillsArchived()
    ensures var before, after := Run(EMPTY, ARCHIVED), Run(EMPTY, VOIDED);
            && |before.accounts| == 2 == |after.accounts|
            && before.accounts[0].balance == 0 && !before.accounts[0].active
            && after.accounts[0].balance == -10_000 && !after.accounts[0].active
  {
    CancelledRun();
    ArchivedRun();
    OneMore(EMPTY, ARCHIVED, DoVoid(0, true));
    PlainRow(ReadyBooks("EGP"), false, NoKey);
    VoidPutsBack(AfterArchiving());
  }

  /** One foreign posting in a run from empty books fails the nightly check. */
  lemma ForeignRunFailsNightly()
    ensures !NightlyCheck(Run(EMPTY, READY + [DoPost(HALF_RATE_DRAFT, None)]))
  {
    ReadyIsReachable("EGP");
    OneMore(EMPTY, READY, DoPost(HALF_RATE_DRAFT, None));
    ForeignPostingFailsNightly();
  }

  /** And one accepted draft with lines finer than the currency is undone at commit. */
  lemma SubCentRunIsUndone()
    ensures Validate(Run(EMPTY, READY), SUB_CENT_DRAFT).None?
    ensures Post(Run(EMPTY, READY), SUB_CENT_DRAFT, None).1 == Failed(LinesDisagree)
  {
    ReadyIsReachable("EGP");
    AcceptedDraftUndoneAtCommit();
  }
}
