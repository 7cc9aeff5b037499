/** Cached balances told without signs or nets: live debits against live credits. */
module LedgerBalances {
  import opened Sums
  import opened Ledger
  import opened LedgerInvariants
  import LedgerLaws

  function DebitsOn(lines: seq<Line>, account: nat): int {
    if |lines| == 0 then 0
    else
      var l := lines[|lines| - 1];
      DebitsOn(lines[..|lines| - 1], account) + if l.account == account then l.debit else 0
  }

  function CreditsOn(lines: seq<Line>, account: nat): int {
    if |lines| == 0 then 0
    else
      var l := lines[|lines| - 1];
      CreditsOn(lines[..|lines| - 1], account) + if l.account == account then l.credit else 0
  }

  /** What entries that stand, reversed ones included, have debited an account. */
  function LiveDebits(entries: seq<Entry>, account: nat): int {
    if |entries| == 0 then 0
    else
      var e := entries[|entries| - 1];
      LiveDebits(entries[..|entries| - 1], account)
      + if e.status == Posted || e.status == Reversed then DebitsOn(e.lines, account) else 0
  }

  function LiveCredits(entries: seq<Entry>, account: nat): int {
    if |entries| == 0 then 0
    else
      var e := entries[|entries| - 1];
      LiveCredits(entries[..|entries| - 1], account)
      + if e.status == Posted || e.status == Reversed then CreditsOn(e.lines, account) else 0
  }

  lemma {:induction false} NetIsDebitsLessCredits(lines: seq<Line>, account: nat)
    ensures Net(lines, account) == DebitsOn(lines, account) - CreditsOn(lines, account)
  {
    if |lines| == 0 {
      Untouched(lines, account);
    } else {
      var front, l := lines[..|lines| - 1], lines[|lines| - 1];
      NetIsDebitsLessCredits(front, account);
      LedgerLaws.NetSnoc(front, l, account);
      assert lines == front + [l];
    }
  }

  lemma {:induction false} LiveNetIsDebitsLessCredits(entries: seq<Entry>, account: nat)
    ensures NetOver(entries, LIVE, account) == LiveDebits(entries, account) - LiveCredits(entries, account)
  {
    if |entries| > 0 {
      var front, e := entries[..|entries| - 1], entries[|entries| - 1];
      LiveNetIsDebitsLessCredits(front, account);
      NetOverSnoc(front, e, LIVE, account);
      NetIsDebitsLessCredits(e.lines, account);
      assert entries == front + [e];
    }
  }

  /** On every run a debit-side account stands at its live debits less its live credits, a
      credit-side account at its live credits less its live debits. */
  lemma BalanceIsDebitsAgainstCredits(base: string, journals: map<string, Journal>, ops: seq<Op>, account: nat)
    requires account < |Run(EmptyBooks(base, journals), ops).accounts|
    ensures var b := Run(EmptyBooks(base, journals), ops);
            var debits, credits := LiveDebits(b.entries, account), LiveCredits(b.entries, account);
            b.accounts[account].balance
            == if b.accounts[account].increasesOnDebit then debits - credits else credits - debits
  {
    RunKeepsInv(base, journals, ops);
    var b := Run(EmptyBooks(base, journals), ops);
    LiveNetIsDebitsLessCredits(b.entries, account);
  }
}
