/** The paged account ledger: an aggregate opening balance plus a walk over one
    page, against prefix sums over the whole history. */
module LedgerPages {
  import opened Sums
  import Ledger
  import LedgerInvariants
  import LedgerLaws

  datatype Row = Row(date: int, created: int, id: nat, debit: int, credit: int)

  /** Strictly older in (entry_date, created_at, id) order. */
  predicate Older(x: Row, y: Row) {
    || x.date < y.date
    || (x.date == y.date && x.created < y.created)
    || (x.date == y.date && x.created == y.created && x.id < y.id)
  }

  /** The date decides, then the time of creation, then the id: a strict order in which any
      two rows of different ids are comparable. */
  lemma OlderIsTheRowOrder(x: Row, y: Row, z: Row)
    ensures x.date < y.date ==> Older(x, y) && !Older(y, x)
    ensures x.date == y.date && x.created < y.created ==> Older(x, y) && !Older(y, x)
    ensures x.date == y.date && x.created == y.created ==> (Older(x, y) <==> x.id < y.id)
    ensures Older(x, y) && Older(y, z) ==> Older(x, z)
    ensures x.id != y.id ==> (Older(x, y) <==> !Older(y, x))
  {}

  function Movement(increasesOnDebit: bool, r: Row): int {
    if increasesOnDebit then r.debit - r.credit else r.credit - r.debit
  }

  /** What is summed over rows: a column, the signed movement, or either of these
      over the rows older than a boundary. */
  datatype Column = Debit | Credit | Signed(increasesOnDebit: bool) | OlderThan(boundary: Row, of: Column)

  function Value(c: Column, r: Row): int {
    match c
    case Debit => r.debit
    case Credit => r.credit
    case Signed(side) => Movement(side, r)
    case OlderThan(boundary, of) => if Older(r, boundary) then Value(of, r) else 0
  }

  function Mapped(f: Column, rows: seq<Row>): (s: seq<int>)
    ensures |s| == |rows|
  {
    seq(|rows|, i requires 0 <= i < |rows| => Value(f, rows[i]))
  }

  /** SUM(column) over the rows strictly older than the boundary. */
  function SumOlder(f: Column, table: seq<Row>, boundary: Row): int {
    Sum(Mapped(OlderThan(boundary, f), table))
  }

  function Opening(increasesOnDebit: bool, table: seq<Row>, oldestFirst: seq<Row>): int {
    if oldestFirst == [] then 0
    else
      var debit := SumOlder(Debit, table, oldestFirst[0]);
      var credit := SumOlder(Credit, table, oldestFirst[0]);
      if increasesOnDebit then debit - credit else credit - debit
  }

  function Reversed(rows: seq<Row>): (r: seq<Row>)
    ensures |r| == |rows| && forall i :: 0 <= i < |rows| ==> r[i] == rows[|rows| - 1 - i]
  {
    seq(|rows|, i requires 0 <= i < |rows| => rows[|rows| - 1 - i])
  }

  /** The balance after the first k rows of a history. */
  function Prefix(increasesOnDebit: bool, history: seq<Row>, k: nat): int
    requires k <= |history|
  {
    if k == 0 then 0 else Prefix(increasesOnDebit, history, k - 1) + Movement(increasesOnDebit, history[k - 1])
  }

  lemma {:induction false} PrefixIsSum(increasesOnDebit: bool, history: seq<Row>, k: nat)
    requires k <= |history|
    ensures Prefix(increasesOnDebit, history, k) == Sum(Mapped(Signed(increasesOnDebit), history[..k]))
  {
    if k > 0 {
      PrefixIsSum(increasesOnDebit, history, k - 1);
      var column := Mapped(Signed(increasesOnDebit), history[..k - 1]);
      assert history[..k] == history[..k - 1] + [history[k - 1]];
      assert Mapped(Signed(increasesOnDebit), history[..k]) == column + [Movement(increasesOnDebit, history[k - 1])];
      SumSnoc(column, Movement(increasesOnDebit, history[k - 1]));
    }
  }

  ghost predicate DistinctIds(rows: seq<Row>) {
    forall i, j :: 0 <= i < j < |rows| ==> rows[i].id != rows[j].id
  }

  /** The balance after each row of a page. */
  function Running(increasesOnDebit: bool, opening: int, oldestFirst: seq<Row>): (s: seq<int>)
    ensures |s| == |oldestFirst|
  {
    seq(|oldestFirst|, k requires 0 <= k < |oldestFirst| => opening + Prefix(increasesOnDebit, oldestFirst, k + 1))
  }

  /** The first k rows, and no others, have their figure. */
  ghost predicate Walked(rows: seq<Row>, figures: seq<int>, balances: map<nat, int>, k: nat)
    requires k <= |rows| == |figures|
  {
    && |balances| == k
    && (forall j :: 0 <= j < k ==> rows[j].id in balances && balances[rows[j].id] == figures[j])
    && (forall j :: k <= j < |rows| ==> rows[j].id !in balances)
  }

  lemma WalkOneMore(rows: seq<Row>, figures: seq<int>, balances: map<nat, int>, k: nat)
    requires DistinctIds(rows) && k < |rows| == |figures| && Walked(rows, figures, balances, k)
    ensures Walked(rows, figures, balances[rows[k].id := figures[k]], k + 1)
  {}

  /** Walk the page oldest first, accumulating from the opening balance. */
  method Walk(increasesOnDebit: bool, opening: int, oldestFirst: seq<Row>)
    returns (balances: map<nat, int>, closing: int)
    requires DistinctIds(oldestFirst)
    ensures closing == opening + Prefix(increasesOnDebit, oldestFirst, |oldestFirst|)
    ensures forall k :: 0 <= k < |oldestFirst| ==>
              oldestFirst[k].id in balances &&
              balances[oldestFirst[k].id] == Running(increasesOnDebit, opening, oldestFirst)[k]
    ensures |balances| == |oldestFirst|
  {
    balances := map[];
    closing := opening;
    ghost var running := Running(increasesOnDebit, opening, oldestFirst);
    for k := 0 to |oldestFirst|
      invariant closing == opening + Prefix(increasesOnDebit, oldestFirst, k)
      invariant Walked(oldestFirst, running, balances, k)
    {
      WalkOneMore(oldestFirst, running, balances, k);
      closing := closing + Movement(increasesOnDebit, oldestFirst[k]);
      assert closing == running[k];
      balances := balances[oldestFirst[k].id := closing];
    }
  }

  /** What a page shows, against the whole history it was cut from. */
  ghost predicate FiguresOf(increasesOnDebit: bool, history: seq<Row>, a: nat, b: nat, opening: int,
                            balances: map<nat, int>, closing: int)
    requires a <= b <= |history|
  {
    && opening == Prefix(increasesOnDebit, history, a) && closing == Prefix(increasesOnDebit, history, b)
    && forall k :: a <= k < b ==>
         history[k].id in balances && balances[history[k].id] == Prefix(increasesOnDebit, history, k + 1)
  }

  lemma FiguresAreGlobal(increasesOnDebit: bool, table: seq<Row>, history: seq<Row>, a: nat, b: nat, opening: int,
                         balances: map<nat, int>, closing: int)
    requires IsHistory(table, history) && a < b <= |history|
    requires opening == Opening(increasesOnDebit, table, history[a..b])
    requires closing == opening + Prefix(increasesOnDebit, history[a..b], b - a)
    requires forall k :: 0 <= k < b - a ==>
               history[a..b][k].id in balances
               && balances[history[a..b][k].id] == opening + Prefix(increasesOnDebit, history[a..b], k + 1)
    ensures FiguresOf(increasesOnDebit, history, a, b, opening, balances, closing)
  {
    OpeningIsPrefix(increasesOnDebit, table, history, a, b);
    PrefixOfSlice(increasesOnDebit, history, a, b, b - a);
    forall k | a <= k < b
      ensures history[k].id in balances && balances[history[k].id] == Prefix(increasesOnDebit, history, k + 1)
    {
      assert history[a..b][k - a] == history[k];
      PrefixOfSlice(increasesOnDebit, history, a, b, k - a + 1);
    }
  }

  /** The endpoint: `page` as the paginator delivers it, newest first. Whatever history
      the page is cut from, its figures are the balances of that whole history. */
  method AccountLedger(increasesOnDebit: bool, table: seq<Row>, page: seq<Row>)
    returns (opening: int, balances: map<nat, int>, closing: int)
    requires DistinctIds(page)
    ensures opening == Opening(increasesOnDebit, table, Reversed(page))
    ensures closing == opening + Prefix(increasesOnDebit, Reversed(page), |page|)
    ensures forall k :: 0 <= k < |page| ==>
              Reversed(page)[k].id in balances &&
              balances[Reversed(page)[k].id] == Running(increasesOnDebit, opening, Reversed(page))[k]
    ensures |balances| == |page| && (page == [] ==> opening == closing == 0)
    ensures forall history: seq<Row>, a: nat, b: nat ::
              IsHistory(table, history) && a < b <= |history| && Reversed(page) == history[a..b] ==>
                FiguresOf(increasesOnDebit, history, a, b, opening, balances, closing)
  {
    var oldestFirst := Reversed(page);
    opening := Opening(increasesOnDebit, table, oldestFirst);
    balances, closing := Walk(increasesOnDebit, opening, oldestFirst);
    forall history: seq<Row>, a: nat, b: nat
      | IsHistory(table, history) && a < b <= |history| && oldestFirst == history[a..b]
      ensures FiguresOf(increasesOnDebit, history, a, b, opening, balances, closing)
    {
      FiguresAreGlobal(increasesOnDebit, table, history, a, b, opening, balances, closing);
    }
  }

  // ----- storage order does not matter -----

  lemma {:induction false} PermutedSum(f: Column, xs: seq<Row>, ys: seq<Row>)
    requires multiset(xs) == multiset(ys)
    ensures Sum(Mapped(f, xs)) == Sum(Mapped(f, ys))
  {
    if |xs| == 0 {
      assert |multiset(ys)| == 0;
    } else {
      var n := |xs| - 1;
      assert xs[n] in multiset(ys);
      var j :| 0 <= j < |ys| && ys[j] == xs[n];
      RemoveAt(f, xs, n);
      RemoveAt(f, ys, j);
      assert xs[..n] + xs[n + 1..] == xs[..n];
      PermutedSum(f, xs[..n], ys[..j] + ys[j + 1..]);
    }
  }

  lemma RemoveAt(f: Column, rows: seq<Row>, j: nat)
    requires j < |rows|
    ensures Sum(Mapped(f, rows)) == Sum(Mapped(f, rows[..j] + rows[j + 1..])) + Value(f, rows[j])
    ensures multiset(rows[..j] + rows[j + 1..]) == multiset(rows) - multiset{rows[j]}
  {
    assert rows == rows[..j] + [rows[j]] + rows[j + 1..];
    MappedAppend(f, rows[..j], rows[j + 1..]);
    MappedAppend(f, rows[..j] + [rows[j]], rows[j + 1..]);
    assert Mapped(f, rows[..j] + [rows[j]]) == Mapped(f, rows[..j]) + [Value(f, rows[j])];
    SumSnoc(Mapped(f, rows[..j]), Value(f, rows[j]));
  }

  lemma MappedAppend(f: Column, a: seq<Row>, b: seq<Row>)
    ensures Sum(Mapped(f, a + b)) == Sum(Mapped(f, a)) + Sum(Mapped(f, b))
  {
    assert Mapped(f, a + b) == Mapped(f, a) + Mapped(f, b);
    SumAppend(Mapped(f, a), Mapped(f, b));
  }

  // ----- a page against the whole history -----

  /** `history` is the table oldest first. */
  ghost predicate IsHistory(table: seq<Row>, history: seq<Row>) {
    && multiset(history) == multiset(table)
    && forall i, j :: 0 <= i < j < |history| ==> Older(history[i], history[j])
  }

  lemma SumOlderIsPrefix(f: Column, table: seq<Row>, history: seq<Row>, a: nat)
    requires IsHistory(table, history) && a < |history|
    ensures SumOlder(f, table, history[a]) == Sum(Mapped(f, history[..a]))
  {
    var g := OlderThan(history[a], f);
    PermutedSum(g, table, history);
    assert history == history[..a] + history[a..];
    MappedAppend(g, history[..a], history[a..]);
    SumZero(Mapped(g, history[a..]));
    assert Mapped(g, history[..a]) == Mapped(f, history[..a]);
  }

  /** The opening of a non-empty page is the balance just before its oldest row. */
  lemma OpeningIsPrefix(increasesOnDebit: bool, table: seq<Row>, history: seq<Row>, a: nat, b: nat)
    requires IsHistory(table, history) && a < b <= |history|
    ensures Opening(increasesOnDebit, table, history[a..b]) == Prefix(increasesOnDebit, history, a)
  {
    SumOlderIsPrefix(Debit, table, history, a);
    SumOlderIsPrefix(Credit, table, history, a);
    var d, c := Mapped(Debit, history[..a]), Mapped(Credit, history[..a]);
    var m := Mapped(Signed(increasesOnDebit), history[..a]);
    PrefixIsSum(increasesOnDebit, history, a);
    if increasesOnDebit {
      SumLinear(d, 1, c, m);
    } else {
      SumLinear(c, 1, d, m);
    }
  }

  lemma {:induction false} PrefixOfSlice(increasesOnDebit: bool, history: seq<Row>, a: nat, b: nat, k: nat)
    requires a + k <= b <= |history|
    ensures Prefix(increasesOnDebit, history, a) + Prefix(increasesOnDebit, history[a..b], k)
         == Prefix(increasesOnDebit, history, a + k)
  {
    if k > 0 {
      PrefixOfSlice(increasesOnDebit, history, a, b, k - 1);
    }
  }

  /** For every contiguous page of every filtered history, in whatever order the
      table is stored, the running balance at its k-th row is the prefix sum over
      the whole history. */
  lemma PageBalancesAreGlobal(increasesOnDebit: bool, table: seq<Row>, history: seq<Row>, a: nat, b: nat, k: nat)
    requires IsHistory(table, history) && a < b <= |history| && a + k <= b
    ensures Reversed(Reversed(history[a..b])) == history[a..b]
    ensures Opening(increasesOnDebit, table, history[a..b]) + Prefix(increasesOnDebit, history[a..b], k)
         == Prefix(increasesOnDebit, history, a + k)
  {
    OpeningIsPrefix(increasesOnDebit, table, history, a, b);
    PrefixOfSlice(increasesOnDebit, history, a, b, k);
  }

  // ----- every way of cutting the history into pages -----

  function PageOpening(increasesOnDebit: bool, table: seq<Row>, history: seq<Row>, cuts: seq<nat>, i: nat): int
    requires i + 1 < |cuts| && cuts[i] <= cuts[i + 1] <= |history|
  {
    Opening(increasesOnDebit, table, history[cuts[i]..cuts[i + 1]])
  }

  function PageClosing(increasesOnDebit: bool, table: seq<Row>, history: seq<Row>, cuts: seq<nat>, i: nat): int
    requires i + 1 < |cuts| && cuts[i] <= cuts[i + 1] <= |history|
  {
    PageOpening(increasesOnDebit, table, history, cuts, i)
    + Prefix(increasesOnDebit, history[cuts[i]..cuts[i + 1]], cuts[i + 1] - cuts[i])
  }

  ghost predicate IsCutting(history: seq<Row>, cuts: seq<nat>) {
    && |cuts| >= 2 && cuts[0] == 0 && cuts[|cuts| - 1] == |history|
    && (forall i :: 0 <= i < |cuts| ==> cuts[i] <= |history|)
    && forall i :: 0 <= i < |cuts| - 1 ==> cuts[i] < cuts[i + 1]
  }

  /** However the history is cut into pages, the oldest page opens at zero, every
      page opens where the next older one closed, and the newest closes at the total. */
  lemma PagesChain(increasesOnDebit: bool, table: seq<Row>, history: seq<Row>, cuts: seq<nat>, i: nat)
    requires IsHistory(table, history) && IsCutting(history, cuts) && i + 1 < |cuts|
    ensures i == 0 ==> PageOpening(increasesOnDebit, table, history, cuts, i) == 0
    ensures i > 0 ==>
              PageOpening(increasesOnDebit, table, history, cuts, i)
              == PageClosing(increasesOnDebit, table, history, cuts, i - 1)
    ensures i + 2 == |cuts| ==>
              PageClosing(increasesOnDebit, table, history, cuts, i) == Prefix(increasesOnDebit, history, |history|)
  {
    PageFigures(increasesOnDebit, table, history, cuts, i);
    if i > 0 {
      PageFigures(increasesOnDebit, table, history, cuts, i - 1);
    }
  }

  lemma PageFigures(increasesOnDebit: bool, table: seq<Row>, history: seq<Row>, cuts: seq<nat>, i: nat)
    requires i + 1 < |cuts| && cuts[i] < cuts[i + 1] <= |history| && IsHistory(table, history)
    ensures PageOpening(increasesOnDebit, table, history, cuts, i) == Prefix(increasesOnDebit, history, cuts[i])
    ensures PageClosing(increasesOnDebit, table, history, cuts, i) == Prefix(increasesOnDebit, history, cuts[i + 1])
  {
    var a, b := cuts[i], cuts[i + 1];
    OpeningIsPrefix(increasesOnDebit, table, history, a, b);
    PrefixOfSlice(increasesOnDebit, history, a, b, b - a);
  }

  // ----- a date filter -----

  /** A date-filtered history is a slice of the full one. */
  ghost predicate IsDateSlice(full: seq<Row>, from: int, to: int, p: nat, q: nat) {
    && p <= q <= |full|
    && (forall i :: 0 <= i < p ==> full[i].date < from)
    && (forall i :: p <= i < q ==> from <= full[i].date <= to)
    && (forall i :: q <= i < |full| ==> full[i].date > to)
  }

  /** Under a date filter every figure is relative to the range: it is short by the
      balance carried into the first day. */
  lemma FilteredOpeningIsRelative(increasesOnDebit: bool, full: seq<Row>, table: seq<Row>, from: int, to: int,
                                  p: nat, q: nat, a: nat, b: nat)
    requires IsDateSlice(full, from, to, p, q) && IsHistory(table, full[p..q]) && p + a < p + b <= q
    ensures Opening(increasesOnDebit, table, full[p..q][a..b])
         == Prefix(increasesOnDebit, full, p + a) - Prefix(increasesOnDebit, full, p)
  {
    OpeningIsPrefix(increasesOnDebit, table, full[p..q], a, b);
    PrefixOfSlice(increasesOnDebit, full, p, q, a);
  }

  // ----- the ledger of an account of the books -----

  /** The lines of one entry against one account, with their stamps. */
  function RowsOfEntry(e: Ledger.Entry, at: nat, account: nat, stamp: (nat, nat) -> (int, nat), n: nat): seq<Row>
    requires n <= |e.lines|
  {
    if n == 0 then []
    else
      var l := e.lines[n - 1];
      RowsOfEntry(e, at, account, stamp, n - 1)
      + if l.account == account
        then [Row(e.date.day, stamp(at, n - 1).0, stamp(at, n - 1).1, l.debit, l.credit)] else []
  }

  /** The account's lines in POSTED entries. */
  function PostedRows(entries: seq<Ledger.Entry>, account: nat, stamp: (nat, nat) -> (int, nat)): seq<Row> {
    if |entries| == 0 then []
    else
      var e := entries[|entries| - 1];
      PostedRows(entries[..|entries| - 1], account, stamp)
      + if e.status == Ledger.Posted then RowsOfEntry(e, |entries| - 1, account, stamp, |e.lines|) else []
  }

  lemma {:induction false} EntryRowsSum(e: Ledger.Entry, at: nat, account: nat, stamp: (nat, nat) -> (int, nat), n: nat)
    requires n <= |e.lines|
    ensures Sum(Mapped(Signed(true), RowsOfEntry(e, at, account, stamp, n))) == Ledger.Net(e.lines[..n], account)
  {
    var f := Signed(true);
    if n > 0 {
      EntryRowsSum(e, at, account, stamp, n - 1);
      var l := e.lines[n - 1];
      assert e.lines[..n] == e.lines[..n - 1] + [l];
      LedgerLaws.NetSnoc(e.lines[..n - 1], l, account);
      var rows := RowsOfEntry(e, at, account, stamp, n - 1);
      var row := Row(e.date.day, stamp(at, n - 1).0, stamp(at, n - 1).1, l.debit, l.credit);
      var last := if l.account == account then [row] else [];
      MappedAppend(f, rows, last);
      if l.account == account {
        assert Mapped(f, last) == [] + [l.debit - l.credit];
        SumSnoc([], l.debit - l.credit);
      }
    }
  }

  lemma {:induction false} PostedRowsSum(entries: seq<Ledger.Entry>, account: nat, stamp: (nat, nat) -> (int, nat))
    ensures Sum(Mapped(Signed(true), PostedRows(entries, account, stamp)))
         == LedgerInvariants.NetOver(entries, {Ledger.Posted}, account)
  {
    if |entries| > 0 {
      var n := |entries| - 1;
      var e := entries[n];
      PostedRowsSum(entries[..n], account, stamp);
      assert entries == entries[..n] + [e];
      LedgerInvariants.NetOverSnoc(entries[..n], e, {Ledger.Posted}, account);
      EntryRowsSum(e, n, account, stamp, |e.lines|);
      assert e.lines[..|e.lines|] == e.lines;
      MappedAppend(Signed(true), PostedRows(entries[..n], account, stamp),
                   if e.status == Ledger.Posted then RowsOfEntry(e, n, account, stamp, |e.lines|) else []);
    }
  }

  /** The newest page closes at cached_balance exactly when the account's reversed
      originals net to zero. */
  lemma ClosingEqualsCacheIff(b: Ledger.Books, account: nat, stamp: (nat, nat) -> (int, nat), history: seq<Row>)
    requires LedgerInvariants.Inv(b) && account < |b.accounts|
    requires IsHistory(PostedRows(b.entries, account, stamp), history)
    ensures Prefix(b.accounts[account].increasesOnDebit, history, |history|) == b.accounts[account].balance <==>
            LedgerInvariants.NetOver(b.entries, {Ledger.Reversed}, account) == 0
  {
    var side := b.accounts[account].increasesOnDebit;
    var f, g := Signed(true), Signed(side);
    var rows := PostedRows(b.entries, account, stamp);
    PostedRowsSum(b.entries, account, stamp);
    PermutedSum(f, rows, history);
    PrefixIsSum(side, history, |history|);
    assert history[..|history|] == history;
    if !side {
      var zeros := seq(|history|, i => 0);
      SumLinear(Mapped(g, history), -1, Mapped(f, history), zeros);
      SumZero(zeros);
    } else {
      assert Mapped(g, history) == Mapped(f, history);
    }
    LedgerLaws.PostedOnlyGap(b, account);
  }
}
