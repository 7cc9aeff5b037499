/** Leave requests over a book of requests and day balances: submission, the
    approval chain, cancellation, accrual, and edits of the requested dates. */
module Leave {
  import opened Money

  datatype Status = Draft | Submitted | PendingManager | PendingHR | Approved | Rejected | Cancelled

  function AllowedTransitions(s: Status): set<Status> {
    match s
    case Draft => {Submitted, Cancelled}
    case Submitted => {PendingManager, PendingHR, Approved, Rejected, Cancelled}
    case PendingManager => {PendingHR, Approved, Rejected, Cancelled}
    case PendingHR => {Approved, Rejected, Cancelled}
    case Approved => {Cancelled}
    case Rejected => {}
    case Cancelled => {}
  }

  predicate Blocking(s: Status) { s in {Submitted, PendingManager, PendingHR, Approved} }

  /** The table's only way into the blocking statuses. */
  lemma OnlySubmissionBlocks(s: Status, t: Status)
    requires t in AllowedTransitions(s)
    ensures !Blocking(s) && Blocking(t) <==> s == Draft && t == Submitted
  {}

  function Stage(s: Status): nat {
    match s
    case Draft => 0
    case Submitted => 1
    case PendingManager => 2
    case PendingHR => 3
    case Approved => 4
    case Rejected => 5
    case Cancelled => 6
  }

  /** A status is only ever left for a later one, so none is entered twice; a draft is sent
      or withdrawn, an approval only withdrawn, and two statuses are final. */
  lemma TransitionsClimb(s: Status, t: Status)
    ensures t in AllowedTransitions(s)
            <==> && Stage(s) < Stage(t) && s !in {Rejected, Cancelled}
                 && (s == Draft ==> t in {Submitted, Cancelled}) && (s == Approved ==> t == Cancelled)
  {}

  /** A balance row's identity; year is the year of the request's start date. */
  datatype Key = Key(employee: nat, kind: nat, year: int)

  /** Dates are day numbers, days are in the stored precision of a balance. */
  datatype Request = Request(employee: nat, kind: nat, year: int, start: int, end: int,
                             days: int, status: Status, applied: bool)

  /** entitled is opening + accrued + carried over + adjusted. */
  datatype Balance = Balance(entitled: int, taken: int, available: int, pending: int, accruedOn: Option<int>)

  datatype Book = Book(requests: seq<Request>, balances: map<Key, Balance>)

  function KeyOf(r: Request): Key { Key(r.employee, r.kind, r.year) }
  function Row(book: Book, key: Key): Balance {
    if key in book.balances then book.balances[key] else Balance(0, 0, 0, 0, None)
  }

  function AtLeastZero(x: int): int { if x < 0 then 0 else x }

  predicate Clash(r: Request, s: Request) {
    r.employee == s.employee && Blocking(r.status) && r.start <= s.end && r.end >= s.start
  }

  /** The pre-check of submission: a live request of the same employee on a common day. */
  predicate Overlaps(requests: seq<Request>, id: nat, r: Request) {
    exists i :: 0 <= i < |requests| && i != id && Clash(requests[i], r)
  }

  function Write(book: Book, id: nat, r: Request, b: Balance): Book
    requires id < |book.requests|
  {
    Book(book.requests[id := r], book.balances[KeyOf(r) := b])
  }

  // ----- the operations; None is a refusal, which rolls everything back -----

  function Create(book: Book, employee: nat, kind: nat, year: int, start: int, end: int, days: int): Option<Book> {
    if end < start || days <= 0 then None
    else Some(book.(requests := book.requests + [Request(employee, kind, year, start, end, days, Draft, false)]))
  }

  /** eligible stands for the policy gates, notice period and attachment rule; days
      is the fresh count of working days. */
  function Submit(book: Book, negative: set<nat>, id: nat, days: int, eligible: bool, manager: bool): Option<Book> {
    if id >= |book.requests| then None else
    var r := book.requests[id];
    if Submitted !in AllowedTransitions(r.status) || !eligible || days <= 0 then None else
    if Overlaps(book.requests, id, r) then None else
    var b := Row(book, KeyOf(r));
    if days > b.available - b.pending && r.kind !in negative then None else
    Some(Write(book, id, r.(days := days, status := if manager then PendingManager else PendingHR),
               b.(pending := b.pending + days)))
  }

  function Finalise(book: Book, negative: set<nat>, id: nat): Option<Book>
    requires id < |book.requests|
  {
    var r := book.requests[id];
    if Approved !in AllowedTransitions(r.status) then None else
    var b := Row(book, KeyOf(r));
    if r.applied then Some(Write(book, id, r.(status := Approved), b)) else
    var b' := b.(pending := AtLeastZero(b.pending - r.days), taken := b.taken + r.days,
                 available := b.available - r.days);
    if b'.available < 0 && r.kind !in negative then None
    else Some(Write(book, id, r.(status := Approved, applied := true), b'))
  }

  function ApproveStep(book: Book, negative: set<nat>, id: nat, mayDecide: bool, needsHR: bool): Option<Book> {
    if id >= |book.requests| then None else
    var r := book.requests[id];
    if r.status !in {Submitted, PendingManager, PendingHR} || !mayDecide then None
    else if r.status == PendingManager && needsHR then
      Some(book.(requests := book.requests[id := r.(status := PendingHR)]))
    else Finalise(book, negative, id)
  }

  function Reject(book: Book, id: nat, reason: string, mayDecide: bool): Option<Book> {
    if id >= |book.requests| then None else
    var r := book.requests[id];
    if Rejected !in AllowedTransitions(r.status) || reason == "" || !mayDecide then None else
    if KeyOf(r) !in book.balances then None else
    var b := Row(book, KeyOf(r));
    Some(Write(book, id, r.(status := Rejected),
               if r.applied then b else b.(pending := AtLeastZero(b.pending - r.days))))
  }

  function Cancel(book: Book, id: nat, today: int): Option<Book> {
    if id >= |book.requests| then None else
    var r := book.requests[id];
    if Cancelled !in AllowedTransitions(r.status) || (r.status == Approved && r.start <= today) then None
    else if !r.applied && !Blocking(r.status) then
      Some(book.(requests := book.requests[id := r.(status := Cancelled)]))
    else if KeyOf(r) !in book.balances then None else
    var b := Row(book, KeyOf(r));
    if r.applied then
      Some(Write(book, id, r.(status := Cancelled, applied := false),
                 b.(taken := AtLeastZero(b.taken - r.days), available := b.available + r.days)))
    else
      Some(Write(book, id, r.(status := Cancelled), b.(pending := AtLeastZero(b.pending - r.days))))
  }

  /** accrue_monthly on one row; cap 0 means uncapped. */
  function Accrue(book: Book, key: Key, asOf: int, monthStart: int, rate: int, cap: int): Book {
    var b := Row(book, key);
    if b.accruedOn.Some? && b.accruedOn.value >= monthStart then book.(balances := book.balances[key := b]) else
    var granted := if cap > 0 && b.available + rate > cap then AtLeastZero(cap - b.available) else rate;
    if granted <= 0 then book.(balances := book.balances[key := b.(accruedOn := Some(asOf))])
    else book.(balances := book.balances[key := b.(entitled := b.entitled + granted, available := b.available + granted,
                                                   accruedOn := Some(asOf))])
  }

  /** An update through the API: what is requested changes, at any status, and the
      day count stays. */
  function Edit(book: Book, id: nat, employee: nat, kind: nat, year: int, start: int, end: int): Option<Book> {
    if id >= |book.requests| || end < start then None
    else Some(book.(requests := book.requests[id := book.requests[id].(employee := employee, kind := kind, year := year,
                                                                       start := start, end := end)]))
  }

  /** A manual correction through the balance endpoint: adjusted_days alone is written,
      on the row there is or on a new one. */
  function Adjust(book: Book, key: Key, delta: int): Book {
    var b := Row(book, key);
    book.(balances := book.balances[key := b.(entitled := b.entitled + delta)])
  }

  // ----- balances agree with the requests behind them -----

  datatype Column = Held | Used

  function Weight(column: Column, r: Request, key: Key): int {
    if KeyOf(r) != key || !Blocking(r.status) then 0
    else if (column == Used) == r.applied then r.days else 0
  }

  function Total(column: Column, requests: seq<Request>, key: Key): int {
    if |requests| == 0 then 0
    else Total(column, requests[..|requests| - 1], key) + Weight(column, requests[|requests| - 1], key)
  }

  ghost predicate Agrees(book: Book, negative: set<nat>, key: Key) {
    var b := Row(book, key);
    && b.pending == Total(Held, book.requests, key) && b.taken == Total(Used, book.requests, key)
    && b.available + b.taken == b.entitled
    && (key.kind !in negative ==> b.pending <= b.available)
  }

  predicate Fit(book: Book, r: Request) {
    && r.start <= r.end && r.days > 0 && (r.applied <==> r.status == Approved)
    && (Blocking(r.status) ==> KeyOf(r) in book.balances)
  }

  ghost predicate Sound(book: Book, negative: set<nat>) {
    && (forall i :: 0 <= i < |book.requests| ==> Fit(book, book.requests[i]))
    && (forall key :: Agrees(book, negative, key))
  }

  lemma {:induction false} TotalUpdated(column: Column, requests: seq<Request>, id: nat, r: Request, key: Key)
    requires id < |requests|
    ensures Total(column, requests[id := r], key)
            == Total(column, requests, key) - Weight(column, requests[id], key) + Weight(column, r, key)
  {
    var front := requests[..|requests| - 1];
    if id < |front| {
      TotalUpdated(column, front, id, r, key);
      assert requests[id := r][..|requests| - 1] == front[id := r];
    } else {
      assert requests[id := r][..|requests| - 1] == front;
    }
  }

  lemma {:induction false} TotalCovers(column: Column, requests: seq<Request>, key: Key, id: nat)
    requires (forall i :: 0 <= i < |requests| ==> requests[i].days > 0) && id < |requests|
    ensures Total(column, requests, key) >= Weight(column, requests[id], key)
  {
    var front := requests[..|requests| - 1];
    if id < |front| {
      TotalCovers(column, front, key, id);
    } else if |front| > 0 {
      TotalCovers(column, front, key, 0);
    }
  }

  /** Replacing one request and its own balance row: what must hold for agreement to survive. */
  lemma WriteKeepsSound(book: Book, negative: set<nat>, id: nat, r: Request, b: Balance)
    requires Sound(book, negative) && id < |book.requests| && KeyOf(r) == KeyOf(book.requests[id])
    requires Fit(Write(book, id, r, b), r)
    requires var before, was := book.requests[id], Row(book, KeyOf(r));
             && b.pending == was.pending - Weight(Held, before, KeyOf(r)) + Weight(Held, r, KeyOf(r))
             && b.taken == was.taken - Weight(Used, before, KeyOf(r)) + Weight(Used, r, KeyOf(r))
             && b.available + b.taken == b.entitled
             && (r.kind !in negative ==> b.pending <= b.available)
    ensures Sound(Write(book, id, r, b), negative)
  {
    var book' := Write(book, id, r, b);
    forall i | 0 <= i < |book'.requests| ensures Fit(book', book'.requests[i]) {
      assert Fit(book, book.requests[i]);
    }
    forall key ensures Agrees(book', negative, key) {
      assert Agrees(book, negative, key);
      TotalUpdated(Held, book.requests, id, r, key);
      TotalUpdated(Used, book.requests, id, r, key);
    }
  }

  lemma SubmitKeepsSound(book: Book, negative: set<nat>, id: nat, days: int, eligible: bool, manager: bool)
    requires Sound(book, negative) && Submit(book, negative, id, days, eligible, manager).Some?
    ensures Sound(Submit(book, negative, id, days, eligible, manager).value, negative)
  {
    var r := book.requests[id];
    var b := Row(book, KeyOf(r));
    assert Fit(book, r) && Agrees(book, negative, KeyOf(r));
    WriteKeepsSound(book, negative, id, r.(days := days, status := if manager then PendingManager else PendingHR),
                    b.(pending := b.pending + days));
  }

  /** A request that was accepted is never refused its approval for want of days. */
  lemma ApprovalNeverOverdraws(book: Book, negative: set<nat>, id: nat, needsHR: bool)
    requires Sound(book, negative) && id < |book.requests|
    requires book.requests[id].status in {Submitted, PendingManager, PendingHR}
    ensures var after := ApproveStep(book, negative, id, true, needsHR);
            after.Some? && Sound(after.value, negative)
  {
    var r := book.requests[id];
    var b := Row(book, KeyOf(r));
    assert Fit(book, r) && Agrees(book, negative, KeyOf(r));
    DaysArePositive(book, negative);
    TotalCovers(Held, book.requests, KeyOf(r), id);
    if r.status == PendingManager && needsHR {
      var r' := r.(status := PendingHR);
      WriteKeepsSound(book, negative, id, r', b);
      assert Write(book, id, r', b) == book.(requests := book.requests[id := r']);
    } else {
      WriteKeepsSound(book, negative, id, r.(status := Approved, applied := true),
                      b.(pending := b.pending - r.days, taken := b.taken + r.days, available := b.available - r.days));
    }
  }

  lemma DaysArePositive(book: Book, negative: set<nat>)
    requires Sound(book, negative)
    ensures forall i :: 0 <= i < |book.requests| ==> book.requests[i].days > 0
  {
    forall i | 0 <= i < |book.requests| ensures book.requests[i].days > 0 {
      assert Fit(book, book.requests[i]);
    }
  }

  lemma RejectKeepsSound(book: Book, negative: set<nat>, id: nat, reason: string, mayDecide: bool)
    requires Sound(book, negative) && Reject(book, id, reason, mayDecide).Some?
    ensures Sound(Reject(book, id, reason, mayDecide).value, negative)
  {
    var r := book.requests[id];
    var b := Row(book, KeyOf(r));
    assert Fit(book, r) && Agrees(book, negative, KeyOf(r));
    DaysArePositive(book, negative);
    TotalCovers(Held, book.requests, KeyOf(r), id);
    WriteKeepsSound(book, negative, id, r.(status := Rejected), b.(pending := b.pending - r.days));
  }

  lemma CancelKeepsSound(book: Book, negative: set<nat>, id: nat, today: int)
    requires Sound(book, negative) && Cancel(book, id, today).Some?
    ensures Sound(Cancel(book, id, today).value, negative)
  {
    var r := book.requests[id];
    var b := Row(book, KeyOf(r));
    assert Fit(book, r) && Agrees(book, negative, KeyOf(r));
    DaysArePositive(book, negative);
    TotalCovers(Held, book.requests, KeyOf(r), id);
    TotalCovers(Used, book.requests, KeyOf(r), id);
    if r.applied {
      WriteKeepsSound(book, negative, id, r.(status := Cancelled, applied := false),
                      b.(taken := b.taken - r.days, available := b.available + r.days));
    } else if Blocking(r.status) {
      WriteKeepsSound(book, negative, id, r.(status := Cancelled), b.(pending := b.pending - r.days));
    } else {
      RewriteKeepsSound(book, negative, id, r.(status := Cancelled));
    }
  }

  /** A request that weighs nothing before and after. */
  lemma RewriteKeepsSound(book: Book, negative: set<nat>, id: nat, r: Request)
    requires Sound(book, negative) && id < |book.requests| && Fit(book, r)
    requires (!Blocking(book.requests[id].status) && !Blocking(r.status))
             || (forall column, key :: Weight(column, book.requests[id], key) == Weight(column, r, key))
    ensures Sound(book.(requests := book.requests[id := r]), negative)
  {
    var book' := book.(requests := book.requests[id := r]);
    forall i | 0 <= i < |book'.requests| ensures Fit(book', book'.requests[i]) {
      assert Fit(book, book.requests[i]);
    }
    forall key ensures Agrees(book', negative, key) {
      assert Agrees(book, negative, key);
      TotalUpdated(Held, book.requests, id, r, key);
      TotalUpdated(Used, book.requests, id, r, key);
      assert Weight(Held, book.requests[id], key) == Weight(Held, r, key);
      assert Weight(Used, book.requests[id], key) == Weight(Used, r, key);
    }
  }

  lemma CreateKeepsSound(book: Book, negative: set<nat>, employee: nat, kind: nat, year: int, start: int, end: int,
                         days: int)
    requires Sound(book, negative) && Create(book, employee, kind, year, start, end, days).Some?
    ensures Sound(Create(book, employee, kind, year, start, end, days).value, negative)
  {
    var book' := Create(book, employee, kind, year, start, end, days).value;
    forall i | 0 <= i < |book'.requests| ensures Fit(book', book'.requests[i]) {
      assert i < |book.requests| ==> Fit(book, book.requests[i]);
    }
    assert book'.requests[..|book'.requests| - 1] == book.requests;
    forall key ensures Agrees(book', negative, key) {
      assert Agrees(book, negative, key);
    }
  }

  lemma AccrueKeepsSound(book: Book, negative: set<nat>, key: Key, asOf: int, monthStart: int, rate: int, cap: int)
    requires Sound(book, negative)
    ensures Sound(Accrue(book, key, asOf, monthStart, rate, cap), negative)
  {
    var book' := Accrue(book, key, asOf, monthStart, rate, cap);
    forall i | 0 <= i < |book'.requests| ensures Fit(book', book'.requests[i]) {
      assert Fit(book, book.requests[i]);
    }
    forall k ensures Agrees(book', negative, k) {
      assert Agrees(book, negative, k);
    }
  }

  /** A retried month changes nothing, and accrual alone never lifts a balance above its cap. */
  lemma AccrualIsRetrySafe(book: Book, key: Key, asOf: int, monthStart: int, rate: int, cap: int, again: int)
    requires monthStart <= asOf
    ensures var once := Accrue(book, key, asOf, monthStart, rate, cap);
            && Accrue(once, key, again, monthStart, rate, cap) == once
            && (cap > 0 && Row(book, key).available <= cap ==> Row(once, key).available <= cap)
  {
    var once := Accrue(book, key, asOf, monthStart, rate, cap);
    assert once.balances[key := once.balances[key]] == once.balances;
  }

  /** The month's grant lands in full, or fills the balance to its cap and no further;
      what lies above the cap already stays. */
  lemma AccrualFillsToCap(book: Book, key: Key, asOf: int, monthStart: int, rate: int, cap: int)
    requires rate >= 0
    requires Row(book, key).accruedOn.None? || Row(book, key).accruedOn.value < monthStart
    ensures var before := Row(book, key).available;
            var after := Row(Accrue(book, key, asOf, monthStart, rate, cap), key).available;
            && before <= after <= before + rate
            && (after == before + rate || (cap > 0 && (after == cap || (after == before && before > cap))))
            && (cap > 0 && before <= cap ==> after <= cap)
  {}

  /** Agreement apart from cover: what no leave type's policy enters into. */
  ghost predicate Kept(book: Book) {
    && (forall i :: 0 <= i < |book.requests| ==> Fit(book, book.requests[i]))
    && (forall key :: KeptRow(book, key))
  }

  ghost predicate KeptRow(book: Book, key: Key) {
    var b := Row(book, key);
    && b.pending == Total(Held, book.requests, key) && b.taken == Total(Used, book.requests, key)
    && b.available + b.taken == b.entitled
  }

  /** No more is held than is left. */
  predicate Covered(book: Book, key: Key) { Row(book, key).pending <= Row(book, key).available }

  lemma SoundIsKept(book: Book, negative: set<nat>)
    requires Sound(book, negative)
    ensures Kept(book)
  {
    forall key ensures KeptRow(book, key) {
      assert Agrees(book, negative, key);
    }
  }

  /** Editing which leave types may go negative keeps a book sound exactly when every row
      of a type that no longer may is covered. */
  lemma PolicyEditKeepsSoundIff(book: Book, negative: set<nat>, negative': set<nat>)
    requires Sound(book, negative)
    ensures Sound(book, negative')
            <==> forall key: Key :: key.kind in negative && key.kind !in negative' ==> Covered(book, key)
  {
    if forall key: Key :: key.kind in negative && key.kind !in negative' ==> Covered(book, key) {
      forall key ensures Agrees(book, negative', key) {
        assert Agrees(book, negative, key);
      }
    } else {
      var key: Key :| key.kind in negative && key.kind !in negative' && !Covered(book, key);
      assert !Agrees(book, negative', key);
    }
  }

  /** Whatever the policy has become since submission, the last approval goes through
      exactly when the type may go negative or the days are still there. */
  lemma ApprovalStandsIff(book: Book, negative: set<nat>, id: nat, needsHR: bool)
    requires Kept(book) && id < |book.requests|
    requires book.requests[id].status in {Submitted, PendingManager, PendingHR}
    ensures var r := book.requests[id];
            ApproveStep(book, negative, id, true, needsHR).Some?
            <==> ((r.status == PendingManager && needsHR) || r.kind in negative
                  || r.days <= Row(book, KeyOf(r)).available)
  {
    assert Fit(book, book.requests[id]);
  }

  /** On a sound book a correction is refused only for its status, its date, its reason
      or its author: the balance row it gives days back to is always there. */
  lemma CorrectionsFindTheirRow(book: Book, negative: set<nat>, id: nat, today: int, reason: string, mayDecide: bool)
    requires Sound(book, negative) && id < |book.requests|
    ensures var r := book.requests[id];
            && (Cancel(book, id, today).Some? <==>
                  r.status !in {Rejected, Cancelled} && (r.status == Approved ==> r.start > today))
            && (Reject(book, id, reason, mayDecide).Some? <==>
                  r.status in {Submitted, PendingManager, PendingHR} && reason != "" && mayDecide)
  {
    assert Fit(book, book.requests[id]);
  }

  /** Approvals needed after submission: two with a manager and an HR step, else one. */
  lemma ApprovalsNeeded(book: Book, negative: set<nat>, id: nat, days: int, manager: bool, needsHR: bool)
    requires Sound(book, negative) && Submit(book, negative, id, days, true, manager).Some?
    ensures var submitted := Submit(book, negative, id, days, true, manager).value;
            var first := ApproveStep(submitted, negative, id, true, needsHR);
            && id < |book.requests| && first.Some? && id < |first.value.requests|
            && (first.value.requests[id].status == Approved <==> !(manager && needsHR))
            && (manager && needsHR ==>
                  var second := ApproveStep(first.value, negative, id, true, needsHR);
                  second.Some? && second.value.requests[id].status == Approved)
  {
    SubmitKeepsSound(book, negative, id, days, true, manager);
    var submitted := Submit(book, negative, id, days, true, manager).value;
    ApprovalNeverOverdraws(submitted, negative, id, needsHR);
    var first := ApproveStep(submitted, negative, id, true, needsHR).value;
    if manager && needsHR {
      ApprovalNeverOverdraws(first, negative, id, needsHR);
    }
  }

  /** Submitting and cancelling before a decision puts every balance back. */
  lemma SubmitThenCancelRestores(book: Book, negative: set<nat>, id: nat, days: int, manager: bool, today: int)
    requires Sound(book, negative) && Submit(book, negative, id, days, true, manager).Some?
    ensures var after := Cancel(Submit(book, negative, id, days, true, manager).value, id, today);
            after.Some? && forall key :: Row(after.value, key) == Row(book, key)
  {
    assert Agrees(book, negative, KeyOf(book.requests[id]));
    SubmitKeepsSound(book, negative, id, days, true, manager);
    var submitted := Submit(book, negative, id, days, true, manager).value;
    CorrectionsFindTheirRow(submitted, negative, id, today, "", false);
    DaysArePositive(book, negative);
    TotalIsNonNegative(Held, book.requests, KeyOf(book.requests[id]));
  }

  lemma {:induction false} TotalIsNonNegative(column: Column, requests: seq<Request>, key: Key)
    requires forall i :: 0 <= i < |requests| ==> requests[i].days > 0
    ensures Total(column, requests, key) >= 0
  {
    if |requests| > 0 {
      TotalIsNonNegative(column, requests[..|requests| - 1], key);
    }
  }

  /** A correction keeps the stored availability in agreement exactly when it changes nothing. */
  lemma AdjustKeepsSoundIff(book: Book, negative: set<nat>, key: Key, delta: int)
    requires Sound(book, negative)
    ensures Sound(Adjust(book, key, delta), negative) <==> delta == 0
  {
    var book' := Adjust(book, key, delta);
    assert Agrees(book, negative, key);
    if delta == 0 {
      forall i | 0 <= i < |book'.requests| ensures Fit(book', book'.requests[i]) {
        assert Fit(book, book.requests[i]);
      }
      forall k ensures Agrees(book', negative, k) {
        assert Agrees(book, negative, k);
      }
    } else {
      assert !Agrees(book', negative, key);
    }
  }

  /** An edit keeps rows and requests in agreement exactly when the request holds no
      days yet or stays on its own balance row. */
  lemma EditKeepsSoundIff(book: Book, negative: set<nat>, id: nat, employee: nat, kind: nat, year: int, start: int,
                          end: int)
    requires Sound(book, negative) && Edit(book, id, employee, kind, year, start, end).Some?
    ensures Sound(Edit(book, id, employee, kind, year, start, end).value, negative)
            <==> !Blocking(book.requests[id].status) || KeyOf(book.requests[id]) == Key(employee, kind, year)
  {
    var r := book.requests[id];
    var r' := r.(employee := employee, kind := kind, year := year, start := start, end := end);
    var book' := Edit(book, id, employee, kind, year, start, end).value;
    assert Fit(book, r);
    if !Blocking(r.status) || KeyOf(r) == KeyOf(r') {
      RewriteKeepsSound(book, negative, id, r');
    } else {
      var key := KeyOf(r);
      assert Agrees(book, negative, key);
      TotalUpdated(Held, book.requests, id, r', key);
      TotalUpdated(Used, book.requests, id, r', key);
      assert !Agrees(book', negative, key);
    }
  }
}
