/** Absences that do not overlap: what the exclusion rule and the submission
    pre-check keep over whole runs, and the days that follow from it. */
module LeaveCalendar {
  import opened Money
  import opened Leave

  predicate Collide(r: Request, s: Request) { Blocking(r.status) && Blocking(s.status) && Clash(r, s) }

  /** The documented exclusion constraint: no two blocking requests of an employee share a day. */
  ghost predicate Disjoint(requests: seq<Request>) {
    forall i, j :: 0 <= i < j < |requests| ==> !Collide(requests[i], requests[j])
  }

  datatype Action =
    | Creation(employee: nat, kind: nat, year: int, start: int, end: int, days: int)
    | Submission(id: nat, days: int, eligible: bool, manager: bool)
    | Approval(id: nat, mayDecide: bool, needsHR: bool)
    | Rejection(id: nat, reason: string, mayDecide: bool)
    | Cancellation(id: nat, today: int)
    | Change(id: nat, employee: nat, kind: nat, year: int, start: int, end: int)
    | Adjustment(key: Key, delta: int)
    | Grant(key: Key, asOf: int, monthStart: int, rate: int, cap: int)

  function Perform(book: Book, negative: set<nat>, a: Action): Option<Book> {
    match a
    case Creation(e, k, y, s, t, d) => Create(book, e, k, y, s, t, d)
    case Submission(id, days, eligible, manager) => Submit(book, negative, id, days, eligible, manager)
    case Approval(id, may, hr) => ApproveStep(book, negative, id, may, hr)
    case Rejection(id, reason, may) => Reject(book, id, reason, may)
    case Cancellation(id, today) => Cancel(book, id, today)
    case Change(id, e, k, y, s, t) => Edit(book, id, e, k, y, s, t)
    case Adjustment(key, delta) => Some(Adjust(book, key, delta))
    case Grant(key, asOf, month, rate, cap) => Some(Accrue(book, key, asOf, month, rate, cap))
  }

  /** One transaction; with the constraint in place the database refuses what would collide. */
  ghost function Step(book: Book, negative: set<nat>, constrained: bool, a: Action): Book {
    var after := Perform(book, negative, a);
    if after.None? || (constrained && !Disjoint(after.value.requests)) then book else after.value
  }

  ghost function Run(negative: set<nat>, constrained: bool, actions: seq<Action>): Book {
    if |actions| == 0 then Book([], map[])
    else Step(Run(negative, constrained, actions[..|actions| - 1]), negative, constrained, actions[|actions| - 1])
  }

  /** Between statuses that block, and out of them, nobody's absence grows. */
  predicate Narrower(r: Request, s: Request) {
    r.employee == s.employee && r.start == s.start && r.end == s.end && (Blocking(r.status) ==> Blocking(s.status))
  }

  lemma ReplacedStaysDisjoint(requests: seq<Request>, id: nat, r: Request)
    requires Disjoint(requests) && id < |requests|
    requires Narrower(r, requests[id]) || !Overlaps(requests, id, r)
    ensures Disjoint(requests[id := r])
  {
    var after := requests[id := r];
    forall i, j | 0 <= i < j < |after| ensures !Collide(after[i], after[j]) {
      assert !Collide(requests[i], requests[j]);
      if i == id {
        assert Overlaps(requests, id, r) <== Clash(requests[j], r);
      } else if j == id {
        assert Overlaps(requests, id, r) <== Clash(requests[i], r);
      }
    }
  }

  /** Without the constraint the service still keeps absences apart: everything but
      an edit does, through the pre-check of submission. */
  lemma ServiceKeepsDisjoint(book: Book, negative: set<nat>, a: Action)
    requires Disjoint(book.requests) && !a.Change? && Perform(book, negative, a).Some?
    ensures Disjoint(Perform(book, negative, a).value.requests)
  {
    var after := Perform(book, negative, a).value.requests;
    match a
    case Creation(_, _, _, _, _, _) =>
      forall i, j | 0 <= i < j < |after| ensures !Collide(after[i], after[j]) {
        assert j < |book.requests| ==> !Collide(book.requests[i], book.requests[j]);
      }
    case Submission(id, days, _, _) => ReplacedStaysDisjoint(book.requests, id, after[id]);
    case Approval(id, _, _) => ReplacedStaysDisjoint(book.requests, id, after[id]);
    case Rejection(id, _, _) => ReplacedStaysDisjoint(book.requests, id, after[id]);
    case Cancellation(id, _) => ReplacedStaysDisjoint(book.requests, id, after[id]);
    case Adjustment(_, _) =>
    case Grant(_, _, _, _, _) =>
  }

  /** An edit keeps absences apart exactly when the request is not live, or its new
      dates are free. */
  lemma EditKeepsDisjointIff(book: Book, id: nat, employee: nat, kind: nat, year: int, start: int, end: int)
    requires Disjoint(book.requests) && Edit(book, id, employee, kind, year, start, end).Some?
    ensures var after := Edit(book, id, employee, kind, year, start, end).value.requests;
            Disjoint(after) <==> !Blocking(after[id].status) || !Overlaps(book.requests, id, after[id])
  {
    var after := Edit(book, id, employee, kind, year, start, end).value.requests;
    var r := after[id];
    if Blocking(r.status) && Overlaps(book.requests, id, r) {
      var i :| 0 <= i < |book.requests| && i != id && Clash(book.requests[i], r);
      assert Collide(after[i], after[id]) && Collide(after[id], after[i]);
    } else if Blocking(r.status) {
      ReplacedStaysDisjoint(book.requests, id, r);
    } else {
      forall i, j | 0 <= i < j < |after| ensures !Collide(after[i], after[j]) {
        assert !Collide(book.requests[i], book.requests[j]);
      }
    }
  }

  /** Any actions, edits included, keep absences apart under the constraint; without
      it any actions but edits do. */
  lemma {:induction false} RunIsDisjoint(negative: set<nat>, constrained: bool, actions: seq<Action>)
    requires constrained || forall i :: 0 <= i < |actions| ==> !actions[i].Change?
    ensures Disjoint(Run(negative, constrained, actions).requests)
  {
    if |actions| > 0 {
      var before, last := Run(negative, constrained, actions[..|actions| - 1]), actions[|actions| - 1];
      RunIsDisjoint(negative, constrained, actions[..|actions| - 1]);
      if !constrained && Perform(before, negative, last).Some? {
        ServiceKeepsDisjoint(before, negative, last);
      }
    }
  }

  /** The pre-check and the constraint agree: a submission that passes everything else
      is accepted exactly when making the request live leaves absences apart. */
  lemma PreCheckMatchesConstraint(book: Book, negative: set<nat>, id: nat, days: int, manager: bool)
    requires Disjoint(book.requests) && id < |book.requests| && book.requests[id].status == Draft && days > 0
    requires var r := book.requests[id];
             days <= Row(book, KeyOf(r)).available - Row(book, KeyOf(r)).pending || r.kind in negative
    ensures Submit(book, negative, id, days, true, manager).Some?
            <==> Disjoint(book.requests[id := book.requests[id].(status := Submitted)])
  {
    var r := book.requests[id].(status := Submitted);
    var after := book.requests[id := r];
    assert Overlaps(book.requests, id, r) == Overlaps(book.requests, id, book.requests[id]) by {
      assert forall i :: 0 <= i < |book.requests| ==>
          Clash(book.requests[i], r) == Clash(book.requests[i], book.requests[id]);
    }
    if Overlaps(book.requests, id, r) {
      var i :| 0 <= i < |book.requests| && i != id && Clash(book.requests[i], r);
      assert Collide(after[i], after[id]) && Collide(after[id], after[i]);
    } else {
      ReplacedStaysDisjoint(book.requests, id, r);
    }
  }

  /** The constraint has nothing to refuse as long as nobody edits. */
  lemma ConstraintOnlyMeetsEdits(book: Book, negative: set<nat>, a: Action)
    requires Disjoint(book.requests) && !a.Change?
    ensures Step(book, negative, true, a) == Step(book, negative, false, a)
  {
    if Perform(book, negative, a).Some? {
      ServiceKeepsDisjoint(book, negative, a);
    }
  }

  // ----- balances over runs -----

  /** Edits of live requests stay on their own balance row, and corrections change nothing. */
  predicate RowsStayTrue(book: Book, a: Action) {
    && (a.Change? && a.id < |book.requests| && Blocking(book.requests[a.id].status) ==>
          KeyOf(book.requests[a.id]) == Key(a.employee, a.kind, a.year))
    && (a.Adjustment? ==> a.delta == 0)
  }

  /** The first action that breaks the agreement is exactly one that breaks this rule. */
  lemma PerformKeepsSoundIff(book: Book, negative: set<nat>, a: Action)
    requires Sound(book, negative) && Perform(book, negative, a).Some?
    ensures Sound(Perform(book, negative, a).value, negative) <==> RowsStayTrue(book, a)
  {
    if RowsStayTrue(book, a) {
      PerformKeepsSound(book, negative, a);
    } else if a.Change? {
      EditKeepsSoundIff(book, negative, a.id, a.employee, a.kind, a.year, a.start, a.end);
    } else {
      AdjustKeepsSoundIff(book, negative, a.key, a.delta);
    }
  }

  ghost predicate AllRowsStayTrue(negative: set<nat>, constrained: bool, actions: seq<Action>) {
    forall n :: 0 <= n < |actions| ==> RowsStayTrue(Run(negative, constrained, actions[..n]), actions[n])
  }

  lemma PerformKeepsSound(book: Book, negative: set<nat>, a: Action)
    requires Sound(book, negative) && RowsStayTrue(book, a) && Perform(book, negative, a).Some?
    ensures Sound(Perform(book, negative, a).value, negative)
  {
    match a
    case Creation(e, k, y, s, t, d) => CreateKeepsSound(book, negative, e, k, y, s, t, d);
    case Submission(id, days, eligible, manager) => SubmitKeepsSound(book, negative, id, days, eligible, manager);
    case Approval(id, may, hr) => ApprovalNeverOverdraws(book, negative, id, hr);
    case Rejection(id, reason, may) => RejectKeepsSound(book, negative, id, reason, may);
    case Cancellation(id, today) => CancelKeepsSound(book, negative, id, today);
    case Change(id, e, k, y, s, t) => EditKeepsSoundIff(book, negative, id, e, k, y, s, t);
    case Adjustment(key, delta) => AdjustKeepsSoundIff(book, negative, key, delta);
    case Grant(key, asOf, month, rate, cap) => AccrueKeepsSound(book, negative, key, asOf, month, rate, cap);
  }

  /** On every run: pending is the days awaiting a decision, taken the days approved,
      available what is left of the entitlement, and no more is ever held than is left. */
  lemma {:induction false} RunIsSound(negative: set<nat>, constrained: bool, actions: seq<Action>)
    requires AllRowsStayTrue(negative, constrained, actions)
    ensures Sound(Run(negative, constrained, actions), negative)
  {
    if |actions| > 0 {
      var front := actions[..|actions| - 1];
      assert forall n :: 0 <= n < |front| ==> front[..n] == actions[..n];
      assert forall n :: 0 <= n < |front| ==> RowsStayTrue(Run(negative, constrained, actions[..n]), actions[n]);
      RunIsSound(negative, constrained, front);
      var before, last := Run(negative, constrained, front), actions[|actions| - 1];
      assert RowsStayTrue(before, last);
      if Perform(before, negative, last).Some? {
        PerformKeepsSound(before, negative, last);
      }
    }
  }

  // ----- calendar days -----

  function Least(a: int, b: int): int { if a < b then a else b }
  function Most(a: int, b: int): int { if a > b then a else b }

  /** The days of a request inside the window from lo up to but not including hi. */
  function DaysInside(r: Request, lo: int, hi: int): int {
    AtLeastZero(Least(r.end + 1, hi) - Most(r.start, lo))
  }

  predicate Dated(requests: seq<Request>) {
    forall i :: 0 <= i < |requests| ==> requests[i].start <= requests[i].end
  }

  predicate AwayOn(r: Request, employee: nat, day: int) {
    r.employee == employee && Blocking(r.status) && r.start <= day <= r.end
  }

  function DaysAway(requests: seq<Request>, employee: nat, lo: int, hi: int): int {
    if |requests| == 0 then 0
    else
      var last := requests[|requests| - 1];
      DaysAway(requests[..|requests| - 1], employee, lo, hi)
      + if last.employee == employee && Blocking(last.status) then DaysInside(last, lo, hi) else 0
  }

  function CountAway(requests: seq<Request>, employee: nat, day: int): int {
    if |requests| == 0 then 0
    else
      CountAway(requests[..|requests| - 1], employee, day)
      + if AwayOn(requests[|requests| - 1], employee, day) then 1 else 0
  }

  lemma {:induction false} OneMoreDay(requests: seq<Request>, employee: nat, lo: int, hi: int)
    requires lo <= hi && Dated(requests)
    ensures DaysAway(requests, employee, lo, hi + 1) == DaysAway(requests, employee, lo, hi)
            + CountAway(requests, employee, hi)
  {
    if |requests| > 0 {
      OneMoreDay(requests[..|requests| - 1], employee, lo, hi);
    }
  }

  lemma {:induction false} SomebodyAway(requests: seq<Request>, employee: nat, day: int)
    ensures CountAway(requests, employee, day) == 0
            || exists i :: 0 <= i < |requests| && AwayOn(requests[i], employee, day)
  {
    if |requests| > 0 {
      var front := requests[..|requests| - 1];
      SomebodyAway(front, employee, day);
      if CountAway(front, employee, day) != 0 {
        var i :| 0 <= i < |front| && AwayOn(front[i], employee, day);
        assert AwayOn(requests[i], employee, day);
      }
    }
  }

  lemma {:induction false} AwayOnceADay(requests: seq<Request>, employee: nat, day: int)
    requires Disjoint(requests)
    ensures 0 <= CountAway(requests, employee, day) <= 1
  {
    if |requests| > 0 {
      var front, last := requests[..|requests| - 1], requests[|requests| - 1];
      AwayOnceADay(front, employee, day);
      SomebodyAway(front, employee, day);
      if CountAway(front, employee, day) != 0 {
        var i :| 0 <= i < |front| && AwayOn(front[i], employee, day);
        assert !Collide(requests[i], requests[|requests| - 1]);
      }
    }
  }

  lemma {:induction false} EmptyWindow(requests: seq<Request>, employee: nat, lo: int)
    requires Dated(requests)
    ensures DaysAway(requests, employee, lo, lo) == 0
  {
    if |requests| > 0 {
      EmptyWindow(requests[..|requests| - 1], employee, lo);
    }
  }

  /** Nobody is away for more days than the window has. */
  lemma {:induction false} DaysAwayFit(requests: seq<Request>, employee: nat, lo: int, hi: int)
    requires lo <= hi && Disjoint(requests)
    requires Dated(requests)
    ensures 0 <= DaysAway(requests, employee, lo, hi) <= hi - lo
    decreases hi - lo
  {
    if lo == hi {
      EmptyWindow(requests, employee, lo);
    } else {
      DaysAwayFit(requests, employee, lo, hi - 1);
      OneMoreDay(requests, employee, lo, hi - 1);
      AwayOnceADay(requests, employee, hi - 1);
    }
  }

  lemma PerformKeepsDated(book: Book, negative: set<nat>, a: Action)
    requires Dated(book.requests) && Perform(book, negative, a).Some?
    ensures Dated(Perform(book, negative, a).value.requests)
  {}

  lemma {:induction false} RunIsDated(negative: set<nat>, constrained: bool, actions: seq<Action>)
    ensures Dated(Run(negative, constrained, actions).requests)
  {
    if |actions| > 0 {
      var before, last := Run(negative, constrained, actions[..|actions| - 1]), actions[|actions| - 1];
      RunIsDated(negative, constrained, actions[..|actions| - 1]);
      if Perform(before, negative, last).Some? {
        PerformKeepsDated(before, negative, last);
      }
    }
  }

  lemma RunDaysFit(negative: set<nat>, actions: seq<Action>, employee: nat, lo: int, hi: int)
    requires lo <= hi
    ensures 0 <= DaysAway(Run(negative, true, actions).requests, employee, lo, hi) <= hi - lo
  {
    RunIsDisjoint(negative, true, actions);
    RunIsDated(negative, true, actions);
    DaysAwayFit(Run(negative, true, actions).requests, employee, lo, hi);
  }

  // ----- without the constraint -----

  const MOVED: seq<Action> := [
    Creation(1, 0, 2025, 10, 12, 3), Submission(0, 3, true, true),
    Creation(1, 0, 2025, 20, 22, 3), Submission(1, 3, true, true),
    Change(1, 1, 0, 2025, 10, 12)]

  lemma MovedRequests()
    ensures var requests := Run({0}, false, MOVED).requests;
            |requests| == 2 && Collide(requests[0], requests[1]) && DaysAway(requests, 1, 10, 13) == 6
  {
    var b1 := Step(Book([], map[]), {0}, false, MOVED[0]);
    var b2 := Step(b1, {0}, false, MOVED[1]);
    var b3 := Step(b2, {0}, false, MOVED[2]);
    var b4 := Step(b3, {0}, false, MOVED[3]);
    var b5 := Step(b4, {0}, false, MOVED[4]);
    assert MOVED[..5][..4] == MOVED[..4] && MOVED[..4][..3] == MOVED[..3] && MOVED[..3][..2] == MOVED[..2]
           && MOVED[..2][..1] == MOVED[..1] && MOVED[..1][..0] == [] && MOVED[..5] == MOVED;
    assert Run({0}, false, MOVED[..1]) == b1;
    assert Run({0}, false, MOVED[..2]) == b2;
    assert Run({0}, false, MOVED[..3]) == b3;
    assert Run({0}, false, MOVED[..4]) == b4;
    assert Run({0}, false, MOVED) == b5;
    var rs := b5.requests;
    assert |rs| == 2;
    assert rs[..1][..0] == [] && DaysAway(rs[..1], 1, 10, 13) == 3;
  }

  /** Two submitted requests, one then moved onto the other: without the constraint
      the employee is away six days in a window of three. */
  lemma EditedDatesOverlap()
    ensures !Disjoint(Run({0}, false, MOVED).requests)
  {
    MovedRequests();
  }
}
