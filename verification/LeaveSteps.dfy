/** What each step of a request asks of the book and what it writes, told from the rows. */
module LeaveSteps {
  import opened Money
  import opened Leave
  import opened LeaveCalendar

  predicate Spans(r: Request, day: int) { r.start <= day <= r.end }

  /** r keeps s from being submitted: a live request of the same employee on a common day. */
  ghost predicate Bars(r: Request, s: Request) {
    && r.employee == s.employee && r.status in {Submitted, PendingManager, PendingHR, Approved}
    && exists day :: Spans(r, day) && Spans(s, day)
  }

  lemma BarsIffOverlaps(r: Request, s: Request)
    requires r.start <= r.end && s.start <= s.end
    ensures Bars(r, s) <==> Clash(r, s)
  {
    if Clash(r, s) {
      var day := if r.start < s.start then s.start else r.start;
      assert Spans(r, day) && Spans(s, day);
    }
  }

  /** A submission goes through exactly when the request is a draft, its employee eligible,
      something is charged, no live request of theirs shares a day with it, and the days not
      yet held cover it or the type may go negative. It holds the days and changes nothing
      else but the request. */
  lemma SubmissionIff(book: Book, negative: set<nat>, id: nat, days: int, eligible: bool, manager: bool)
    requires Dated(book.requests)
    ensures Submit(book, negative, id, days, eligible, manager).Some?
            <==> && id < |book.requests| && book.requests[id].status == Draft && eligible && days > 0
                 && (forall i :: 0 <= i < |book.requests| && i != id ==> !Bars(book.requests[i], book.requests[id]))
                 && var b := Row(book, KeyOf(book.requests[id]));
                    days + b.pending <= b.available || book.requests[id].kind in negative
    ensures Submit(book, negative, id, days, eligible, manager).Some? ==>
              var after, r := Submit(book, negative, id, days, eligible, manager).value, book.requests[id];
              var key := Key(r.employee, r.kind, r.year);
              && after.requests
                 == book.requests[id := r.(days := days, status := if manager then PendingManager else PendingHR)]
              && key in after.balances && after.balances == book.balances[key := after.balances[key]]
              && after.balances[key] == Row(book, key).(pending := Row(book, key).pending + days)
  {
    if id < |book.requests| {
      forall i | 0 <= i < |book.requests| ensures Bars(book.requests[i], book.requests[id])
                                                  <==> Clash(book.requests[i], book.requests[id]) {
        BarsIffOverlaps(book.requests[i], book.requests[id]);
      }
    }
  }

  /** A draft is kept exactly when its dates are in order and it counts some days; it is the
      last row, and holds nothing. */
  lemma CreationIff(book: Book, employee: nat, kind: nat, year: int, start: int, end: int, days: int)
    ensures Create(book, employee, kind, year, start, end, days).Some? <==> start <= end && days > 0
    ensures start <= end && days > 0 ==>
              var after := Create(book, employee, kind, year, start, end, days).value;
              && after.balances == book.balances && |after.requests| == |book.requests| + 1
              && after.requests[..|book.requests|] == book.requests
              && after.requests[|book.requests|] == Request(employee, kind, year, start, end, days, Draft, false)
  {}

  /** An edit goes through exactly when the new dates are in order, and touches neither the
      status nor the days of the request, nor any other row. */
  lemma EditIff(book: Book, id: nat, employee: nat, kind: nat, year: int, start: int, end: int)
    ensures Edit(book, id, employee, kind, year, start, end).Some? <==> id < |book.requests| && start <= end
    ensures id < |book.requests| && start <= end ==>
              var after, r := Edit(book, id, employee, kind, year, start, end).value, book.requests[id];
              && after.balances == book.balances
              && after.requests
                 == book.requests[id := Request(employee, kind, year, start, end, r.days, r.status, r.applied)]
  {}

  /** A rejection goes through exactly when someone who may decide gives a reason for a
      request that awaits a decision and has its balance row. Held days go back. */
  lemma RejectionIff(book: Book, id: nat, reason: string, mayDecide: bool)
    ensures Reject(book, id, reason, mayDecide).Some?
            <==> && id < |book.requests| && book.requests[id].status in {Submitted, PendingManager, PendingHR}
                 && reason != "" && mayDecide && KeyOf(book.requests[id]) in book.balances
    ensures Reject(book, id, reason, mayDecide).Some? ==>
              var after, r := Reject(book, id, reason, mayDecide).value, book.requests[id];
              var was := book.balances[KeyOf(r)];
              && after.requests == book.requests[id := r.(status := Rejected)]
              && after.balances == book.balances[KeyOf(r) := was.(pending := Released(was.pending, r.days, !r.applied))]
  {}

  /** A column that gives days back, never below zero. */
  function Released(column: int, days: int, held: bool): int {
    if !held then column else if days <= column then column - days else 0
  }

  /** A withdrawal goes through exactly when the request is not final, an approved one has
      not begun, and what it gives back has a row to go to. Approved days return to what is
      available, held days cease to be held, a draft gives nothing back. */
  lemma CancellationIff(book: Book, id: nat, today: int)
    ensures Cancel(book, id, today).Some?
            <==> && id < |book.requests| && book.requests[id].status !in {Rejected, Cancelled}
                 && (book.requests[id].status == Approved ==> book.requests[id].start > today)
                 && (book.requests[id].applied || book.requests[id].status != Draft
                     ==> KeyOf(book.requests[id]) in book.balances)
    ensures Cancel(book, id, today).Some? ==>
              var after, r := Cancel(book, id, today).value, book.requests[id];
              && after.requests == book.requests[id := r.(status := Cancelled, applied := false)]
              && if r.applied then
                   var was := book.balances[KeyOf(r)];
                   after.balances == book.balances[KeyOf(r) := was.(taken := Released(was.taken, r.days, true),
                                                                    available := was.available + r.days)]
                 else if r.status == Draft then after.balances == book.balances
                 else
                   var was := book.balances[KeyOf(r)];
                   after.balances == book.balances[KeyOf(r) := was.(pending := Released(was.pending, r.days, true))]
  {}

  /** A correction moves the entitlement of its own row by as much, and no other figure. */
  lemma AdjustmentMovesOneFigure(book: Book, key: Key, delta: int, other: Key)
    ensures Row(Adjust(book, key, delta), other)
            == if other == key then Row(book, key).(entitled := Row(book, key).entitled + delta) else Row(book, other)
    ensures Adjust(book, key, delta).requests == book.requests
  {}
}
