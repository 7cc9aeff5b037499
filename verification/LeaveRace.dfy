/** Two submissions at once: the overlap check of each before the write of either. */
module LeaveRace {
  import opened Money
  import opened Leave
  import opened LeaveCalendar

  /** What submission asks before it takes the balance row: its request, as loaded, is a
      draft and no live request of the employee overlaps it. */
  predicate Passes(book: Book, id: nat)
    requires id < |book.requests|
  {
    book.requests[id].status == Draft && !Overlaps(book.requests, id, book.requests[id])
  }

  /** The rest, under the balance lock, with the request as it was loaded. */
  function WriteLoaded(book: Book, negative: set<nat>, id: nat, loaded: Request, days: int, manager: bool): Option<Book>
    requires id < |book.requests|
  {
    var b := Row(book, KeyOf(loaded));
    if days > b.available - b.pending && loaded.kind !in negative then None
    else Some(Write(book, id, loaded.(days := days, status := if manager then PendingManager else PendingHR),
                    b.(pending := b.pending + days)))
  }

  /** With nobody between check and write this is submission. */
  lemma CheckThenWriteIsSubmit(book: Book, negative: set<nat>, id: nat, days: int, manager: bool)
    requires id < |book.requests| && days > 0
    ensures Submit(book, negative, id, days, true, manager)
         == if Passes(book, id) then WriteLoaded(book, negative, id, book.requests[id], days, manager) else None
  {}

  predicate SameDays(r: Request, s: Request) {
    r.employee == s.employee && r.start <= s.end && r.end >= s.start
  }

  /** Both checked, then both written: the two live requests collide exactly when the
      drafts shared a day of one employee. */
  lemma RaceCollidesIff(book: Book, negative: set<nat>, i: nat, j: nat, days: int, more: int, manager: bool, also: bool)
    requires Disjoint(book.requests) && i < |book.requests| && j < |book.requests| && i != j
    requires Passes(book, i) && Passes(book, j)
    requires WriteLoaded(book, negative, i, book.requests[i], days, manager).Some?
    requires var first := WriteLoaded(book, negative, i, book.requests[i], days, manager).value;
             WriteLoaded(first, negative, j, book.requests[j], more, also).Some?
    ensures var first := WriteLoaded(book, negative, i, book.requests[i], days, manager).value;
            var both := WriteLoaded(first, negative, j, book.requests[j], more, also).value;
            Disjoint(both.requests) <==> !SameDays(book.requests[i], book.requests[j])
  {
    var first := WriteLoaded(book, negative, i, book.requests[i], days, manager).value;
    var both := WriteLoaded(first, negative, j, book.requests[j], more, also).value;
    ReplacedStaysDisjoint(book.requests, i, first.requests[i]);
    if SameDays(book.requests[i], book.requests[j]) {
      assert Collide(both.requests[i], both.requests[j]) && Collide(both.requests[j], both.requests[i]);
    } else {
      OthersStayClear(book.requests, i, j, first.requests[i], both.requests[j]);
      ReplacedStaysDisjoint(first.requests, j, both.requests[j]);
    }
  }

  lemma OthersStayClear(requests: seq<Request>, i: nat, j: nat, live: Request, next: Request)
    requires i < |requests| && j < |requests| && i != j && !Overlaps(requests, j, requests[j])
    requires live.employee == requests[i].employee && live.start == requests[i].start && live.end == requests[i].end
    requires next.employee == requests[j].employee && next.start == requests[j].start && next.end == requests[j].end
    requires !SameDays(requests[i], requests[j])
    ensures !Overlaps(requests[i := live], j, next)
  {
    var after := requests[i := live];
    forall k | 0 <= k < |after| && k != j ensures !Clash(after[k], next) {
      if k != i {
        assert !Clash(requests[k], requests[j]);
      }
    }
  }

  /** In turn instead, the second of two such submissions is refused. */
  lemma SerialSecondIsRefused(book: Book, negative: set<nat>, i: nat, j: nat, days: int, more: int, manager: bool,
                              also: bool)
    requires i < |book.requests| && j < |book.requests| && i != j && SameDays(book.requests[i], book.requests[j])
    requires Submit(book, negative, i, days, true, manager).Some?
    ensures Submit(Submit(book, negative, i, days, true, manager).value, negative, j, more, true, also).None?
  {
    var after := Submit(book, negative, i, days, true, manager).value;
    assert Clash(after.requests[i], after.requests[j]);
  }
}
