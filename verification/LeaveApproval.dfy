/** Who decides: nothing is approved without authority, and every approved request was passed
    by as many deciding approvals as its chain asks. */
module LeaveApproval {
  import opened Money
  import opened Leave
  import opened LeaveCalendar

  /** Without authority every decision is a refusal, whatever the request stands at. */
  lemma NoAuthorityNoDecision(book: Book, negative: set<nat>, id: nat, needsHR: bool, reason: string)
    ensures ApproveStep(book, negative, id, false, needsHR).None? && Reject(book, id, reason, false).None?
  {}

  /** An approval goes through exactly when someone who may decide passes a request that
      awaits a decision, and, unless that only hands it to HR, the days are there, were taken
      already or may go negative. It changes the status of that request and no other. */
  lemma ApprovalStepIff(book: Book, negative: set<nat>, id: nat, mayDecide: bool, needsHR: bool)
    ensures ApproveStep(book, negative, id, mayDecide, needsHR).Some?
            <==> && mayDecide && id < |book.requests|
                 && book.requests[id].status in {Submitted, PendingManager, PendingHR}
                 && var r := book.requests[id];
                    || (r.status == PendingManager && needsHR) || r.applied || r.kind in negative
                    || r.days <= Row(book, KeyOf(r)).available
    ensures ApproveStep(book, negative, id, mayDecide, needsHR).Some? ==>
              var after, r := ApproveStep(book, negative, id, mayDecide, needsHR).value.requests, book.requests[id];
              after == book.requests[id := if r.status == PendingManager && needsHR then r.(status := PendingHR)
                                           else r.(status := Approved, applied := true)]
  {}

  // ----- over runs -----

  ghost predicate TakesEffect(book: Book, negative: set<nat>, constrained: bool, a: Action) {
    var after := Perform(book, negative, a);
    after.Some? && (constrained ==> Disjoint(after.value.requests))
  }

  /** The deciding approvals a request has had: for each, whether its type asked for HR. */
  ghost function Passed(negative: set<nat>, constrained: bool, actions: seq<Action>, id: nat): seq<bool> {
    if |actions| == 0 then []
    else
      var front, a := actions[..|actions| - 1], actions[|actions| - 1];
      Passed(negative, constrained, front, id)
      + if a.Approval? && a.id == id && a.mayDecide && TakesEffect(Run(negative, constrained, front), negative,
                                                                   constrained, a) then [a.needsHR] else []
  }

  /** Whether its submission found a manager to start with. */
  ghost predicate Managed(negative: set<nat>, constrained: bool, actions: seq<Action>, id: nat) {
    |actions| > 0 &&
    var front, a := actions[..|actions| - 1], actions[|actions| - 1];
    if a.Submission? && a.id == id && TakesEffect(Run(negative, constrained, front), negative, constrained, a)
    then a.manager else Managed(negative, constrained, front, id)
  }

  /** How far a request of each status has come along its chain. */
  predicate OnChain(s: Status, managed: bool, passed: seq<bool>) {
    match s
    case Draft => passed == []
    case Submitted => false
    case PendingManager => managed && passed == []
    case PendingHR => if managed then passed == [true] else passed == []
    case Approved =>
      if managed then passed == [false] || (|passed| == 2 && passed[0]) else |passed| == 1
    case _ => true
  }

  /** A request stands where its approvals have brought it; one not yet made has had none. */
  ghost predicate ChainKept(negative: set<nat>, constrained: bool, actions: seq<Action>, id: nat) {
    var requests, passed := Run(negative, constrained, actions).requests, Passed(negative, constrained, actions, id);
    if id < |requests| then OnChain(requests[id].status, Managed(negative, constrained, actions, id), passed)
    else passed == []
  }

  /** One action, as far as one request is concerned. */
  lemma OneActionKeepsChain(book: Book, negative: set<nat>, a: Action, id: nat, managed: bool, passed: seq<bool>)
    requires Perform(book, negative, a).Some?
    requires if id < |book.requests| then OnChain(book.requests[id].status, managed, passed) else passed == []
    ensures var after := Perform(book, negative, a).value.requests;
            var more := passed + if a.Approval? && a.id == id && a.mayDecide then [a.needsHR] else [];
            var managed' := if a.Submission? && a.id == id then a.manager else managed;
            if id < |after| then OnChain(after[id].status, managed', more) else more == []
  {
    match a
    case Approval(target, may, hr) => ApprovalStepIff(book, negative, target, may, hr);
    case _ =>
  }

  lemma {:induction false} ChainIsKept(negative: set<nat>, constrained: bool, actions: seq<Action>, id: nat)
    ensures ChainKept(negative, constrained, actions, id)
  {
    if |actions| > 0 {
      var front, a := actions[..|actions| - 1], actions[|actions| - 1];
      ChainIsKept(negative, constrained, front, id);
      var before := Run(negative, constrained, front);
      if TakesEffect(before, negative, constrained, a) {
        OneActionKeepsChain(before, negative, a, id, Managed(negative, constrained, front, id),
                            Passed(negative, constrained, front, id));
      }
    }
  }

  /** On every run an approved request was passed by exactly the deciding approvals its chain
      asks for since its submission: one, or two when a manager was there to start with and
      the type asked for HR when the manager passed it. */
  lemma ApprovedWasPassed(negative: set<nat>, constrained: bool, actions: seq<Action>, id: nat)
    requires id < |Run(negative, constrained, actions).requests|
    requires Run(negative, constrained, actions).requests[id].status == Approved
    ensures var passed := Passed(negative, constrained, actions, id);
            |passed| > 0
            && |passed| == if Managed(negative, constrained, actions, id) && passed[0] then 2 else 1
  {
    ChainIsKept(negative, constrained, actions, id);
  }

  /** Nobody's leave has been taken. */
  ghost predicate NothingTaken(book: Book) {
    && (forall i :: 0 <= i < |book.requests| ==> book.requests[i].status != Approved && !book.requests[i].applied)
    && (forall key :: Row(book, key).taken == 0)
  }

  lemma UndecidedTakesNothing(book: Book, negative: set<nat>, a: Action)
    requires NothingTaken(book) && (a.Approval? ==> !a.mayDecide) && Perform(book, negative, a).Some?
    ensures NothingTaken(Perform(book, negative, a).value)
  {
    var after := Perform(book, negative, a).value;
    forall key ensures Row(after, key).taken == 0 {
      assert Row(book, key).taken == 0;
    }
  }

  /** On a run in which nobody who may decide approves anything, nothing is ever approved
      and no balance has a day taken. */
  lemma {:induction false} NothingApprovedWithoutAuthority(negative: set<nat>, constrained: bool, actions: seq<Action>)
    requires forall n :: 0 <= n < |actions| && actions[n].Approval? ==> !actions[n].mayDecide
    ensures NothingTaken(Run(negative, constrained, actions))
  {
    if |actions| > 0 {
      var front, a := actions[..|actions| - 1], actions[|actions| - 1];
      NothingApprovedWithoutAuthority(negative, constrained, front);
      if Perform(Run(negative, constrained, front), negative, a).Some? {
        UndecidedTakesNothing(Run(negative, constrained, front), negative, a);
      }
    }
  }
}
