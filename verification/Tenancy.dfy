/** Tenant context on both layers: the ContextVars the ORM reads and the session
    variables row-level security reads, with savepoints and SET LOCAL. */
module Tenancy {
  import opened Money

  type TenantId = nat

  datatype Row = Row(tenant: TenantId, data: int)
  datatype Context = Context(tenant: Option<TenantId>, user: Option<nat>, bypass: bool)
  datatype Session = Session(tenant: Option<TenantId>, bypass: bool)

  /** What one query saw, and under which settings it ran. */
  datatype Event = Event(viaManager: bool, context: Context, session: Session, openBypass: nat, seen: seq<Row>)

  /** `aborted`: a statement failed and the transaction only accepts a rollback. */
  datatype State = State(context: Context, session: Session, rows: seq<Row>, aborted: bool, trace: seq<Event>)

  datatype Outcome = Normal | Raised

  /** What a job may do. `Branch`, `SaveFrom` and `Update` act on what the default
      manager returns: decide by it, store something made from it, change it in place. */
  datatype Program =
    | Skip
    | ReadObjects
    | ReadAllTenants
    | Branch(test: seq<Row> -> bool, yes: Program, no: Program)
    | Save(tenant: Option<TenantId>, data: int)
    | SaveFrom(make: seq<Row> -> int)
    | Update(change: Row -> int)
    | Raise
    | Then(first: Program, second: Program)
    | Catch(body: Program)
    | TenantContext(tenant: Option<TenantId>, user: Option<nat>, body: Program)
    | PlatformAdmin(body: Program)
    | CrossTenantLookup(body: Program)

  predicate IsBlock(p: Program) {
    p.TenantContext? || p.PlatformAdmin? || p.CrossTenantLookup?
  }

  predicate IsStatement(p: Program) { !IsBlock(p) && !p.Then? && !p.Branch? && !p.Catch? }

  /** The policy predicate, for reads and for the WITH CHECK of writes. */
  predicate Visible(s: Session, r: Row) {
    s.tenant == Some(r.tenant) || s.bypass
  }

  function Filter(rows: seq<Row>, tenant: Option<TenantId>, session: Session): seq<Row> {
    if |rows| == 0 then []
    else
      var r := rows[|rows| - 1];
      Filter(rows[..|rows| - 1], tenant, session)
      + if (tenant.None? || tenant.value == r.tenant) && Visible(session, r) then [r] else []
  }

  /** TenantManager: nothing without a tenant, else the tenant's rows that RLS admits. */
  function Objects(rows: seq<Row>, context: Context, session: Session): seq<Row> {
    if context.tenant.None? then [] else Filter(rows, context.tenant, session)
  }

  /** objects.update(): the rows the manager returns, changed where they stand. */
  function Changed(rows: seq<Row>, t: TenantId, session: Session, change: Row -> int): (r: seq<Row>)
    ensures |r| == |rows|
    ensures forall i :: 0 <= i < |rows| ==>
              r[i] == if rows[i].tenant == t && Visible(session, rows[i]) then Row(t, change(rows[i])) else rows[i]
  {
    if |rows| == 0 then []
    else
      var x := rows[|rows| - 1];
      Changed(rows[..|rows| - 1], t, session, change)
      + [if x.tenant == t && Visible(session, x) then Row(t, change(x)) else x]
  }

  function Read(s: State, open: nat): State {
    s.(trace := s.trace + [Event(true, s.context, s.session, open, Objects(s.rows, s.context, s.session))])
  }

  function Insert(s: State, tenant: Option<TenantId>, data: int, inTransaction: bool): (State, Outcome) {
    var owner := if tenant.Some? then tenant else s.context.tenant;
    if owner.None? || s.aborted then (s, Raised)
    else if Visible(s.session, Row(owner.value, data)) then (s.(rows := s.rows + [Row(owner.value, data)]), Normal)
    else (s.(aborted := inTransaction), Raised)
  }

  /** Leaving an atomic block: undo on an exception, otherwise keep; the outermost
      block also ends every SET LOCAL. A block in which a statement was refused is undone
      without an exception of its own when its body swallowed that one. */
  function Leave(before: State, after: State, o: Outcome, inTransaction: bool): (State, Outcome) {
    if o == Raised || after.aborted
    then (after.(session := before.session, rows := before.rows, aborted := before.aborted), o)
    else if inTransaction then (after, Normal)
    else (after.(session := before.session), Normal)
  }

  function Bind(s: State, tenant: Option<TenantId>, bypass: bool): State {
    s.(session := Session(tenant, bypass))
  }

  /** A block whose finally clause rebinds the session without the bypass. */
  function EndBypass(before: State, after: State, o: Outcome, inTransaction: bool): (State, Outcome) {
    if after.aborted then Leave(before, after, Raised, inTransaction)
    else Leave(before, Bind(after, after.context.tenant, false), o, inTransaction)
  }

  function Eval(p: Program, s: State, inTransaction: bool, open: nat): (State, Outcome)
    decreases p
  {
    match p
    case Skip => (s, Normal)
    case Raise => (s, Raised)
    case ReadObjects =>
      if s.aborted && s.context.tenant.Some? then (s, Raised)
      else (Read(s, open), Normal)
    case ReadAllTenants =>
      if s.aborted then (s, Raised)
      else (s.(trace := s.trace + [Event(false, s.context, s.session, open, Filter(s.rows, None, s.session))]), Normal)
    case Branch(test, yes, no) =>
      if s.aborted && s.context.tenant.Some? then (s, Raised)
      else if test(Objects(s.rows, s.context, s.session)) then Eval(yes, Read(s, open), inTransaction, open)
      else Eval(no, Read(s, open), inTransaction, open)
    case Save(tenant, data) => Insert(s, tenant, data, inTransaction)
    case SaveFrom(make) =>
      if s.aborted && s.context.tenant.Some? then (s, Raised)
      else Insert(Read(s, open), None, make(Objects(s.rows, s.context, s.session)), inTransaction)
    case Update(change) =>
      if s.context.tenant.None? then (s, Normal)
      else if s.aborted then (s, Raised)
      else (s.(rows := Changed(s.rows, s.context.tenant.value, s.session, change)), Normal)
    case Then(a, b) =>
      var (s1, o) := Eval(a, s, inTransaction, open);
      if o == Raised then (s1, Raised) else Eval(b, s1, inTransaction, open)
    case Catch(body) => (Eval(body, s, inTransaction, open).0, Normal)
    case TenantContext(tenant, user, body) =>
      if s.aborted then (s, Raised) else
      var bound := Bind(s.(context := Context(tenant, user, s.context.bypass)), tenant, false);
      var (s1, o) := Eval(body, bound, true, open);
      var (left, out) := Leave(s, s1, o, inTransaction);
      (left.(context := Context(s.context.tenant, s.context.user, left.context.bypass)), out)
    case PlatformAdmin(body) =>
      if s.aborted then (s, Raised) else
      var bound := Bind(s.(context := s.context.(bypass := true)), s.context.tenant, true);
      var (s1, o) := Eval(body, bound, true, open + 1);
      var (left, out) := EndBypass(s, s1, o, inTransaction);
      (left.(context := left.context.(bypass := s.context.bypass)), out)
    case CrossTenantLookup(body) =>
      if s.aborted then (s, Raised) else
      var (s1, o) := Eval(body, Bind(s, s.context.tenant, true), true, open + 1);
      EndBypass(s, s1, o, inTransaction)
  }

  // ----- what every program keeps -----

  /** The ContextVars on exit are those on entry, whatever was raised wherever. */
  lemma {:induction false} ContextIsRestored(p: Program, s: State, inTransaction: bool, open: nat)
    ensures Eval(p, s, inTransaction, open).0.context == s.context
    decreases p
  {
    match p
    case Then(a, b) =>
      ContextIsRestored(a, s, inTransaction, open);
      ContextIsRestored(b, Eval(a, s, inTransaction, open).0, inTransaction, open);
    case Branch(test, yes, no) =>
      ContextIsRestored(yes, Read(s, open), inTransaction, open);
      ContextIsRestored(no, Read(s, open), inTransaction, open);
    case Catch(body) => ContextIsRestored(body, s, inTransaction, open);
    case TenantContext(tenant, user, body) =>
      ContextIsRestored(body, Bind(s.(context := Context(tenant, user, s.context.bypass)), tenant, false), true, open);
    case PlatformAdmin(body) =>
      ContextIsRestored(body, Bind(s.(context := s.context.(bypass := true)), s.context.tenant, true), true, open + 1);
    case CrossTenantLookup(body) => ContextIsRestored(body, Bind(s, s.context.tenant, true), true, open + 1);
    case _ =>
  }

  /** A read through the default manager returns only the ContextVar's tenant. */
  predicate ReadIsSafe(e: Event) {
    e.viaManager ==> forall i :: 0 <= i < |e.seen| ==> e.context.tenant == Some(e.seen[i].tenant)
  }

  /** The session can see across tenants only inside an open bypass block. */
  predicate BypassIsInside(e: Event) {
    e.session.bypass ==> e.openBypass > 0
  }

  lemma {:induction false} FilterIsSafe(rows: seq<Row>, tenant: Option<TenantId>, session: Session)
    requires tenant.Some?
    ensures forall i :: 0 <= i < |Filter(rows, tenant, session)| ==>
            tenant == Some(Filter(rows, tenant, session)[i].tenant)
  {
    if |rows| > 0 {
      FilterIsSafe(rows[..|rows| - 1], tenant, session);
    }
  }

  ghost predicate NewEventsSafe(before: seq<Event>, after: seq<Event>) {
    before <= after && forall i :: |before| <= i < |after| ==> ReadIsSafe(after[i]) && BypassIsInside(after[i])
  }

  lemma SafeEventsCompose(a: seq<Event>, b: seq<Event>, c: seq<Event>)
    requires NewEventsSafe(a, b) && NewEventsSafe(b, c)
    ensures NewEventsSafe(a, c)
  {
    forall i | |a| <= i < |c| ensures ReadIsSafe(c[i]) && BypassIsInside(c[i]) {
      if i < |b| {
        assert ReadIsSafe(b[i]) && BypassIsInside(b[i]);
      }
    }
  }

  lemma ReadEventIsSafe(s: State, open: nat)
    requires s.session.bypass ==> open > 0
    ensures NewEventsSafe(s.trace, Read(s, open).trace)
  {
    if s.context.tenant.Some? {
      FilterIsSafe(s.rows, s.context.tenant, s.session);
    }
  }

  /** In every program, with exceptions anywhere: every manager read is safe, and the
      bypass is on only inside a bypass block and is off again afterwards. */
  lemma {:induction false} EveryReadIsSafe(p: Program, s: State, inTransaction: bool, open: nat)
    requires s.session.bypass ==> open > 0
    ensures NewEventsSafe(s.trace, Eval(p, s, inTransaction, open).0.trace)
    ensures Eval(p, s, inTransaction, open).0.session.bypass ==> s.session.bypass
    decreases p, 1
  {
    match p
    case ReadObjects => ReadEventIsSafe(s, open);
    case SaveFrom(_) => ReadEventIsSafe(s, open);
    case Branch(test, yes, no) =>
      ReadEventIsSafe(s, open);
      EveryReadIsSafe(yes, Read(s, open), inTransaction, open);
      EveryReadIsSafe(no, Read(s, open), inTransaction, open);
      SafeEventsCompose(s.trace, Read(s, open).trace, Eval(yes, Read(s, open), inTransaction, open).0.trace);
      SafeEventsCompose(s.trace, Read(s, open).trace, Eval(no, Read(s, open), inTransaction, open).0.trace);
    case Then(a, b) =>
      EveryReadIsSafe(a, s, inTransaction, open);
      var s1 := Eval(a, s, inTransaction, open).0;
      EveryReadIsSafe(b, s1, inTransaction, open);
      SafeEventsCompose(s.trace, s1.trace, Eval(b, s1, inTransaction, open).0.trace);
    case Catch(body) => EveryReadIsSafe(body, s, inTransaction, open);
    case _ =>
      if IsBlock(p) {
        BlockReadsAreSafe(p, s, inTransaction, open);
      }
  }

  lemma {:induction false} BlockReadsAreSafe(p: Program, s: State, inTransaction: bool, open: nat)
    requires IsBlock(p) && (s.session.bypass ==> open > 0)
    ensures NewEventsSafe(s.trace, Eval(p, s, inTransaction, open).0.trace)
    ensures Eval(p, s, inTransaction, open).0.session.bypass ==> s.session.bypass
    decreases p, 0
  {
    match p
    case TenantContext(tenant, user, body) =>
      EveryReadIsSafe(body, Bind(s.(context := Context(tenant, user, s.context.bypass)), tenant, false), true, open);
    case PlatformAdmin(body) =>
      EveryReadIsSafe(body, Bind(s.(context := s.context.(bypass := true)), s.context.tenant, true), true, open + 1);
    case CrossTenantLookup(body) => EveryReadIsSafe(body, Bind(s, s.context.tenant, true), true, open + 1);
  }

  /** Rows stand where they stood, each with its owner, and new ones come after them. */
  ghost predicate SameOwners(before: seq<Row>, after: seq<Row>) {
    |before| <= |after| && forall i :: 0 <= i < |before| ==> after[i].tenant == before[i].tenant
  }

  /** No row is ever removed or changes hands, none changes at all where nothing is
      updated, and a raising context manager leaves every row as it was. */
  lemma {:induction false} RowsKeepTheirOwners(p: Program, s: State, inTransaction: bool, open: nat)
    ensures SameOwners(s.rows, Eval(p, s, inTransaction, open).0.rows)
    ensures NoUpdate(p) ==> s.rows <= Eval(p, s, inTransaction, open).0.rows
    ensures IsBlock(p)
            && Eval(p, s, inTransaction, open).1 == Raised ==>
              Eval(p, s, inTransaction, open).0.rows == s.rows && Eval(p, s, inTransaction, open).0.session == s.session
              && Eval(p, s, inTransaction, open).0.aborted == s.aborted
    decreases p
  {
    match p
    case Then(a, b) =>
      RowsKeepTheirOwners(a, s, inTransaction, open);
      RowsKeepTheirOwners(b, Eval(a, s, inTransaction, open).0, inTransaction, open);
    case Branch(test, yes, no) =>
      RowsKeepTheirOwners(yes, Read(s, open), inTransaction, open);
      RowsKeepTheirOwners(no, Read(s, open), inTransaction, open);
    case Catch(body) => RowsKeepTheirOwners(body, s, inTransaction, open);
    case TenantContext(tenant, user, body) =>
      var bound := Bind(s.(context := Context(tenant, user, s.context.bypass)), tenant, false);
      RowsKeepTheirOwners(body, bound, true, open);
    case PlatformAdmin(body) =>
      var bound := Bind(s.(context := s.context.(bypass := true)), s.context.tenant, true);
      RowsKeepTheirOwners(body, bound, true, open + 1);
    case CrossTenantLookup(body) => RowsKeepTheirOwners(body, Bind(s, s.context.tenant, true), true, open + 1);
    case _ =>
  }

  predicate NoUpdate(p: Program) {
    match p
    case Then(a, b) => NoUpdate(a) && NoUpdate(b)
    case Branch(_, yes, no) => NoUpdate(yes) && NoUpdate(no)
    case Catch(body) => NoUpdate(body)
    case TenantContext(_, _, body) => NoUpdate(body)
    case PlatformAdmin(body) => NoUpdate(body)
    case CrossTenantLookup(body) => NoUpdate(body)
    case Update(_) => false
    case _ => true
  }

  /** Every context manager entered outside a transaction leaves the session as found. */
  lemma OutermostBlockRestoresSession(p: Program, s: State, open: nat)
    requires IsBlock(p)
    ensures Eval(p, s, false, open).0.session == s.session && Eval(p, s, false, open).0.aborted == s.aborted
  {}

  // ----- when the two layers agree -----

  /** No tenant_context for another tenant inside. */
  predicate OneTenant(p: Program, t: TenantId) {
    match p
    case Then(a, b) => OneTenant(a, t) && OneTenant(b, t)
    case Branch(_, yes, no) => OneTenant(yes, t) && OneTenant(no, t)
    case Catch(body) => OneTenant(body, t)
    case TenantContext(tenant, _, body) => tenant == Some(t) && OneTenant(body, t)
    case PlatformAdmin(body) => OneTenant(body, t)
    case CrossTenantLookup(body) => OneTenant(body, t)
    case _ => true
  }

  predicate Agree(context: Context, session: Session, t: TenantId) {
    context.tenant == Some(t) && session.tenant == Some(t)
  }

  ghost predicate EventsAgree(before: seq<Event>, after: seq<Event>, t: TenantId) {
    before <= after && forall i :: |before| <= i < |after| ==> Agree(after[i].context, after[i].session, t)
  }

  lemma EventsAgreeCompose(a: seq<Event>, b: seq<Event>, c: seq<Event>, t: TenantId)
    requires EventsAgree(a, b, t) && EventsAgree(b, c, t)
    ensures EventsAgree(a, c, t)
  {
    forall i | |a| <= i < |c| ensures Agree(c[i].context, c[i].session, t) {
      if i < |b| {
        assert Agree(b[i].context, b[i].session, t);
      }
    }
  }

  /** Without such nesting the layers agree at every query and afterwards. */
  lemma {:induction false} LayersAgree(p: Program, s: State, inTransaction: bool, open: nat, t: TenantId)
    requires OneTenant(p, t) && Agree(s.context, s.session, t)
    ensures Agree(Eval(p, s, inTransaction, open).0.context, Eval(p, s, inTransaction, open).0.session, t)
    ensures EventsAgree(s.trace, Eval(p, s, inTransaction, open).0.trace, t)
    decreases p, 1
  {
    match p
    case Then(a, b) =>
      LayersAgree(a, s, inTransaction, open, t);
      var s1 := Eval(a, s, inTransaction, open).0;
      LayersAgree(b, s1, inTransaction, open, t);
      EventsAgreeCompose(s.trace, s1.trace, Eval(b, s1, inTransaction, open).0.trace, t);
    case Branch(test, yes, no) =>
      LayersAgree(yes, Read(s, open), inTransaction, open, t);
      LayersAgree(no, Read(s, open), inTransaction, open, t);
      EventsAgreeCompose(s.trace, Read(s, open).trace, Eval(yes, Read(s, open), inTransaction, open).0.trace, t);
      EventsAgreeCompose(s.trace, Read(s, open).trace, Eval(no, Read(s, open), inTransaction, open).0.trace, t);
    case Catch(body) => LayersAgree(body, s, inTransaction, open, t);
    case _ =>
      if IsBlock(p) {
        LayersAgreeAround(p, s, inTransaction, open, t);
      }
  }

  lemma {:induction false} LayersAgreeAround(p: Program, s: State, inTransaction: bool, open: nat, t: TenantId)
    requires IsBlock(p) && OneTenant(p, t) && Agree(s.context, s.session, t)
    ensures Agree(Eval(p, s, inTransaction, open).0.context, Eval(p, s, inTransaction, open).0.session, t)
    ensures EventsAgree(s.trace, Eval(p, s, inTransaction, open).0.trace, t)
    decreases p, 0
  {
    match p
    case TenantContext(tenant, user, body) =>
      LayersAgree(body, Bind(s.(context := Context(tenant, user, s.context.bypass)), tenant, false), true, open, t);
    case PlatformAdmin(body) =>
      LayersAgree(body, Bind(s.(context := s.context.(bypass := true)), s.context.tenant, true), true, open + 1, t);
    case CrossTenantLookup(body) => LayersAgree(body, Bind(s, s.context.tenant, true), true, open + 1, t);
  }

  function OfTenant(rows: seq<Row>, t: TenantId): seq<Row> {
    if |rows| == 0 then []
    else OfTenant(rows[..|rows| - 1], t) + if rows[|rows| - 1].tenant == t then [rows[|rows| - 1]] else []
  }

  /** A manager read is complete exactly when the layers agree, the bypass is on, or
      the tenant has no rows; otherwise it is empty. */
  lemma {:induction false} ReadIsCompleteIff(rows: seq<Row>, context: Context, session: Session)
    requires context.tenant.Some?
    ensures var t := context.tenant.value;
            && (Objects(rows, context, session) == OfTenant(rows, t) <==>
                  session.tenant == Some(t) || session.bypass || OfTenant(rows, t) == [])
            && (session.tenant != Some(t) && !session.bypass ==> Objects(rows, context, session) == [])
  {
    if |rows| > 0 {
      ReadIsCompleteIff(rows[..|rows| - 1], context, session);
    }
  }

  /** A tenant_context that closes normally inside a transaction leaves its tenant
      on the session and takes it off the ContextVar. */
  lemma NestedBlockLeavesSession(s: State, open: nat, u: TenantId)
    requires !s.aborted
    ensures Eval(TenantContext(Some(u), None, Skip), s, true, open) == (Bind(s, Some(u), false), Normal)
  {
    var bound := Bind(s.(context := Context(Some(u), None, s.context.bypass)), Some(u), false);
    assert Eval(Skip, bound, true, open) == (bound, Normal);
  }

  /** So the outer block then reads all of its own rows exactly when the inner
      tenant was the same, or there is nothing to read. */
  lemma NestedContextHidesOuterRows(s: State, inTransaction: bool, open: nat, t: TenantId, u: TenantId)
    requires !s.aborted
    ensures var body := Then(TenantContext(Some(u), None, Skip), ReadObjects);
            var s' := Eval(TenantContext(Some(t), None, body), s, inTransaction, open).0;
            && |s'.trace| == |s.trace| + 1
            && (s'.trace[|s.trace|].seen == OfTenant(s.rows, t) <==> (u == t || OfTenant(s.rows, t) == []))
  {
    var body := Then(TenantContext(Some(u), None, Skip), ReadObjects);
    var bound := Bind(s.(context := Context(Some(t), None, s.context.bypass)), Some(t), false);
    var inner := Bind(bound, Some(u), false);
    NestedBlockLeavesSession(bound, open, u);
    assert Eval(body, bound, true, open) == Eval(ReadObjects, inner, true, open);
    ReadIsCompleteIff(s.rows, inner.context, inner.session);
  }

  /** A context manager inside a bypass block ends the bypass early: the rest of the
      block runs under ordinary row-level security. */
  lemma NestedContextEndsBypass(s: State, inTransaction: bool, open: nat, t: TenantId)
    requires !s.aborted
    ensures var body := Then(TenantContext(Some(t), None, Skip), ReadAllTenants);
            var s' := Eval(PlatformAdmin(body), s, inTransaction, open).0;
            |s'.trace| == |s.trace| + 1 && s'.trace[|s.trace|].session == Session(Some(t), false)
  {
    var body := Then(TenantContext(Some(t), None, Skip), ReadAllTenants);
    var bound := Bind(s.(context := s.context.(bypass := true)), s.context.tenant, true);
    NestedBlockLeavesSession(bound, open + 1, t);
    assert Eval(body, bound, true, open + 1) == Eval(ReadAllTenants, Bind(bound, Some(t), false), true, open + 1);
  }

  predicate NoBypass(p: Program) {
    match p
    case Then(a, b) => NoBypass(a) && NoBypass(b)
    case Branch(_, yes, no) => NoBypass(yes) && NoBypass(no)
    case Catch(body) => NoBypass(body)
    case TenantContext(_, _, body) => NoBypass(body)
    case PlatformAdmin(_) => false
    case CrossTenantLookup(_) => false
    case _ => true
  }

  /** Rows of other tenants as they were, and every new row the tenant's own. */
  ghost predicate OnlyFor(t: TenantId, before: seq<Row>, after: seq<Row>) {
    && SameOwners(before, after)
    && (forall i :: 0 <= i < |before| && before[i].tenant != t ==> after[i] == before[i])
    && (forall i :: |before| <= i < |after| ==> after[i].tenant == t)
  }

  lemma OnlyForComposes(t: TenantId, a: seq<Row>, b: seq<Row>, c: seq<Row>)
    requires OnlyFor(t, a, b) && OnlyFor(t, b, c)
    ensures OnlyFor(t, a, c)
  {
    forall i | |a| <= i < |c| ensures c[i].tenant == t {
      assert i < |b| ==> b[i].tenant == t;
    }
  }

  /** Work bound to one tenant, without a bypass, adds and changes that tenant's rows only. */
  lemma {:induction false} OnlyOwnRowsWritten(p: Program, s: State, inTransaction: bool, open: nat, t: TenantId)
    requires OneTenant(p, t) && NoBypass(p) && Agree(s.context, s.session, t) && !s.session.bypass
    ensures OnlyFor(t, s.rows, Eval(p, s, inTransaction, open).0.rows)
    ensures !Eval(p, s, inTransaction, open).0.session.bypass
    decreases p, 1
  {
    match p
    case Then(a, b) =>
      LayersAgree(a, s, inTransaction, open, t);
      OnlyOwnRowsWritten(a, s, inTransaction, open, t);
      var s1 := Eval(a, s, inTransaction, open).0;
      OnlyOwnRowsWritten(b, s1, inTransaction, open, t);
      OnlyForComposes(t, s.rows, s1.rows, Eval(b, s1, inTransaction, open).0.rows);
    case Branch(test, yes, no) =>
      OnlyOwnRowsWritten(yes, Read(s, open), inTransaction, open, t);
      OnlyOwnRowsWritten(no, Read(s, open), inTransaction, open, t);
    case Catch(body) => OnlyOwnRowsWritten(body, s, inTransaction, open, t);
    case TenantContext(_, _, _) => BlockWritesOwnRows(p, s, inTransaction, open, t);
    case Save(tenant, data) => OwnInsert(s, tenant, data, inTransaction, t);
    case SaveFrom(make) =>
      OwnInsert(Read(s, open), None, make(Objects(s.rows, s.context, s.session)), inTransaction, t);
    case _ =>
  }

  lemma {:induction false} BlockWritesOwnRows(p: Program, s: State, inTransaction: bool, open: nat, t: TenantId)
    requires p.TenantContext? && OneTenant(p, t) && NoBypass(p) && !s.session.bypass
    ensures OnlyFor(t, s.rows, Eval(p, s, inTransaction, open).0.rows)
    ensures !Eval(p, s, inTransaction, open).0.session.bypass
    decreases p, 0
  {
    var bound := Bind(s.(context := Context(p.tenant, p.user, s.context.bypass)), p.tenant, false);
    OnlyOwnRowsWritten(p.body, bound, true, open, t);
  }

  lemma OwnInsert(s: State, tenant: Option<TenantId>, data: int, inTransaction: bool, t: TenantId)
    requires Agree(s.context, s.session, t) && !s.session.bypass
    ensures OnlyFor(t, s.rows, Insert(s, tenant, data, inTransaction).0.rows)
  {}
}
