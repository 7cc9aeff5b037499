/** The bypass: what platform_admin_context and cross_tenant_lookup open up, and when the
    session has it. */
module TenancyBypass {
  import opened Money
  import opened Tenancy

  /** Opens no context manager of its own. */
  predicate Flat(p: Program) {
    match p
    case Then(a, b) => Flat(a) && Flat(b)
    case Branch(_, yes, no) => Flat(yes) && Flat(no)
    case Catch(body) => Flat(body)
    case TenantContext(_, _, _) => false
    case PlatformAdmin(_) => false
    case CrossTenantLookup(_) => false
    case _ => true
  }

  ghost predicate RunUnder(before: seq<Event>, after: seq<Event>, context: Context, session: Session) {
    && before <= after
    && forall i :: |before| <= i < |after| ==> after[i].context == context && after[i].session == session
  }

  /** A program that opens no block runs under the settings it was started with, down to
      the last query. */
  lemma {:induction false} FlatKeepsSettings(p: Program, s: State, inTransaction: bool, open: nat)
    requires Flat(p)
    ensures var after := Eval(p, s, inTransaction, open).0;
            && after.session == s.session && RunUnder(s.trace, after.trace, s.context, s.session)
    decreases p
  {
    ContextIsRestored(p, s, inTransaction, open);
    match p
    case Then(a, b) =>
      FlatKeepsSettings(a, s, inTransaction, open);
      ContextIsRestored(a, s, inTransaction, open);
      FlatKeepsSettings(b, Eval(a, s, inTransaction, open).0, inTransaction, open);
    case Branch(test, yes, no) =>
      FlatKeepsSettings(yes, Read(s, open), inTransaction, open);
      FlatKeepsSettings(no, Read(s, open), inTransaction, open);
    case Catch(body) => FlatKeepsSettings(body, s, inTransaction, open);
    case _ =>
  }

  // ----- inside a block -----

  function BodyOf(p: Program): Program
    requires IsBlock(p)
  {
    match p
    case TenantContext(_, _, body) => body
    case PlatformAdmin(body) => body
    case CrossTenantLookup(body) => body
  }

  /** The tenant both layers are on inside, and whether row-level security is lifted. */
  function SettingsInside(p: Program, s: State): (Context, Session)
    requires IsBlock(p)
  {
    match p
    case TenantContext(tenant, user, _) => (Context(tenant, user, s.context.bypass), Session(tenant, false))
    case PlatformAdmin(_) => (s.context.(bypass := true), Session(s.context.tenant, true))
    case CrossTenantLookup(_) => (s.context, Session(s.context.tenant, true))
  }

  function Inside(p: Program, s: State): State
    requires IsBlock(p)
  {
    State(SettingsInside(p, s).0, SettingsInside(p, s).1, s.rows, s.aborted, s.trace)
  }

  /** What the body comes to before the block is left. */
  function Body(p: Program, s: State, open: nat): (State, Outcome)
    requires IsBlock(p)
  {
    Eval(BodyOf(p), Inside(p, s), true, if p.TenantContext? then open else open + 1)
  }

  lemma BlockRunsItsBody(p: Program, s: State, inTransaction: bool, open: nat)
    requires IsBlock(p) && !s.aborted
    ensures Eval(p, s, inTransaction, open).0.trace == Body(p, s, open).0.trace
  {}

  /** In a block that opens no other, every query runs with the bypass exactly when the block
      is one of the two that lift it, and on the tenant the block is for. */
  lemma BlockSettings(p: Program, s: State, inTransaction: bool, open: nat)
    requires IsBlock(p) && Flat(BodyOf(p)) && !s.aborted
    ensures var after := Eval(p, s, inTransaction, open).0;
            && s.trace <= after.trace
            && forall i :: |s.trace| <= i < |after.trace| ==>
                 && (after.trace[i].session.bypass <==> p.PlatformAdmin? || p.CrossTenantLookup?)
                 && after.trace[i].session.tenant == after.trace[i].context.tenant
                    == if p.TenantContext? then p.tenant else s.context.tenant
  {
    BlockRunsItsBody(p, s, inTransaction, open);
    FlatKeepsSettings(BodyOf(p), Inside(p, s), true, if p.TenantContext? then open else open + 1);
  }

  // ----- what the bypass shows -----

  lemma {:induction false} NothingFilteredUnderBypass(rows: seq<Row>, session: Session)
    requires session.bypass
    ensures Filter(rows, None, session) == rows
  {
    if |rows| > 0 {
      var front, r := rows[..|rows| - 1], rows[|rows| - 1];
      NothingFilteredUnderBypass(front, session);
      assert rows == front + [r];
    }
  }

  /** The question asked at login, before any tenant is known: both blocks show every row
      of every tenant. */
  lemma BypassSeesEverything(p: Program, s: State, inTransaction: bool, open: nat)
    requires !s.aborted && (p == PlatformAdmin(ReadAllTenants) || p == CrossTenantLookup(ReadAllTenants))
    ensures var (after, o) := Eval(p, s, inTransaction, open);
            && o == Normal && after.rows == s.rows && |after.trace| == |s.trace| + 1
            && after.trace[|s.trace|].seen == s.rows && after.trace[|s.trace|].session.bypass
  {
    var inside := Inside(p, s);
    NothingFilteredUnderBypass(inside.rows, inside.session);
    assert Eval(ReadAllTenants, inside, true, open + 1)
        == (inside.(trace := s.trace + [Event(false, inside.context, inside.session, open + 1, s.rows)]), Normal);
  }

  /** A query that saw all there was to see: every row, or through the manager every row of
      the ContextVar's tenant. */
  ghost predicate SawAll(e: Event, rows: seq<Row>) {
    if !e.viaManager then e.seen == rows
    else if e.context.tenant.None? then e.seen == [] else e.seen == OfTenant(rows, e.context.tenant.value)
  }

  /** Every new query saw all of the table as it stood at some point on the way. */
  ghost predicate ReadsWereFull(s: State, after: State) {
    && s.trace <= after.trace && SameOwners(s.rows, after.rows)
    && forall i :: |s.trace| <= i < |after.trace| ==> FullRead(s.rows, after.rows, after.trace[i])
  }

  ghost predicate FullRead(before: seq<Row>, after: seq<Row>, e: Event) {
    exists rows :: SameOwners(before, rows) && SameOwners(rows, after) && SawAll(e, rows)
  }

  lemma FullReadsCompose(s: State, s1: State, s2: State)
    requires ReadsWereFull(s, s1) && ReadsWereFull(s1, s2)
    ensures ReadsWereFull(s, s2)
  {
    forall i | |s.trace| <= i < |s2.trace| ensures FullRead(s.rows, s2.rows, s2.trace[i]) {
      if i < |s1.trace| {
        assert s2.trace[i] == s1.trace[i] && FullRead(s.rows, s1.rows, s1.trace[i]);
        var rows :| SameOwners(s.rows, rows) && SameOwners(rows, s1.rows) && SawAll(s1.trace[i], rows);
        assert SameOwners(rows, s2.rows);
      } else {
        assert FullRead(s1.rows, s2.rows, s2.trace[i]);
        var rows :| SameOwners(s1.rows, rows) && SameOwners(rows, s2.rows) && SawAll(s2.trace[i], rows);
        assert SameOwners(s.rows, rows);
      }
    }
  }

  lemma ManagerReadIsFull(s: State, open: nat)
    requires s.session.bypass
    ensures ReadsWereFull(s, Read(s, open))
  {
    if s.context.tenant.Some? {
      ReadIsCompleteIff(s.rows, s.context, s.session);
    }
    assert SameOwners(s.rows, s.rows) && SawAll(Read(s, open).trace[|s.trace|], s.rows);
  }

  /** Whatever a bypass block's body reads, writes and decides, as long as it opens no block
      of its own no query of it is cut short by row-level security. */
  lemma {:induction false} FlatReadsAreFull(p: Program, s: State, inTransaction: bool, open: nat)
    requires Flat(p) && s.session.bypass
    ensures ReadsWereFull(s, Eval(p, s, inTransaction, open).0)
    decreases p
  {
    match p
    case ReadObjects => ManagerReadIsFull(s, open);
    case ReadAllTenants =>
      NothingFilteredUnderBypass(s.rows, s.session);
      var e := Event(false, s.context, s.session, open, s.rows);
      assert SameOwners(s.rows, s.rows) && SawAll(e, s.rows);
    case SaveFrom(_) =>
      ManagerReadIsFull(s, open);
      var after := Eval(p, s, inTransaction, open).0;
      assert ReadsWereFull(Read(s, open), after.(trace := Read(s, open).trace));
      FullReadsCompose(s, Read(s, open), after.(trace := Read(s, open).trace));
    case Branch(test, yes, no) =>
      if !(s.aborted && s.context.tenant.Some?) {
        ManagerReadIsFull(s, open);
        FlatReadsAreFull(yes, Read(s, open), inTransaction, open);
        FlatReadsAreFull(no, Read(s, open), inTransaction, open);
        FullReadsCompose(s, Read(s, open), Eval(p, s, inTransaction, open).0);
      }
    case Then(a, b) =>
      FlatKeepsSettings(a, s, inTransaction, open);
      FlatReadsAreFull(a, s, inTransaction, open);
      var s1 := Eval(a, s, inTransaction, open).0;
      FlatReadsAreFull(b, s1, inTransaction, open);
      FullReadsCompose(s, s1, Eval(b, s1, inTransaction, open).0);
    case Catch(body) => FlatReadsAreFull(body, s, inTransaction, open);
    case _ =>
  }

  /** So in a bypass block every query sees all of the table as it stands. */
  lemma BypassReadsAreFull(p: Program, s: State, inTransaction: bool, open: nat)
    requires (p.PlatformAdmin? || p.CrossTenantLookup?) && Flat(BodyOf(p)) && !s.aborted
    ensures var after := Eval(p, s, inTransaction, open).0;
            && s.trace <= after.trace
            && forall i :: |s.trace| <= i < |after.trace| ==>
                 exists rows :: SameOwners(s.rows, rows) && SawAll(after.trace[i], rows)
  {
    BlockRunsItsBody(p, s, inTransaction, open);
    FlatReadsAreFull(BodyOf(p), Inside(p, s), true, open + 1);
    var after := Eval(p, s, inTransaction, open).0;
    forall i | |s.trace| <= i < |after.trace|
      ensures exists rows :: SameOwners(s.rows, rows) && SawAll(after.trace[i], rows)
    {
      assert FullRead(s.rows, Body(p, s, open).0.rows, after.trace[i]);
    }
  }

  /** A save goes through exactly when it has an owner and the session is on that tenant or
      has the bypass; then the row is the last of the table. */
  lemma SaveGoesThroughIff(s: State, tenant: Option<TenantId>, data: int, inTransaction: bool, open: nat)
    requires !s.aborted
    ensures var (after, o) := Eval(Save(tenant, data), s, inTransaction, open);
            var owner := if tenant.Some? then tenant else s.context.tenant;
            && (o == Normal <==> owner.Some? && (s.session.tenant == owner || s.session.bypass))
            && (o == Normal ==> after.rows == s.rows + [Row(owner.value, data)])
            && (o == Raised ==> after.rows == s.rows)
  {}

  // ----- how long it lasts -----

  /** No block that p ran was left standing: each was refused, raised, or was undone. */
  predicate NoneStands(p: Program, s: State, open: nat)
    decreases p
  {
    match p
    case Then(a, b) =>
      var (s1, o) := Eval(a, s, true, open);
      NoneStands(a, s, open) && (o == Raised || NoneStands(b, s1, open))
    case Branch(test, yes, no) =>
      (s.aborted && s.context.tenant.Some?)
      || if test(Objects(s.rows, s.context, s.session)) then NoneStands(yes, Read(s, open), open)
         else NoneStands(no, Read(s, open), open)
    case Catch(body) => NoneStands(body, s, open)
    case _ => IsBlock(p) ==> s.aborted || Body(p, s, open).1 == Raised || Body(p, s, open).0.aborted
  }

  lemma BlockEndsBypassIff(p: Program, s: State, open: nat)
    requires IsBlock(p) && (s.session.bypass ==> open > 0)
    ensures NoneStands(p, s, open) ==> Eval(p, s, true, open).0.session == s.session
    ensures !NoneStands(p, s, open) ==> !Eval(p, s, true, open).0.session.bypass
  {
    if p.TenantContext? {
      EveryReadIsSafe(p.body, Inside(p, s), true, open);
    }
  }

  /** Inside a transaction the bypass outlives whatever has run since exactly when no block
      was left standing in between. */
  lemma {:induction false} BypassLastsIff(p: Program, s: State, open: nat)
    requires s.session.bypass ==> open > 0
    ensures Eval(p, s, true, open).0.session.bypass <==> s.session.bypass && NoneStands(p, s, open)
    ensures NoneStands(p, s, open) ==> Eval(p, s, true, open).0.session == s.session
    decreases p
  {
    match p
    case Then(a, b) =>
      var s1 := Eval(a, s, true, open).0;
      BypassLastsIff(a, s, open);
      BypassLastsIff(b, s1, open);
    case Branch(test, yes, no) =>
      BypassLastsIff(yes, Read(s, open), open);
      BypassLastsIff(no, Read(s, open), open);
    case Catch(body) => BypassLastsIff(body, s, open);
    case _ =>
      if IsBlock(p) {
        BlockEndsBypassIff(p, s, open);
      }
  }

  /** So the rest of a bypass block has it exactly then. */
  lemma RestHasBypassIff(first: Program, rest: Program, s: State, open: nat)
    requires Flat(rest) && s.session.bypass && open > 0
    ensures var s1, after := Eval(first, s, true, open).0, Eval(Then(first, rest), s, true, open).0;
            && s1.trace <= after.trace
            && forall i :: |s1.trace| <= i < |after.trace| ==>
                 (after.trace[i].session.bypass <==> NoneStands(first, s, open))
  {
    var s1 := Eval(first, s, true, open).0;
    BypassLastsIff(first, s, open);
    FlatKeepsSettings(rest, s1, true, open);
  }
}
