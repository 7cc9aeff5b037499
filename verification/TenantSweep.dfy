/** The context managers run in place, and the per-tenant sweep built on them. */
module TenantSweep {
  import opened Money
  import opened Tenancy

  /** One worker: its ContextVars and its database session. */
  class Worker {
    var context: Context
    var session: Session
    var rows: seq<Row>
    var aborted: bool
    var trace: seq<Event>

    function Now(): State
      reads this
    {
      State(context, session, rows, aborted, trace)
    }

    constructor (rows: seq<Row>)
      ensures Now() == State(Context(None, None, false), Session(None, false), rows, false, [])
    {
      context, session, this.rows, aborted, trace := Context(None, None, false), Session(None, false), rows, false, [];
    }

    /** Savepoint release, rollback or commit. */
    method LeaveAtomic(savedSession: Session, savedRows: seq<Row>, savedAborted: bool, o: Outcome, inTransaction: bool)
      returns (out: Outcome)
      modifies this
      ensures forall before: State ::
                before.session == savedSession && before.rows == savedRows && before.aborted == savedAborted ==>
                (Now(), out) == Leave(before, old(Now()), o, inTransaction)
    {
      if o == Raised || aborted {
        session, rows, aborted := savedSession, savedRows, savedAborted;
        return o;
      }
      if !inTransaction {
        session := savedSession;
      }
      return Normal;
    }

    /** save(): the ContextVar's tenant unless one is set, subject to the write check. */
    method SaveRow(tenant: Option<TenantId>, data: int, inTransaction: bool) returns (out: Outcome)
      modifies this
      ensures (Now(), out) == Insert(old(Now()), tenant, data, inTransaction)
    {
      var owner := if tenant.Some? then tenant else context.tenant;
      if owner.None? || aborted {
        return Raised;
      }
      if !Visible(session, Row(owner.value, data)) {
        aborted := inTransaction;
        return Raised;
      }
      rows := rows + [Row(owner.value, data)];
      return Normal;
    }

    method Run(p: Program, inTransaction: bool, open: nat) returns (out: Outcome)
      modifies this
      ensures (Now(), out) == Eval(p, old(Now()), inTransaction, open)
      decreases p, 0
    {
      match p
      case Skip => return Normal;
      case Raise => return Raised;
      case ReadObjects =>
        if aborted && context.tenant.Some? {
          return Raised;
        }
        trace := trace + [Event(true, context, session, open, Objects(rows, context, session))];
        return Normal;
      case ReadAllTenants =>
        if aborted {
          return Raised;
        }
        trace := trace + [Event(false, context, session, open, Filter(rows, None, session))];
        return Normal;
      case Branch(test, yes, no) =>
        if aborted && context.tenant.Some? {
          return Raised;
        }
        var seen := Objects(rows, context, session);
        trace := trace + [Event(true, context, session, open, seen)];
        if test(seen) {
          out := Run(yes, inTransaction, open);
        } else {
          out := Run(no, inTransaction, open);
        }
      case Save(tenant, data) =>
        out := SaveRow(tenant, data, inTransaction);
      case SaveFrom(make) =>
        if aborted && context.tenant.Some? {
          return Raised;
        }
        var seen := Objects(rows, context, session);
        trace := trace + [Event(true, context, session, open, seen)];
        out := SaveRow(None, make(seen), inTransaction);
      case Update(change) =>
        if context.tenant.None? {
          return Normal;
        }
        if aborted {
          return Raised;
        }
        rows := Changed(rows, context.tenant.value, session, change);
        return Normal;
      case Then(first, second) =>
        out := Run(first, inTransaction, open);
        if out == Normal {
          out := Run(second, inTransaction, open);
        }
      case Catch(body) =>
        out := Run(body, inTransaction, open);
        return Normal;
      case TenantContext(tenant, user, body) =>
        if aborted {
          return Raised;
        }
        var savedSession, savedRows := session, rows;
        var tenantToken, userToken := context.tenant, context.user;
        context := context.(tenant := tenant, user := user);
        session := Session(tenant, false);
        out := Run(body, true, open);
        out := LeaveAtomic(savedSession, savedRows, false, out, inTransaction);
        context := context.(tenant := tenantToken, user := userToken);
      case PlatformAdmin(body) =>
        if aborted {
          return Raised;
        }
        var token := context.bypass;
        context := context.(bypass := true);
        out := Bypassing(body, inTransaction, open);
        context := context.(bypass := token);
      case CrossTenantLookup(body) =>
        if aborted {
          return Raised;
        }
        out := Bypassing(body, inTransaction, open);
    }

    /** atomic + bind(bypass on) + body + finally bind(bypass off). */
    method Bypassing(body: Program, inTransaction: bool, open: nat) returns (out: Outcome)
      requires !aborted
      modifies this
      ensures var before := old(Now());
              var (after, o) := Eval(body, Bind(before, before.context.tenant, true), true, open + 1);
              (Now(), out) == EndBypass(before, after, o, inTransaction)
      decreases body, 1
    {
      var savedSession, savedRows := session, rows;
      session := Session(context.tenant, true);
      out := Run(body, true, open + 1);
      if aborted {
        out := Raised;
      } else {
        session := Session(context.tenant, false);
      }
      out := LeaveAtomic(savedSession, savedRows, false, out, inTransaction);
    }

    /** for_each_tenant: one tenant's exception is counted, not propagated. */
    method ForEachTenant(ids: seq<TenantId>, job: TenantId -> Program) returns (tenants: nat, failures: nat)
      modifies this
      ensures (Now(), failures) == Sweep(ids, job, old(Now())) && tenants == |ids|
    {
      failures := 0;
      for i := 0 to |ids|
        invariant (Now(), failures) == Sweep(ids[..i], job, old(Now()))
      {
        assert ids[..i + 1][..i] == ids[..i];
        var out := Run(TenantContext(Some(ids[i]), None, job(ids[i])), false, 0);
        if out == Raised {
          failures := failures + 1;
        }
      }
      assert ids[..|ids|] == ids;
      tenants := |ids|;
    }
  }

  /** One tenant's job in its own tenant_context. */
  function Turn(id: TenantId, job: TenantId -> Program, s: State): (State, Outcome) {
    Eval(TenantContext(Some(id), None, job(id)), s, false, 0)
  }

  function Sweep(ids: seq<TenantId>, job: TenantId -> Program, s: State): (State, nat) {
    if |ids| == 0 then (s, 0)
    else
      var (s1, n) := Sweep(ids[..|ids| - 1], job, s);
      var (s2, o) := Turn(ids[|ids| - 1], job, s1);
      (s2, if o == Raised then n + 1 else n)
  }

  ghost predicate SameSettings(s: State, r: State) {
    s.context == r.context && s.session == r.session && s.aborted == r.aborted
  }

  lemma TurnKeepsSettings(id: TenantId, job: TenantId -> Program, s: State)
    ensures SameSettings(Turn(id, job, s).0, s)
    ensures Turn(id, job, s).1 == Raised ==> Turn(id, job, s).0.rows == s.rows
  {
    var p := TenantContext(Some(id), None, job(id));
    ContextIsRestored(p, s, false, 0);
    OutermostBlockRestoresSession(p, s, 0);
    RowsKeepTheirOwners(p, s, false, 0);
  }

  /** Whatever the jobs do, bypasses and foreign tenants included, the sweep hands the
      caller's settings back. */
  lemma {:induction false} SweepKeepsSettings(ids: seq<TenantId>, job: TenantId -> Program, s: State)
    ensures SameSettings(Sweep(ids, job, s).0, s)
  {
    if |ids| > 0 {
      var s1 := Sweep(ids[..|ids| - 1], job, s).0;
      SweepKeepsSettings(ids[..|ids| - 1], job, s);
      TurnKeepsSettings(ids[|ids| - 1], job, s1);
    }
  }

  // ----- isolation: a job depends on its own tenant's rows and on nothing else -----

  /** Bound to one tenant for good. */
  predicate Bound(p: Program, t: TenantId) { OneTenant(p, t) && NoBypass(p) }

  /** Alike to tenant t: the same settings and the same rows of t, whatever else is stored. */
  ghost predicate Twins(s: State, r: State, t: TenantId) {
    SameSettings(s, r) && OfTenant(s.rows, t) == OfTenant(r.rows, t)
  }

  function NewEvents(before: seq<Event>, after: seq<Event>): seq<Event>
    requires before <= after
  {
    after[|before|..]
  }

  ghost predicate SameNews(s: seq<Event>, s': seq<Event>, r: seq<Event>, r': seq<Event>) {
    s <= s' && r <= r' && NewEvents(s, s') == NewEvents(r, r')
  }

  lemma NewsCompose(s: seq<Event>, s1: seq<Event>, s2: seq<Event>, r: seq<Event>, r1: seq<Event>, r2: seq<Event>)
    requires SameNews(s, s1, r, r1) && SameNews(s1, s2, r1, r2)
    ensures SameNews(s, s2, r, r2)
  {
    assert NewEvents(s, s2) == NewEvents(s, s1) + NewEvents(s1, s2);
    assert NewEvents(r, r2) == NewEvents(r, r1) + NewEvents(r1, r2);
  }

  lemma OfTenantSnoc(rows: seq<Row>, x: Row, t: TenantId)
    ensures OfTenant(rows + [x], t) == OfTenant(rows, t) + if x.tenant == t then [x] else []
  {
    assert (rows + [x])[..|rows|] == rows;
  }

  /** What the session sees without a bypass is its tenant's rows. */
  lemma {:induction false} SessionSeesItsOwn(rows: seq<Row>, session: Session, t: TenantId)
    requires session == Session(Some(t), false)
    ensures Filter(rows, None, session) == OfTenant(rows, t) && Filter(rows, Some(t), session) == OfTenant(rows, t)
  {
    if |rows| > 0 {
      SessionSeesItsOwn(rows[..|rows| - 1], session, t);
    }
  }

  function Altered(rows: seq<Row>, t: TenantId, change: Row -> int): seq<Row> {
    if |rows| == 0 then []
    else Altered(rows[..|rows| - 1], t, change) + [Row(t, change(rows[|rows| - 1]))]
  }

  lemma AlteredSnoc(rows: seq<Row>, x: Row, t: TenantId, change: Row -> int)
    ensures Altered(rows + [x], t, change) == Altered(rows, t, change) + [Row(t, change(x))]
    ensures Altered(rows + [], t, change) == Altered(rows, t, change)
  {
    assert rows + [] == rows;
    assert (rows + [x])[..|rows|] == rows;
  }

  lemma {:induction false} ChangedOwn(rows: seq<Row>, session: Session, t: TenantId, change: Row -> int)
    requires session == Session(Some(t), false)
    ensures OfTenant(Changed(rows, t, session, change), t) == Altered(OfTenant(rows, t), t, change)
  {
    if |rows| > 0 {
      var front, x := rows[..|rows| - 1], rows[|rows| - 1];
      var y := if x.tenant == t then Row(t, change(x)) else x;
      ChangedOwn(front, session, t, change);
      assert Changed(rows, t, session, change) == Changed(front, t, session, change) + [y];
      OfTenantSnoc(Changed(front, t, session, change), y, t);
      AlteredSnoc(OfTenant(front, t), x, t, change);
    }
  }

  /** What an insert amounts to for a session without a bypass: the tenant's row, or nothing. */
  lemma InsertStoresOwn(s: State, tenant: Option<TenantId>, data: int, inTransaction: bool, t: TenantId)
    requires Agree(s.context, s.session, t) && !s.session.bypass
    ensures Insert(s, tenant, data, inTransaction)
         == if s.aborted then (s, Raised)
            else if tenant.None? || tenant.value == t then (s.(rows := s.rows + [Row(t, data)]), Normal)
            else (s.(aborted := inTransaction), Raised)
  {}

  lemma TwinsGrow(s: State, r: State, x: Row, t: TenantId)
    requires Twins(s, r, t)
    ensures Twins(s.(rows := s.rows + [x]), r.(rows := r.rows + [x]), t)
  {
    OfTenantSnoc(s.rows, x, t);
    OfTenantSnoc(r.rows, x, t);
  }

  lemma InsertIsolated(s: State, r: State, tenant: Option<TenantId>, data: int, inTransaction: bool, t: TenantId)
    requires Agree(s.context, s.session, t) && !s.session.bypass && Twins(s, r, t)
    ensures Insert(s, tenant, data, inTransaction).1 == Insert(r, tenant, data, inTransaction).1
    ensures Twins(Insert(s, tenant, data, inTransaction).0, Insert(r, tenant, data, inTransaction).0, t)
    ensures Insert(s, tenant, data, inTransaction).0.trace == s.trace
            && Insert(r, tenant, data, inTransaction).0.trace == r.trace
  {
    InsertStoresOwn(s, tenant, data, inTransaction, t);
    InsertStoresOwn(r, tenant, data, inTransaction, t);
    TwinsGrow(s, r, Row(t, data), t);
  }

  lemma ReadIsolated(s: State, r: State, open: nat, t: TenantId)
    requires Agree(s.context, s.session, t) && !s.session.bypass && Twins(s, r, t)
    ensures Objects(s.rows, s.context, s.session) == Objects(r.rows, r.context, r.session) == OfTenant(s.rows, t)
    ensures SameNews(s.trace, Read(s, open).trace, r.trace, Read(r, open).trace)
            && Twins(Read(s, open), Read(r, open), t)
  {
    SessionSeesItsOwn(s.rows, s.session, t);
    SessionSeesItsOwn(r.rows, r.session, t);
  }

  lemma ReadAllIsolated(s: State, r: State, t: TenantId)
    requires Agree(s.context, s.session, t) && !s.session.bypass && Twins(s, r, t)
    ensures Filter(s.rows, None, s.session) == Filter(r.rows, None, r.session)
  {
    SessionSeesItsOwn(s.rows, s.session, t);
    SessionSeesItsOwn(r.rows, r.session, t);
  }

  lemma UpdateIsolated(s: State, r: State, change: Row -> int, t: TenantId)
    requires Agree(s.context, s.session, t) && !s.session.bypass && Twins(s, r, t)
    ensures OfTenant(Changed(s.rows, t, s.session, change), t) == OfTenant(Changed(r.rows, t, r.session, change), t)
  {
    ChangedOwn(s.rows, s.session, t, change);
    ChangedOwn(r.rows, r.session, t, change);
  }

  lemma SaveFromIsolated(make: seq<Row> -> int, s: State, r: State, inTransaction: bool, open: nat, t: TenantId)
    requires Agree(s.context, s.session, t) && !s.session.bypass && Twins(s, r, t)
    ensures var s', r' := Eval(SaveFrom(make), s, inTransaction, open), Eval(SaveFrom(make), r, inTransaction, open);
            s'.1 == r'.1 && Twins(s'.0, r'.0, t) && SameNews(s.trace, s'.0.trace, r.trace, r'.0.trace)
  {
    ReadIsolated(s, r, open, t);
    InsertIsolated(Read(s, open), Read(r, open), None, make(OfTenant(s.rows, t)), inTransaction, t);
  }

  /** One read, write or exception. */
  lemma StatementIsolated(p: Program, s: State, r: State, inTransaction: bool, open: nat, t: TenantId)
    requires IsStatement(p) && Agree(s.context, s.session, t) && !s.session.bypass && Twins(s, r, t)
    ensures Eval(p, s, inTransaction, open).1 == Eval(p, r, inTransaction, open).1
    ensures Twins(Eval(p, s, inTransaction, open).0, Eval(p, r, inTransaction, open).0, t)
    ensures SameNews(s.trace, Eval(p, s, inTransaction, open).0.trace, r.trace, Eval(p, r, inTransaction, open).0.trace)
  {
    match p
    case ReadObjects => ReadIsolated(s, r, open, t);
    case ReadAllTenants => ReadAllIsolated(s, r, t);
    case Save(tenant, data) => InsertIsolated(s, r, tenant, data, inTransaction, t);
    case SaveFrom(make) => SaveFromIsolated(make, s, r, inTransaction, open, t);
    case Update(change) => UpdateIsolated(s, r, change, t);
    case _ =>
  }

  /** Two tables that hold the same rows of a tenant are the same to any program bound
      to it: the same outcome, the same reads, the same rows of the tenant afterwards. */
  lemma {:induction false} EffectIsIsolated(p: Program, s: State, r: State, inTransaction: bool, open: nat, t: TenantId)
    requires Bound(p, t) && Agree(s.context, s.session, t) && !s.session.bypass && Twins(s, r, t)
    ensures Eval(p, s, inTransaction, open).1 == Eval(p, r, inTransaction, open).1
    ensures Twins(Eval(p, s, inTransaction, open).0, Eval(p, r, inTransaction, open).0, t)
    ensures SameNews(s.trace, Eval(p, s, inTransaction, open).0.trace, r.trace, Eval(p, r, inTransaction, open).0.trace)
    decreases p, 0
  {
    match p
    case Then(a, b) =>
      var s1, r1 := Eval(a, s, inTransaction, open).0, Eval(a, r, inTransaction, open).0;
      EffectIsIsolated(a, s, r, inTransaction, open, t);
      LayersAgree(a, s, inTransaction, open, t);
      OnlyOwnRowsWritten(a, s, inTransaction, open, t);
      EffectIsIsolated(b, s1, r1, inTransaction, open, t);
      NewsCompose(s.trace, s1.trace, Eval(b, s1, inTransaction, open).0.trace,
                  r.trace, r1.trace, Eval(b, r1, inTransaction, open).0.trace);
    case Branch(test, yes, no) =>
      ReadIsolated(s, r, open, t);
      var next, s1, r1 := if test(OfTenant(s.rows, t)) then yes else no, Read(s, open), Read(r, open);
      EffectIsIsolated(next, s1, r1, inTransaction, open, t);
      NewsCompose(s.trace, s1.trace, Eval(next, s1, inTransaction, open).0.trace,
                  r.trace, r1.trace, Eval(next, r1, inTransaction, open).0.trace);
    case Catch(body) => EffectIsIsolated(body, s, r, inTransaction, open, t);
    case TenantContext(tenant, user, body) => BlockIsIsolated(user, body, s, r, inTransaction, open, t);
    case _ => StatementIsolated(p, s, r, inTransaction, open, t);
  }

  lemma {:induction false} BlockIsIsolated(user: Option<nat>, body: Program, s: State, r: State, inTransaction: bool,
                                           open: nat, t: TenantId)
    requires Bound(body, t) && Twins(s, r, t)
    ensures var p := TenantContext(Some(t), user, body);
            && Eval(p, s, inTransaction, open).1 == Eval(p, r, inTransaction, open).1
            && Twins(Eval(p, s, inTransaction, open).0, Eval(p, r, inTransaction, open).0, t)
            && SameNews(s.trace, Eval(p, s, inTransaction, open).0.trace, r.trace,
               Eval(p, r, inTransaction, open).0.trace)
    decreases body, 1
  {
    if !s.aborted {
      EffectIsIsolated(body, Bind(s.(context := Context(Some(t), user, s.context.bypass)), Some(t), false),
                       Bind(r.(context := Context(Some(t), user, r.context.bypass)), Some(t), false), true, open, t);
    }
  }

  // ----- the sweep as a fold -----

  /** A turn touches no other tenant's rows. */
  lemma TurnOnlyFor(id: TenantId, job: TenantId -> Program, s: State)
    requires Bound(job(id), id)
    ensures OnlyFor(id, s.rows, Turn(id, job, s).0.rows)
  {
    if !s.aborted {
      var bound := Bind(s.(context := Context(Some(id), None, s.context.bypass)), Some(id), false);
      OnlyOwnRowsWritten(job(id), bound, true, 0, id);
    }
  }

  lemma {:induction false} OthersUntouched(t: TenantId, u: TenantId, before: seq<Row>, after: seq<Row>)
    requires OnlyFor(t, before, after) && u != t
    ensures OfTenant(after, u) == OfTenant(before, u)
  {
    if |after| > 0 {
      var front, x := after[..|after| - 1], after[|after| - 1];
      if |after| > |before| {
        OthersUntouched(t, u, before, front);
      } else {
        OthersUntouched(t, u, before[..|before| - 1], front);
      }
    }
  }

  lemma {:induction false} WhollyOwned(rows: seq<Row>, t: TenantId)
    requires forall i :: 0 <= i < |rows| ==> rows[i].tenant == t
    ensures OfTenant(rows, t) == rows
  {
    if |rows| > 0 {
      WhollyOwned(rows[..|rows| - 1], t);
    }
  }

  lemma {:induction false} OwnedRows(rows: seq<Row>, t: TenantId)
    ensures forall i :: 0 <= i < |OfTenant(rows, t)| ==> OfTenant(rows, t)[i].tenant == t
  {
    if |rows| > 0 {
      OwnedRows(rows[..|rows| - 1], t);
    }
  }

  /** Tenant u's rows after its own turns among ids, on a table that holds nothing else:
      a turn that raises counts for nothing, and other tenants' turns do not exist. */
  function Alone(ids: seq<TenantId>, job: TenantId -> Program, s: State, u: TenantId): seq<Row> {
    if |ids| == 0 then OfTenant(s.rows, u)
    else
      var before := Alone(ids[..|ids| - 1], job, s, u);
      var (after, o) := Turn(u, job, s.(rows := before));
      if ids[|ids| - 1] == u && o == Normal then after.rows else before
  }

  function FailuresAlone(ids: seq<TenantId>, job: TenantId -> Program, s: State): nat {
    if |ids| == 0 then 0
    else
      var front, id := ids[..|ids| - 1], ids[|ids| - 1];
      FailuresAlone(front, job, s) + if Turn(id, job, s.(rows := Alone(front, job, s, id))).1 == Raised then 1 else 0
  }

  lemma {:induction false} AloneIsOwned(ids: seq<TenantId>, job: TenantId -> Program, s: State, u: TenantId)
    requires forall i :: 0 <= i < |ids| ==> Bound(job(ids[i]), ids[i])
    ensures forall i :: 0 <= i < |Alone(ids, job, s, u)| ==> Alone(ids, job, s, u)[i].tenant == u
  {
    if |ids| == 0 {
      OwnedRows(s.rows, u);
    } else {
      AloneIsOwned(ids[..|ids| - 1], job, s, u);
      if ids[|ids| - 1] == u {
        TurnOnlyFor(u, job, s.(rows := Alone(ids[..|ids| - 1], job, s, u)));
      }
    }
  }

  /** A turn on the table as it stands against the same turn on the tenant's own rows. */
  lemma TurnMatchesAlone(ids: seq<TenantId>, job: TenantId -> Program, s: State, s1: State, id: TenantId)
    requires forall i :: 0 <= i < |ids| ==> Bound(job(ids[i]), ids[i])
    requires Bound(job(id), id) && SameSettings(s1, s) && OfTenant(s1.rows, id) == Alone(ids, job, s, id)
    ensures var own := Turn(id, job, s.(rows := Alone(ids, job, s, id)));
            && Turn(id, job, s1).1 == own.1 && OfTenant(Turn(id, job, s1).0.rows, id) == own.0.rows
  {
    var rows := Alone(ids, job, s, id);
    AloneIsOwned(ids, job, s, id);
    WhollyOwned(rows, id);
    BlockIsIsolated(None, job(id), s1, s.(rows := rows), false, 0, id);
    TurnOnlyFor(id, job, s.(rows := rows));
    WhollyOwned(Turn(id, job, s.(rows := rows)).0.rows, id);
  }

  /** For every failure pattern, with jobs that act on what they read: each tenant ends
      with what its own succeeding turns make of its own rows, tenants outside the sweep
      keep theirs, the failure count is exact and the caller's settings are untouched. */
  lemma {:induction false} SweepIsFoldOfSuccesses(ids: seq<TenantId>, job: TenantId -> Program, s: State, u: TenantId)
    requires forall i :: 0 <= i < |ids| ==> Bound(job(ids[i]), ids[i])
    ensures var (s', n) := Sweep(ids, job, s);
            SameSettings(s', s) && OfTenant(s'.rows, u) == Alone(ids, job, s, u) && n == FailuresAlone(ids, job, s)
  {
    SweepKeepsSettings(ids, job, s);
    if |ids| > 0 {
      var front, id := ids[..|ids| - 1], ids[|ids| - 1];
      var s1 := Sweep(front, job, s).0;
      SweepKeepsSettings(front, job, s);
      SweepIsFoldOfSuccesses(front, job, s, u);
      SweepIsFoldOfSuccesses(front, job, s, id);
      TurnMatchesAlone(front, job, s, s1, id);
      TurnKeepsSettings(id, job, s1);
      TurnOnlyFor(id, job, s1);
      if u != id {
        OthersUntouched(id, u, s1.rows, Turn(id, job, s1).0.rows);
      } else {
        TurnKeepsSettings(id, job, s.(rows := Alone(front, job, s, id)));
      }
    }
  }

  // ----- turns that are undone without being counted -----

  /** What the body of a turn leaves behind, before the block is closed. */
  function Inside(id: TenantId, job: TenantId -> Program, s: State): (State, Outcome) {
    Eval(job(id), Bind(s.(context := Context(Some(id), None, s.context.bypass)), Some(id), false), true, 0)
  }

  /** The turn's work is undone: it raised, or a statement of it was refused. */
  predicate Undone(id: TenantId, job: TenantId -> Program, s: State) {
    s.aborted || Inside(id, job, s).1 == Raised || Inside(id, job, s).0.aborted
  }

  /** A refused statement whose exception the job caught. */
  predicate Swallows(id: TenantId, job: TenantId -> Program, s: State) {
    !s.aborted && Inside(id, job, s).1 == Normal && Inside(id, job, s).0.aborted
  }

  lemma UndoneLeavesNothing(id: TenantId, job: TenantId -> Program, s: State)
    ensures Undone(id, job, s) ==> Turn(id, job, s).0.rows == s.rows
    ensures Turn(id, job, s).1 == Raised <==> Undone(id, job, s) && !Swallows(id, job, s)
  {}

  function UndoneTurns(ids: seq<TenantId>, job: TenantId -> Program, s: State): nat {
    if |ids| == 0 then 0
    else
      var front, id := ids[..|ids| - 1], ids[|ids| - 1];
      UndoneTurns(front, job, s) + if Undone(id, job, Sweep(front, job, s).0) then 1 else 0
  }

  ghost predicate NobodySwallows(ids: seq<TenantId>, job: TenantId -> Program, s: State) {
    |ids| == 0 || (NobodySwallows(ids[..|ids| - 1], job, s)
                   && !Swallows(ids[|ids| - 1], job, Sweep(ids[..|ids| - 1], job, s).0))
  }

  lemma {:induction false} FailuresAreUndone(ids: seq<TenantId>, job: TenantId -> Program, s: State)
    ensures Sweep(ids, job, s).1 <= UndoneTurns(ids, job, s)
    ensures Sweep(ids, job, s).1 == UndoneTurns(ids, job, s) <==> NobodySwallows(ids, job, s)
  {
    if |ids| > 0 {
      FailuresAreUndone(ids[..|ids| - 1], job, s);
      UndoneLeavesNothing(ids[|ids| - 1], job, Sweep(ids[..|ids| - 1], job, s).0);
    }
  }

  /** The failure count is the number of turns undone exactly when no turn swallows a
      refused statement. */
  lemma CountIsUndoneIff(ids: seq<TenantId>, job: TenantId -> Program, s: State)
    ensures Sweep(ids, job, s).1 == UndoneTurns(ids, job, s) <==> NobodySwallows(ids, job, s)
  {
    FailuresAreUndone(ids, job, s);
  }

  /** Saves a row of another tenant and looks away. */
  function LookAway(id: TenantId): Program { Catch(Save(Some(id + 1), 7)) }

  lemma LookAwayInside(id: TenantId, s: State)
    ensures Inside(id, LookAway, s).1 == Normal && Inside(id, LookAway, s).0.aborted == true
  {
    var bound := Bind(s.(context := Context(Some(id), None, s.context.bypass)), Some(id), false);
    if !s.aborted {
      InsertStoresOwn(bound, Some(id + 1), 7, true, id);
    }
    assert Eval(LookAway(id), bound, true, 0) == (Eval(Save(Some(id + 1), 7), bound, true, 0).0, Normal);
  }

  lemma SweepOfOne(id: TenantId, job: TenantId -> Program, s: State)
    ensures Sweep([id], job, s) == (Turn(id, job, s).0, if Turn(id, job, s).1 == Raised then 1 else 0)
    ensures UndoneTurns([id], job, s) == if Undone(id, job, s) then 1 else 0
  {
    var none: seq<TenantId> := [];
    assert [id][..0] == none && Sweep(none, job, s) == (s, 0) && UndoneTurns(none, job, s) == 0;
  }

  /** Such a turn is undone and reported as no failure. */
  lemma SwallowedFailureIsNotCounted(id: TenantId, s: State)
    requires !s.aborted
    ensures Sweep([id], LookAway, s).1 == 0 && UndoneTurns([id], LookAway, s) == 1
    ensures Sweep([id], LookAway, s).0.rows == s.rows
  {
    SweepOfOne(id, LookAway, s);
    LookAwayInside(id, s);
    UndoneLeavesNothing(id, LookAway, s);
  }

  /** A job bound to its tenant runs with both layers on that tenant throughout, and
      changes and adds rows of that tenant only. */
  lemma JobSeesItsOwnTenant(id: TenantId, job: TenantId -> Program, s: State)
    requires Bound(job(id), id)
    ensures OnlyFor(id, s.rows, Turn(id, job, s).0.rows) && EventsAgree(s.trace, Turn(id, job, s).0.trace, id)
  {
    TurnOnlyFor(id, job, s);
    if !s.aborted {
      var bound := Bind(s.(context := Context(Some(id), None, s.context.bypass)), Some(id), false);
      LayersAgree(job(id), bound, true, 0, id);
    }
  }

  // ----- a job that looks before it writes -----

  /** Work guarded by a read that the work itself turns off: a second sweep over the same
      tenant changes nothing. */
  lemma GuardedTurnIsRetrySafe(id: TenantId, test: seq<Row> -> bool, work: Program, job: TenantId -> Program, s: State)
    requires !s.aborted && job(id) == Branch(test, work, Skip)
    requires !test(OfTenant(Turn(id, job, s).0.rows, id))
    ensures Turn(id, job, Turn(id, job, s).0).0.rows == Turn(id, job, s).0.rows
    ensures Turn(id, job, Turn(id, job, s).0).1 == Normal
  {
    var once := Turn(id, job, s).0;
    TurnKeepsSettings(id, job, s);
    var bound := Bind(once.(context := Context(Some(id), None, once.context.bypass)), Some(id), false);
    SessionSeesItsOwn(once.rows, bound.session, id);
    assert Eval(job(id), bound, true, 0) == Eval(Skip, Read(bound, 0), true, 0);
  }

  predicate AnyBefore(month: int, seen: seq<Row>) { exists i :: 0 <= i < |seen| && seen[i].data < month }

  function Looking(month: int): seq<Row> -> bool { seen => AnyBefore(month, seen) }

  function Stamping(month: int): Row -> int { (r: Row) => if r.data < month then month else r.data }

  /** The monthly grant by its marker: rows not yet accrued this month are brought to it. */
  function MonthlyGrant(month: int): Program { Branch(Looking(month), Update(Stamping(month)), Skip) }

  lemma {:induction false} StampedIsCurrent(rows: seq<Row>, t: TenantId, month: int)
    ensures !AnyBefore(month, Altered(rows, t, Stamping(month)))
  {
    if |rows| > 0 {
      StampedIsCurrent(rows[..|rows| - 1], t, month);
    }
  }

  lemma CleanTurn(id: TenantId, job: TenantId -> Program, s: State)
    requires !s.aborted && Inside(id, job, s).1 == Normal && !Inside(id, job, s).0.aborted
    ensures Turn(id, job, s).0.rows == Inside(id, job, s).0.rows && Turn(id, job, s).1 == Normal
  {}

  lemma GrantEvaluates(id: TenantId, month: int, bound: State)
    requires !bound.aborted && bound.context.tenant == Some(id) && bound.session == Session(Some(id), false)
    ensures Eval(MonthlyGrant(month), bound, true, 0)
         == (if AnyBefore(month, OfTenant(bound.rows, id))
             then Read(bound, 0).(rows := Changed(bound.rows, id, bound.session, Stamping(month)))
             else Read(bound, 0), Normal)
  {
    SessionSeesItsOwn(bound.rows, bound.session, id);
    assert Looking(month)(OfTenant(bound.rows, id)) == AnyBefore(month, OfTenant(bound.rows, id));
  }

  lemma GrantInside(id: TenantId, month: int, job: TenantId -> Program, s: State)
    requires !s.aborted && job(id) == MonthlyGrant(month)
    ensures Inside(id, job, s).1 == Normal && !Inside(id, job, s).0.aborted
    ensures OfTenant(Inside(id, job, s).0.rows, id)
         == if AnyBefore(month, OfTenant(s.rows, id)) then Altered(OfTenant(s.rows, id), id, Stamping(month))
            else OfTenant(s.rows, id)
  {
    var bound := Bind(s.(context := Context(Some(id), None, s.context.bypass)), Some(id), false);
    GrantEvaluates(id, month, bound);
    ChangedOwn(s.rows, bound.session, id, Stamping(month));
  }

  lemma {:induction false} AlteredAt(rows: seq<Row>, t: TenantId, change: Row -> int)
    ensures |Altered(rows, t, change)| == |rows|
    ensures forall i :: 0 <= i < |rows| ==> Altered(rows, t, change)[i] == Row(t, change(rows[i]))
  {
    if |rows| > 0 {
      AlteredAt(rows[..|rows| - 1], t, change);
    }
  }

  /** However the rows stand, the grant reaches every row that is behind and no other, and a
      month granted twice is granted once. */
  lemma MonthlyGrantIsRetrySafe(id: TenantId, month: int, job: TenantId -> Program, s: State)
    requires !s.aborted && job(id) == MonthlyGrant(month)
    ensures Turn(id, job, Turn(id, job, s).0).0.rows == Turn(id, job, s).0.rows
    ensures var before, after := OfTenant(s.rows, id), OfTenant(Turn(id, job, s).0.rows, id);
            && |after| == |before|
            && forall i :: 0 <= i < |after| ==>
                 after[i].data == if before[i].data < month then month else before[i].data
  {
    GrantInside(id, month, job, s);
    CleanTurn(id, job, s);
    AlteredAt(OfTenant(s.rows, id), id, Stamping(month));
    StampedIsCurrent(OfTenant(s.rows, id), id, month);
    GuardedTurnIsRetrySafe(id, Looking(month), Update(Stamping(month)), job, s);
  }
}
