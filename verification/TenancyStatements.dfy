/** Single statements, sequences and blocks, told without the interpreter: what raises, what
    is kept, and the laws sequences obey. */
module TenancyStatements {
  import opened Money
  import opened Tenancy
  import opened TenancyBypass

  /** The manager answers without the database when no tenant is bound. */
  predicate AsksTheDatabase(p: Program, s: State) {
    p.ReadAllTenants? || p.Save? || ((p.ReadObjects? || p.SaveFrom? || p.Update?) && s.context.tenant.Some?)
  }

  /** The owner of the row a statement would store. */
  function OwnerOf(p: Program, s: State): Option<TenantId> {
    if p.Save? && p.tenant.Some? then p.tenant else s.context.tenant
  }

  predicate Stores(p: Program) { p.Save? || p.SaveFrom? }

  /** A statement raises exactly when it is an exception, when the database is asked after a
      failure, or when it stores a row without an owner or under a tenant the session is not
      on. A refused row is what marks the transaction, outside one nothing is marked. */
  lemma StatementRaisesIff(p: Program, s: State, inTransaction: bool, open: nat)
    requires IsStatement(p)
    ensures var (after, o) := Eval(p, s, inTransaction, open);
            var refused := Stores(p) && OwnerOf(p, s).Some? && s.session.tenant != OwnerOf(p, s) && !s.session.bypass;
            && (o == Raised <==> p.Raise? || (s.aborted && AsksTheDatabase(p, s))
                                 || (Stores(p) && OwnerOf(p, s).None?) || refused)
            && (after.aborted <==> s.aborted || (refused && inTransaction))
            && (o == Raised ==> after.rows == s.rows)
            && after.context == s.context && after.session == s.session
  {}

  /** What a statement that goes through leaves behind: one row at the end, the tenant's
      visible rows changed where they stand, or the table as it was. */
  lemma StatementWrites(p: Program, s: State, inTransaction: bool, open: nat)
    requires IsStatement(p) && Eval(p, s, inTransaction, open).1 == Normal
    ensures var rows := Eval(p, s, inTransaction, open).0.rows;
            match p
            case Save(_, data) => OwnerOf(p, s).Some? && rows == s.rows + [Row(OwnerOf(p, s).value, data)]
            case SaveFrom(make) =>
              s.context.tenant.Some?
              && rows == s.rows + [Row(s.context.tenant.value, make(Objects(s.rows, s.context, s.session)))]
            case Update(change) =>
              && |rows| == |s.rows|
              && forall i :: 0 <= i < |rows| ==>
                   var r := s.rows[i];
                   rows[i] == if s.context.tenant == Some(r.tenant)
                                 && (s.session.tenant == Some(r.tenant) || s.session.bypass)
                              then Row(r.tenant, change(r)) else r
            case _ => rows == s.rows
  {}

  /** A read is on record exactly when it went through, with what it saw. */
  lemma StatementRecords(p: Program, s: State, inTransaction: bool, open: nat)
    requires IsStatement(p)
    ensures var trace := Eval(p, s, inTransaction, open).0.trace;
            if p.ReadObjects? && !(s.aborted && s.context.tenant.Some?) then
              trace == s.trace + [Event(true, s.context, s.session, open, Objects(s.rows, s.context, s.session))]
            else if p.ReadAllTenants? && !s.aborted then
              trace == s.trace + [Event(false, s.context, s.session, open, Filter(s.rows, None, s.session))]
            else if p.SaveFrom? && !(s.aborted && s.context.tenant.Some?) then
              trace == s.trace + [Event(true, s.context, s.session, open, Objects(s.rows, s.context, s.session))]
            else trace == s.trace
  {}

  // ----- sequences -----

  /** Doing nothing is neutral and an exception ends a sequence. */
  lemma SequenceLaws(a: Program, s: State, inTransaction: bool, open: nat)
    ensures Eval(Then(Skip, a), s, inTransaction, open) == Eval(a, s, inTransaction, open)
    ensures Eval(Then(a, Skip), s, inTransaction, open) == Eval(a, s, inTransaction, open)
    ensures Eval(Then(Raise, a), s, inTransaction, open) == (s, Raised)
  {
    assert Eval(Skip, s, inTransaction, open) == (s, Normal) && Eval(Raise, s, inTransaction, open) == (s, Raised);
    var s1 := Eval(a, s, inTransaction, open).0;
    assert Eval(Skip, s1, inTransaction, open) == (s1, Normal);
  }

  /** Grouping does not matter. */
  lemma SequenceIsAssociative(a: Program, b: Program, c: Program, s: State, inTransaction: bool, open: nat)
    ensures Eval(Then(Then(a, b), c), s, inTransaction, open) == Eval(Then(a, Then(b, c)), s, inTransaction, open)
  {
    var (s1, o) := Eval(a, s, inTransaction, open);
    if o == Raised {
      assert Eval(Then(a, b), s, inTransaction, open) == (s1, Raised);
    } else {
      assert Eval(Then(a, b), s, inTransaction, open) == Eval(b, s1, inTransaction, open);
    }
  }

  /** Catching swallows the exception and keeps what was done before it. */
  lemma CatchKeepsTheWork(a: Program, s: State, inTransaction: bool, open: nat)
    ensures Eval(Catch(Then(a, Raise)), s, inTransaction, open) == Eval(Catch(a), s, inTransaction, open)
    ensures Eval(Catch(a), s, inTransaction, open).1 == Normal
  {
    var (s1, o) := Eval(a, s, inTransaction, open);
    assert Eval(Raise, s1, inTransaction, open) == (s1, Raised);
    assert Eval(Then(a, Raise), s, inTransaction, open) == (s1, Raised);
  }

  /** A branch is taken by what the manager shows. */
  lemma BranchFollowsTheRead(test: seq<Row> -> bool, yes: Program, no: Program, s: State, inTransaction: bool,
                             open: nat)
    ensures var taken := if test(Objects(s.rows, s.context, s.session)) then yes else no;
            Eval(Branch(test, yes, no), s, inTransaction, open)
            == Eval(Then(ReadObjects, taken), s, inTransaction, open)
  {}

  // ----- blocks -----

  /** A block raises exactly when the transaction had already failed, its body raises, or a
      bypass block finds the transaction failed when it takes the bypass off again. What the
      body wrote is kept exactly when neither it raised nor a statement in it was refused. */
  lemma BlockRaisesIff(p: Program, s: State, inTransaction: bool, open: nat)
    requires IsBlock(p)
    ensures var (after, o) := Eval(p, s, inTransaction, open);
            var undone := Body(p, s, open).1 == Raised || Body(p, s, open).0.aborted;
            && (o == Raised <==> s.aborted || Body(p, s, open).1 == Raised
                                 || (!p.TenantContext? && Body(p, s, open).0.aborted))
            && after.rows == (if s.aborted || undone then s.rows else Body(p, s, open).0.rows)
            && after.aborted == s.aborted
  {}
}
