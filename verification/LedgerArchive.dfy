/** Archived accounts: refused an archive while they carry a balance, and what can put one
    back afterwards. */
module LedgerArchive {
  import opened Money
  import opened Ledger
  import opened LedgerInvariants
  import LedgerLaws

  ghost predicate ArchivedAreFlat(b: Books) {
    forall a :: 0 <= a < |b.accounts| && !b.accounts[a].active ==> b.accounts[a].balance == 0
  }

  /** The lines net to nothing on every archived account. */
  ghost predicate SparesArchived(b: Books, lines: seq<Line>) {
    forall a :: 0 <= a < |b.accounts| && !b.accounts[a].active ==> Net(lines, a) == 0
  }

  lemma AppliedKeepsFlatIff(b: Books, lines: seq<Line>, sign: int)
    requires ArchivedAreFlat(b) && (sign == 1 || sign == -1)
    ensures ArchivedAreFlat(b.(accounts := Applied(b.accounts, lines, sign))) <==> SparesArchived(b, lines)
  {
    var after := b.(accounts := Applied(b.accounts, lines, sign));
    forall a | 0 <= a < |b.accounts| && !b.accounts[a].active
      ensures after.accounts[a].balance == 0 <==> Net(lines, a) == 0
    {
      assert b.accounts[a].balance == 0;
    }
  }

  /** A void keeps archived accounts flat exactly when the entry was a draft, or nets to
      nothing on each of them. */
  lemma VoidKeepsArchivedIff(b: Books, id: nat, reasonGiven: bool)
    requires ArchivedAreFlat(b) && Void(b, id, reasonGiven).1.Done?
    ensures id < |b.entries|
    ensures ArchivedAreFlat(Void(b, id, reasonGiven).0)
            <==> b.entries[id].status != Posted || SparesArchived(b, b.entries[id].lines)
  {
    var after := Void(b, id, reasonGiven).0;
    if b.entries[id].status == Posted {
      AppliedKeepsFlatIff(b, b.entries[id].lines, -1);
      assert after.accounts == Applied(b.accounts, b.entries[id].lines, -1);
    } else {
      assert after.accounts == b.accounts;
    }
  }

  /** A posting always does: it is refused on an archived account. */
  lemma PostKeepsArchived(b: Books, d: EntryDraft, onFile: Option<int>)
    requires ArchivedAreFlat(b)
    ensures ArchivedAreFlat(Post(b, d, onFile).0)
  {
    if |Post(b, d, onFile).0.entries| > |b.entries| {
      NewEntryStands(b, d, onFile);
      var lines := PostedLines(b, d, ResolveRate(b, d.currency, d.rate, onFile).value);
      assert Validate(b, d).None?;
      forall a | 0 <= a < |b.accounts| && !b.accounts[a].active ensures Net(lines, a) == 0 {
        forall i | 0 <= i < |lines| ensures lines[i].account != a {
          assert lines[i].account == d.lines[i].account;
        }
        Untouched(lines, a);
      }
      AppliedKeepsFlatIff(b, lines, 1);
    }
  }

  lemma ReverseKeepsArchived(b: Books, id: nat, on: Date, onFile: Option<int>)
    requires ArchivedAreFlat(b)
    ensures ArchivedAreFlat(Reverse(b, id, on, onFile).0)
  {
    if Reverse(b, id, on, onFile).1.Done? {
      LedgerLaws.ReversePostsMirror(b, id, on, onFile);
      PostKeepsArchived(b, Mirror(b.entries[id], id, on), onFile);
    }
  }

  lemma PostDraftKeepsArchived(b: Books, id: nat, key: Key, onFile: Option<int>)
    requires ArchivedAreFlat(b)
    ensures ArchivedAreFlat(PostDraft(b, id, key, onFile).0)
  {
    if PostDraft(b, id, key, onFile).1.Done? {
      var d := FromStored(b.entries[id], LedgerLaws.KeyFor(id, key));
      PostKeepsArchived(b, d, onFile);
      PostKeepsRows(b, d, onFile);
      var posted := Post(b, d, onFile).0;
      assert posted.entries[id] == posted.entries[..|b.entries|][id] == b.entries[id];
      VoidKeepsArchivedIff(posted, id, true);
    }
  }

  /** Of everything a run can do, only the void of a posted entry on an archived account
      puts a balance back. */
  lemma ApplyKeepsArchivedIff(b: Books, op: Op)
    requires ArchivedAreFlat(b)
    ensures ArchivedAreFlat(Apply(b, op))
            <==> (op.DoVoid? && Void(b, op.id, op.reasonGiven).1.Done? && b.entries[op.id].status == Posted
                  ==> SparesArchived(b, b.entries[op.id].lines))
  {
    match op
    case DoPost(d, onFile) => PostKeepsArchived(b, d, onFile);
    case DoPostDraft(id, key, onFile) => PostDraftKeepsArchived(b, id, key, onFile);
    case DoVoid(id, given) =>
      if Void(b, id, given).1.Done? {
        VoidKeepsArchivedIff(b, id, given);
      }
    case DoReverse(id, on, onFile) => ReverseKeepsArchived(b, id, on, onFile);
    case _ =>
  }
}
