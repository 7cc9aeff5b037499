/** What the ledger says to a draft, as the requests that post it meet it. */
module PostVerdict {
  import opened Money
  import opened Ledger
  import opened LedgerCommit
  import LedgerLaws
  import R = PostRequests

  /** The draft as such, whatever key it is posted under. */
  function Unkeyed(d: EntryDraft): EntryDraft { d.(key := NoKey) }

  /** All requests of a stored draft carry the same lines, so the verdict is the draft's. */
  function VerdictOf(b: Books, d: EntryDraft, onFile: Option<int>): R.Verdict {
    if Validate(b, d).Some? then R.Invalid
    else if !Admitted(b, Unkeyed(d), onFile) || !LinesSurvive(d) then R.Barred
    else if SumsAgree(d) then R.Stands
    else R.UndoneAtCommit
  }

  /** The verdict is what posting under an unused key comes to. */
  lemma VerdictIsThePosting(b: Books, d: EntryDraft, onFile: Option<int>)
    requires d.key == NoKey || FindKey(b.entries, d.key).None?
    ensures VerdictOf(b, d, onFile) == R.Stands <==> Post(b, d, onFile).1 == Done(|b.entries|)
    ensures VerdictOf(b, d, onFile) == R.UndoneAtCommit <==> Post(b, d, onFile).1 == Failed(LinesDisagree)
    ensures VerdictOf(b, d, onFile) == R.Invalid <==> Validate(b, d).Some?
  {
    UndoneIff(b, d, onFile);
    assert Admitted(b, d, onFile) == Admitted(b, Unkeyed(d), onFile) by {
      assert Validate(b, d) == Validate(b, Unkeyed(d));
    }
    if Admitted(b, d, onFile) {
      AdmittedStandsIff(b, d, onFile);
    }
  }

  /** A retry of a stored draft can be answered with a posting that never stood if and only
      if the service admits the draft, every line survives rounding, and the rounded lines
      do not add up to the rounded totals. */
  lemma RetryNamesNothingIff(b: Books, d: EntryDraft, onFile: Option<int>, s: R.State)
    requires R.Initial(s) && R.HasRetry(s)
    ensures R.CanNameNothing(s, VerdictOf(b, d, onFile))
            <==> Admitted(b, Unkeyed(d), onFile) && LinesSurvive(d) && !SumsAgree(d)
  {
    R.CanNameNothingIff(s, VerdictOf(b, d, onFile));
    assert Validate(b, d) == Validate(b, Unkeyed(d));
  }

  /** So a draft at currency precision is never replayed as something it is not. */
  lemma PreciseRetriesAreTrue(b: Books, d: EntryDraft, onFile: Option<int>, s: R.State)
    requires R.Initial(s) && LedgerLaws.Precise(d)
    ensures !R.CanNameNothing(s, VerdictOf(b, d, onFile))
  {
    R.CanNameNothingIff(s, VerdictOf(b, d, onFile));
    if Validate(b, d).None? {
      PreciseDraftSettles(d);
    }
  }
}
