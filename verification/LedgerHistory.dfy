/** The books only grow: rows stay as they were written, and their status only moves forward. */
module LedgerHistory {
  import opened Money
  import opened Ledger
  import opened LedgerInvariants

  /** What can ever become of a row: a draft can be voided, a posted entry voided or reversed,
      and the rest is final. */
  predicate MovesOn(from: Status, to: Status) {
    || from == to
    || (from == Draft && to == Voided)
    || (from == Posted && (to == Voided || to == Reversed))
  }

  /** The same journal, date, currency, rate, totals, number, lines and key; only the status
      and the link to the entry it reverses may differ, and, while it was a draft, its header. */
  predicate SameFiling(before: Entry, after: Entry) {
    && MovesOn(before.status, after.status)
    && if before.status == Draft
       then after == before.(status := after.status, reversalOf := after.reversalOf, journal := after.journal,
                             date := after.date, currency := after.currency, rate := after.rate)
       else after == before.(status := after.status, reversalOf := after.reversalOf)
  }

  ghost predicate HistoryKept(before: seq<Entry>, after: seq<Entry>) {
    |before| <= |after| && forall i :: 0 <= i < |before| ==> SameFiling(before[i], after[i])
  }

  /** The transition table allows these moves and posting a draft, which here writes a new
      row and voids the old one. */
  lemma TableAllows(from: Status, to: Status)
    ensures Allowed(from, to) <==> (from != to && MovesOn(from, to)) || (from == Draft && to == Posted)
  {}

  lemma KeptTwice(a: seq<Entry>, b: seq<Entry>, c: seq<Entry>)
    requires HistoryKept(a, b) && HistoryKept(b, c)
    ensures HistoryKept(a, c)
  {
    forall i | 0 <= i < |a| ensures SameFiling(a[i], c[i]) {
      assert SameFiling(a[i], b[i]) && SameFiling(b[i], c[i]);
    }
  }

  lemma PostKeepsHistory(b: Books, d: EntryDraft, onFile: Option<int>)
    ensures HistoryKept(b.entries, Post(b, d, onFile).0.entries)
  {
    PostKeepsRows(b, d, onFile);
    var after := Post(b, d, onFile).0.entries;
    forall i | 0 <= i < |b.entries| ensures SameFiling(b.entries[i], after[i]) {
      assert after[i] == after[..|b.entries|][i];
    }
  }

  lemma VoidKeepsHistory(b: Books, id: nat, reasonGiven: bool)
    ensures HistoryKept(b.entries, Void(b, id, reasonGiven).0.entries)
  {}

  lemma ReverseKeepsHistory(b: Books, id: nat, on: Date, onFile: Option<int>)
    ensures HistoryKept(b.entries, Reverse(b, id, on, onFile).0.entries)
  {
    if Reverse(b, id, on, onFile).1.Done? {
      var d := Mirror(b.entries[id], id, on);
      var (posted, outcome) := Post(b, d, onFile);
      PostKeepsHistory(b, d, onFile);
      assert SameFiling(b.entries[id], posted.entries[id]);
      var marked := WithStatus(posted, id, Reversed).entries;
      PostKeepsRows(b, d, onFile);
      assert posted.entries[id] == posted.entries[..|b.entries|][id];
      assert HistoryKept(posted.entries, marked);
      KeptTwice(b.entries, posted.entries, marked);
      assert HistoryKept(marked, marked[outcome.id := marked[outcome.id].(reversalOf := Some(id))]);
      KeptTwice(b.entries, marked, marked[outcome.id := marked[outcome.id].(reversalOf := Some(id))]);
    }
  }

  lemma PostDraftKeepsHistory(b: Books, id: nat, key: Key, onFile: Option<int>)
    ensures HistoryKept(b.entries, PostDraft(b, id, key, onFile).0.entries)
  {
    if PostDraft(b, id, key, onFile).1.Done? {
      var d := FromStored(b.entries[id], if key == NoKey then DraftKey(id) else key);
      var posted := Post(b, d, onFile).0;
      PostKeepsHistory(b, d, onFile);
      VoidKeepsHistory(posted, id, true);
      KeptTwice(b.entries, posted.entries, Void(posted, id, true).0.entries);
    }
  }

  lemma ApplyKeepsHistory(b: Books, op: Op)
    ensures HistoryKept(b.entries, Apply(b, op).entries)
  {
    match op
    case DoPost(d, onFile) => PostKeepsHistory(b, d, onFile);
    case DoPostDraft(id, key, onFile) => PostDraftKeepsHistory(b, id, key, onFile);
    case DoVoid(id, given) => VoidKeepsHistory(b, id, given);
    case DoReverse(id, on, onFile) => ReverseKeepsHistory(b, id, on, onFile);
    case _ =>
  }

  /** Whatever is done to the books from some point on, no row written before it is removed or
      moved, nothing but the header of a draft is rewritten, and no status ever goes back. */
  lemma {:induction false} RunKeepsHistory(b: Books, ops: seq<Op>)
    ensures HistoryKept(b.entries, Run(b, ops).entries)
  {
    if |ops| > 0 {
      var before := Run(b, ops[..|ops| - 1]);
      RunKeepsHistory(b, ops[..|ops| - 1]);
      ApplyKeepsHistory(before, ops[|ops| - 1]);
      KeptTwice(b.entries, before.entries, Run(b, ops).entries);
    }
  }

  // ----- reversals and their links -----

  /** A reversal succeeds exactly when the entry is posted, no row names it as reversed and
      its mirror is posted or answered for. */
  lemma ReversesIff(b: Books, id: nat, on: Date, onFile: Option<int>)
    ensures Reverse(b, id, on, onFile).1.Done?
            <==> && id < |b.entries| && b.entries[id].status == Posted
                 && (forall i :: 0 <= i < |b.entries| ==> b.entries[i].reversalOf != Some(id))
                 && Post(b, Mirror(b.entries[id], id, on), onFile).1.Done?
  {}

  /** Row r names an entry that is reversed, under the key its reversal is posted with. */
  predicate LinkHolds(entries: seq<Entry>, r: nat)
    requires r < |entries|
  {
    entries[r].reversalOf.Some? ==>
      var id := entries[r].reversalOf.value;
      id < |entries| && entries[id].status == Reversed && entries[r].key == ReversalKey(id)
  }

  ghost predicate LinksHold(entries: seq<Entry>) {
    && (forall r :: 0 <= r < |entries| ==> LinkHolds(entries, r))
    && (forall id :: 0 <= id < |entries| && entries[id].status == Reversed ==> Named(entries, id))
  }

  ghost predicate Named(entries: seq<Entry>, id: nat) {
    exists r :: 0 <= r < |entries| && entries[r].reversalOf == Some(id)
  }

  /** Rows that keep their links and their place among the reversed keep all links. */
  lemma SameLinksHold(before: seq<Entry>, after: seq<Entry>)
    requires LinksHold(before) && HistoryKept(before, after)
    requires forall i :: 0 <= i < |after| ==>
               && after[i].reversalOf == (if i < |before| then before[i].reversalOf else None)
               && (after[i].status == Reversed <==> i < |before| && before[i].status == Reversed)
    ensures LinksHold(after)
  {
    forall r | 0 <= r < |after| ensures LinkHolds(after, r) {
      if r < |before| {
        assert LinkHolds(before, r) && SameFiling(before[r], after[r]);
      }
    }
    forall id | 0 <= id < |after| && after[id].status == Reversed ensures Named(after, id) {
      assert Named(before, id);
      var r :| 0 <= r < |before| && before[r].reversalOf == Some(id);
      assert after[r].reversalOf == Some(id);
    }
  }

  lemma PostKeepsLinks(b: Books, d: EntryDraft, onFile: Option<int>)
    requires LinksHold(b.entries)
    ensures LinksHold(Post(b, d, onFile).0.entries)
    ensures var after := Post(b, d, onFile).0.entries;
            && |after| >= |b.entries| && forall i :: 0 <= i < |b.entries| ==> after[i] == b.entries[i]
  {
    PostKeepsHistory(b, d, onFile);
    PostKeepsRows(b, d, onFile);
    var after := Post(b, d, onFile).0.entries;
    forall i | 0 <= i < |b.entries| ensures after[i] == b.entries[i] {
      assert after[i] == after[..|b.entries|][i];
    }
    SameLinksHold(b.entries, after);
  }

  lemma VoidKeepsLinks(b: Books, id: nat, reasonGiven: bool)
    requires LinksHold(b.entries)
    ensures LinksHold(Void(b, id, reasonGiven).0.entries)
  {
    VoidKeepsHistory(b, id, reasonGiven);
    SameLinksHold(b.entries, Void(b, id, reasonGiven).0.entries);
  }

  /** Marking one posted entry as reversed and naming it in a row that named none. */
  lemma NewLinkHolds(before: seq<Entry>, id: nat, r: nat)
    requires LinksHold(before) && id < |before| && r < |before| && before[id].status == Posted
    requires before[r].reversalOf == None && before[r].key == ReversalKey(id)
    ensures var marked := before[id := before[id].(status := Reversed)];
            LinksHold(marked[r := marked[r].(reversalOf := Some(id))])
  {
    var marked := before[id := before[id].(status := Reversed)];
    var after := marked[r := marked[r].(reversalOf := Some(id))];
    forall k | 0 <= k < |after| ensures LinkHolds(after, k) {
      assert LinkHolds(before, k);
    }
    forall k | 0 <= k < |after| && after[k].status == Reversed ensures Named(after, k) {
      if k == id {
        assert after[r].reversalOf == Some(id);
      } else {
        assert Named(before, k);
        var j :| 0 <= j < |before| && before[j].reversalOf == Some(k);
        assert after[j].reversalOf == Some(k);
      }
    }
  }

  lemma ReverseKeepsLinks(b: Books, id: nat, on: Date, onFile: Option<int>)
    requires LinksHold(b.entries)
    ensures LinksHold(Reverse(b, id, on, onFile).0.entries)
  {
    if Reverse(b, id, on, onFile).1.Done? {
      var d := Mirror(b.entries[id], id, on);
      var (posted, outcome) := Post(b, d, onFile);
      ReversesIff(b, id, on, onFile);
      PostKeepsLinks(b, d, onFile);
      PostAnswersUnderItsKey(b, d, onFile);
      var r := outcome.id;
      assert posted.entries[r].reversalOf == None by {
        assert LinkHolds(posted.entries, r);
        assert r < |b.entries| ==> b.entries[r].reversalOf != Some(id);
      }
      NewLinkHolds(posted.entries, id, r);
    }
  }

  lemma ApplyKeepsLinks(b: Books, op: Op)
    requires LinksHold(b.entries)
    ensures LinksHold(Apply(b, op).entries)
  {
    match op
    case DoPost(d, onFile) => PostKeepsLinks(b, d, onFile);
    case DoPostDraft(id, key, onFile) =>
      if PostDraft(b, id, key, onFile).1.Done? {
        var d := FromStored(b.entries[id], if key == NoKey then DraftKey(id) else key);
        PostKeepsLinks(b, d, onFile);
        VoidKeepsLinks(Post(b, d, onFile).0, id, true);
      }
    case DoVoid(id, given) => VoidKeepsLinks(b, id, given);
    case DoReverse(id, on, onFile) => ReverseKeepsLinks(b, id, on, onFile);
    case _ =>
      ApplyKeepsHistory(b, op);
      SameLinksHold(b.entries, Apply(b, op).entries);
  }

  lemma {:induction false} RunKeepsLinks(base: string, journals: map<string, Journal>, ops: seq<Op>)
    ensures LinksHold(Run(EmptyBooks(base, journals), ops).entries)
  {
    if |ops| > 0 {
      RunKeepsLinks(base, journals, ops[..|ops| - 1]);
      ApplyKeepsLinks(Run(EmptyBooks(base, journals), ops[..|ops| - 1]), ops[|ops| - 1]);
    }
  }

  /** On every run an entry is reversed exactly when one row names it, and then only one does:
      the row under its derived key. */
  lemma ReversedIffNamedOnce(base: string, journals: map<string, Journal>, ops: seq<Op>, id: nat)
    requires id < |Run(EmptyBooks(base, journals), ops).entries|
    ensures var entries := Run(EmptyBooks(base, journals), ops).entries;
            && (entries[id].status == Reversed <==> Named(entries, id))
            && (forall r, q :: 0 <= r < q < |entries| ==>
                  !(entries[r].reversalOf == entries[q].reversalOf == Some(id)))
            && (forall r :: 0 <= r < |entries| && entries[r].reversalOf == Some(id) ==>
                  entries[r].key == ReversalKey(id))
  {
    var entries := Run(EmptyBooks(base, journals), ops).entries;
    RunKeepsLinks(base, journals, ops);
    RunKeepsInv(base, journals, ops);
    forall r | 0 <= r < |entries| && entries[r].reversalOf == Some(id)
      ensures entries[r].key == ReversalKey(id) && entries[id].status == Reversed
    {
      assert LinkHolds(entries, r);
    }
  }
}
