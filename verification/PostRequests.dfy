/** Concurrent requests to post one stored draft: the status check, the cache, the
    pre-check, the unique index and the commit as separate steps. */
module PostRequests {

  /** Rows of this draft's requests are named by the request; others came earlier. */
  datatype Id = Own(request: nat) | Earlier(n: nat)
  datatype Row = Row(id: Id, key: string)

  /** What the ledger will say to a posting of the draft: refused before the pre-check or
      after it, undone by the commit-time trigger, or standing. */
  datatype Verdict = Invalid | Barred | UndoneAtCommit | Stands

  datatype Phase =
    | Ready | SawDraft | Running | Clear | Inserted | Remembered
    | Posted | Found(id: Id) | Reused(id: Id) | Replayed(id: Id) | Refused | Failed | Duplicate | Undone

  /** `sent` is the client's key, empty when it sends none. */
  datatype Request = Request(sent: string, phase: Phase)

  /** `derived` is the key text made from the draft. */
  datatype State = State(derived: string, requests: seq<Request>, rows: seq<Row>, retired: bool, cache: map<string, Id>)

  /** The key a posting carries: a client may send the text of the derived one. */
  function KeyOf(derived: string, q: Request): string { if q.sent == "" then derived else q.sent }

  function KeyAt(s: State, p: nat): string
    requires p < |s.requests|
  {
    KeyOf(s.derived, s.requests[p])
  }

  predicate Cached(s: State, q: Request) { q.sent != "" && q.sent in s.cache }

  function Lookup(rows: seq<Row>, key: string): (r: seq<Id>)
    ensures |r| <= 1
    ensures |r| == 0 <==> forall i :: 0 <= i < |rows| ==> rows[i].key != key
    ensures |r| == 1 ==> exists i :: 0 <= i < |rows| && rows[i] == Row(r[0], key)
  {
    if |rows| == 0 then []
    else if rows[0].key == key then [rows[0].id]
    else
      var r := Lookup(rows[1..], key);
      assert |r| == 1 ==> exists i :: 0 <= i < |rows[1..]| && rows[1..][i] == Row(r[0], key);
      r
  }

  predicate InFlight(q: Request) {
    q.phase == Inserted || q.phase == Remembered
  }

  /** Some other transaction holds the key in the unique index, undecided. */
  predicate Blocked(s: State, p: nat)
    requires p < |s.requests|
  {
    exists o :: 0 <= o < |s.requests| && o != p && InFlight(s.requests[o]) && KeyAt(s, o) == KeyAt(s, p)
  }

  /** What request p learns next. */
  function Next(s: State, p: nat, v: Verdict): Phase
    requires p < |s.requests|
  {
    var q := s.requests[p];
    match q.phase
    case Ready => if s.retired then Refused else SawDraft
    case SawDraft => if Cached(s, q) then Replayed(s.cache[q.sent]) else Running
    case Running =>
      var existing := Lookup(s.rows, KeyAt(s, p));
      if v == Invalid then Failed else if |existing| == 1 then Found(existing[0]) else Clear
    case Clear =>
      if v in {Invalid, Barred} then Failed
      else if |Lookup(s.rows, KeyAt(s, p))| == 1 then Duplicate
      else if Blocked(s, p) then Clear else Inserted
    case Inserted => Remembered
    case Remembered => if v == Stands then Posted else Undone
    case Found(id) => Reused(id)
    case done => done
  }

  /** What request p writes on the way into `phase`: the cache when the service has
      returned, the row and the retired draft at commit. */
  function Enter(s: State, p: nat, phase: Phase): State
    requires p < |s.requests|
  {
    var q := s.requests[p];
    var t := s.(requests := s.requests[p := q.(phase := phase)]);
    if phase == q.phase then s
    else if phase == Remembered then Remember(t, q, Own(p))
    else if phase == Posted then t.(rows := s.rows + [Row(Own(p), KeyAt(s, p))], retired := true)
    else if phase.Reused? then Remember(t, q, phase.id).(retired := true)
    else t
  }

  lemma EnterMovesOne(s: State, p: nat, phase: Phase)
    requires p < |s.requests|
    ensures Enter(s, p, phase).requests == s.requests[p := s.requests[p].(phase := phase)]
    ensures Enter(s, p, phase).derived == s.derived
  {}

  function Remember(s: State, q: Request, id: Id): State {
    if q.sent != "" then s.(cache := s.cache[q.sent := id]) else s
  }

  function Step(s: State, p: nat, v: Verdict): State {
    if p < |s.requests| then Enter(s, p, Next(s, p, v)) else s
  }

  /** A schedule says who moves, and what the ledger would say to it then. */
  function Run(s: State, schedule: seq<(nat, Verdict)>): State {
    if |schedule| == 0 then s
    else Step(Run(s, schedule[..|schedule| - 1]), schedule[|schedule| - 1].0, schedule[|schedule| - 1].1)
  }

  /** Fresh requests over whatever the ledger and the cache already hold. */
  predicate Initial(s: State) {
    && (forall p :: 0 <= p < |s.requests| ==> s.requests[p].phase == Ready)
    && (forall i :: 0 <= i < |s.rows| ==> s.rows[i].id.Earlier?)
    && (forall i, j :: 0 <= i < j < |s.rows| ==> s.rows[i].key != s.rows[j].key)
    && (forall k :: k in s.cache ==> s.cache[k].Earlier?)
    && !s.retired
  }

  // ----- any interleaving -----

  /** Keys are unique over committed rows and undecided inserts together. */
  ghost predicate KeysHeldOnce(s: State) {
    && (forall i, j :: 0 <= i < j < |s.rows| ==> s.rows[i].key != s.rows[j].key)
    && (forall p, i :: 0 <= p < |s.requests| && 0 <= i < |s.rows| && InFlight(s.requests[p]) ==>
          s.rows[i].key != KeyAt(s, p))
    && (forall p, o :: 0 <= p < o < |s.requests| && InFlight(s.requests[p]) && InFlight(s.requests[o]) ==>
          KeyAt(s, p) != KeyAt(s, o))
    && (forall i :: 0 <= i < |s.rows| && s.rows[i].id.Own? ==>
          s.rows[i].id.request < |s.requests| && KeyAt(s, s.rows[i].id.request) == s.rows[i].key)
  }

  /** What entering a phase asks of the keys. */
  ghost predicate Entitled(s: State, p: nat, phase: Phase)
    requires p < |s.requests|
  {
    && (phase in {Remembered, Posted} ==> phase == s.requests[p].phase || InFlight(s.requests[p]))
    && (phase == Inserted ==> !Blocked(s, p) && forall i :: 0 <= i < |s.rows| ==> s.rows[i].key != KeyAt(s, p))
  }

  lemma EnterKeepsInserts(s: State, p: nat, phase: Phase, a: nat, b: nat)
    requires KeysHeldOnce(s) && p < |s.requests| && Entitled(s, p, phase) && a < b < |s.requests|
    ensures var t := Enter(s, p, phase);
            |t.requests| == |s.requests|
            && (InFlight(t.requests[a]) && InFlight(t.requests[b]) ==> KeyAt(t, a) != KeyAt(t, b))
  {
    EnterMovesOne(s, p, phase);
  }

  lemma EnterKeepsRowKeys(s: State, p: nat, phase: Phase, o: nat, i: nat)
    requires KeysHeldOnce(s) && p < |s.requests| && Entitled(s, p, phase)
    requires o < |s.requests| && i < |Enter(s, p, phase).rows|
    ensures var t := Enter(s, p, phase);
            |t.requests| == |s.requests| && (InFlight(t.requests[o]) ==> t.rows[i].key != KeyAt(t, o))
  {
    EnterMovesOne(s, p, phase);
  }

  lemma EnterKeepsKeys(s: State, p: nat, phase: Phase)
    requires KeysHeldOnce(s) && p < |s.requests| && Entitled(s, p, phase)
    ensures KeysHeldOnce(Enter(s, p, phase))
  {
    var t := Enter(s, p, phase);
    EnterMovesOne(s, p, phase);
    forall a, b | 0 <= a < b < |t.requests| && InFlight(t.requests[a]) && InFlight(t.requests[b])
      ensures KeyAt(t, a) != KeyAt(t, b)
    {
      EnterKeepsInserts(s, p, phase, a, b);
    }
    forall o, i | 0 <= o < |t.requests| && 0 <= i < |t.rows| && InFlight(t.requests[o])
      ensures t.rows[i].key != KeyAt(t, o)
    {
      EnterKeepsRowKeys(s, p, phase, o, i);
    }
  }

  lemma StepKeepsKeys(s: State, p: nat, v: Verdict)
    requires KeysHeldOnce(s)
    ensures KeysHeldOnce(Step(s, p, v))
  {
    if p < |s.requests| {
      EnterKeepsKeys(s, p, Next(s, p, v));
    }
  }

  lemma {:induction false} RunKeepsKeys(s: State, schedule: seq<(nat, Verdict)>)
    requires KeysHeldOnce(s)
    ensures KeysHeldOnce(Run(s, schedule))
  {
    if |schedule| > 0 {
      RunKeepsKeys(s, schedule[..|schedule| - 1]);
      StepKeepsKeys(Run(s, schedule[..|schedule| - 1]), schedule[|schedule| - 1].0, schedule[|schedule| - 1].1);
    }
  }

  /** Under any interleaving, two committed postings of the draft carry different keys. */
  lemma OnePostingPerKey(s: State, schedule: seq<(nat, Verdict)>, i: nat, j: nat)
    requires Initial(s)
    requires i < j < |Run(s, schedule).rows|
    ensures Run(s, schedule).rows[i].key != Run(s, schedule).rows[j].key
  {
    RunKeepsKeys(s, schedule);
  }

  // ----- what a run says about where it started -----

  /** Nothing holds the request's key before the run: no row, and no remembered result. */
  predicate Fresh(s: State, p: nat)
    requires p < |s.requests|
  {
    !Cached(s, s.requests[p]) && forall i :: 0 <= i < |s.rows| ==> s.rows[i].key != KeyAt(s, p)
  }

  /** An id handed out under a client key: committed, or its request, which sent that
      very key, is undecided or undone. */
  predicate Named(t: State, id: Id, sent: string) {
    id.Own? ==>
      && id.request < |t.requests|
      && t.requests[id.request].phase in {Remembered, Posted, Undone}
      && (t.requests[id.request].phase != Posted ==> t.requests[id.request].sent == sent)
  }

  predicate Committed(t: State, id: Id) {
    id.Own? ==> id.request < |t.requests| && t.requests[id.request].phase == Posted
  }

  predicate PastCache(phase: Phase) { phase in {Running, Clear, Inserted, Remembered, Posted, Undone} }
  predicate PastInsert(phase: Phase) { phase in {Inserted, Remembered, Posted, Undone} }

  ghost predicate RequestOk(s: State, t: State, p: nat)
    requires p < |s.requests| == |t.requests|
  {
    var q := t.requests[p];
    && q.sent == s.requests[p].sent
    && (PastCache(q.phase) ==> !Cached(s, s.requests[p]))
    && (PastInsert(q.phase) ==> Fresh(s, p))
    && (q.phase.Found? ==> Committed(t, q.phase.id))
    && (q.phase.Replayed? ==> Named(t, q.phase.id, q.sent))
  }

  ghost predicate RowsOk(s: State, t: State) {
    && s.rows <= t.rows
    && forall i :: 0 <= i < |t.rows| ==> Committed(t, t.rows[i].id)
  }

  ghost predicate CacheOk(s: State, t: State) {
    && s.cache.Keys <= t.cache.Keys
    && forall k :: k in t.cache ==> Named(t, t.cache[k], k)
  }

  ghost predicate Follows(s: State, t: State) {
    && t.derived == s.derived && |t.requests| == |s.requests|
    && (forall p :: 0 <= p < |s.requests| ==> RequestOk(s, t, p))
    && RowsOk(s, t) && CacheOk(s, t)
  }

  /** A move that decides nothing that was decided. */
  predicate Faithful(s: State, p: nat, phase: Phase)
    requires p < |s.requests|
  {
    var before := s.requests[p].phase;
    && phase != before && before !in {Posted, Undone}
    && (before == Remembered ==> phase in {Posted, Undone})
    && (phase == Posted ==> before == Remembered) && (phase == Undone ==> before == Remembered)
    && (phase.Reused? ==> before == Found(phase.id))
  }

  lemma EnterKeepsNames(s: State, p: nat, phase: Phase, id: Id, sent: string)
    requires p < |s.requests| && Faithful(s, p, phase)
    ensures Named(s, id, sent) ==> Named(Enter(s, p, phase), id, sent)
    ensures Committed(s, id) ==> Committed(Enter(s, p, phase), id)
  {
    var t := Enter(s, p, phase);
    assert forall o :: 0 <= o < |s.requests| && o != p ==> t.requests[o] == s.requests[o];
  }

  lemma EnterKeepsCache(s: State, t: State, p: nat, phase: Phase)
    requires Follows(s, t) && p < |t.requests| && Faithful(t, p, phase)
    ensures CacheOk(s, Enter(t, p, phase))
  {
    var u, q := Enter(t, p, phase), t.requests[p];
    forall k | k in u.cache ensures Named(u, u.cache[k], k) {
      if k in t.cache && u.cache[k] == t.cache[k] {
        EnterKeepsNames(t, p, phase, t.cache[k], k);
      } else if phase.Reused? {
        assert RequestOk(s, t, p);
        EnterKeepsNames(t, p, phase, phase.id, k);
      }
    }
  }

  lemma EnterKeepsRows(s: State, t: State, p: nat, phase: Phase)
    requires Follows(s, t) && p < |t.requests| && Faithful(t, p, phase)
    ensures RowsOk(s, Enter(t, p, phase))
  {
    var u := Enter(t, p, phase);
    forall i | 0 <= i < |u.rows| ensures Committed(u, u.rows[i].id) {
      if i < |t.rows| {
        EnterKeepsNames(t, p, phase, t.rows[i].id, "");
      }
    }
  }

  lemma NextIsJustified(s: State, t: State, p: nat, v: Verdict)
    requires Follows(s, t) && p < |t.requests| && Next(t, p, v) != t.requests[p].phase
    ensures Faithful(t, p, Next(t, p, v))
    ensures PastCache(Next(t, p, v)) ==> !Cached(s, s.requests[p])
    ensures PastInsert(Next(t, p, v)) ==> Fresh(s, p)
    ensures Next(t, p, v).Found? ==> Committed(t, Next(t, p, v).id)
    ensures Next(t, p, v).Replayed? ==> Named(t, Next(t, p, v).id, t.requests[p].sent)
  {
    var phase, q := Next(t, p, v), t.requests[p];
    assert RequestOk(s, t, p);
    if q.phase == Running && phase.Found? {
      var i :| 0 <= i < |t.rows| && t.rows[i] == Row(phase.id, KeyAt(t, p));
      assert Committed(t, t.rows[i].id);
    }
    if q.phase == Clear && phase == Inserted {
      forall i | 0 <= i < |s.rows| ensures s.rows[i].key != KeyAt(s, p) {
        assert s.rows[i] == t.rows[i];
      }
    }
  }

  lemma StepFollows(s: State, t: State, p: nat, v: Verdict)
    requires Follows(s, t)
    ensures Follows(s, Step(t, p, v))
  {
    if p < |t.requests| && Next(t, p, v) != t.requests[p].phase {
      var phase := Next(t, p, v);
      var u := Enter(t, p, phase);
      NextIsJustified(s, t, p, v);
      EnterKeepsCache(s, t, p, phase);
      EnterKeepsRows(s, t, p, phase);
      forall o | 0 <= o < |s.requests| ensures RequestOk(s, u, o) {
        assert RequestOk(s, t, o);
        var q := u.requests[o];
        assert o != p ==> q == t.requests[o];
        if q.phase.Found? || q.phase.Replayed? {
          EnterKeepsNames(t, p, phase, q.phase.id, q.sent);
        }
      }
    }
  }

  lemma {:induction false} RunFollows(s: State, schedule: seq<(nat, Verdict)>)
    requires Initial(s)
    ensures Follows(s, Run(s, schedule))
  {
    if |schedule| > 0 {
      RunFollows(s, schedule[..|schedule| - 1]);
      StepFollows(s, Run(s, schedule[..|schedule| - 1]), schedule[|schedule| - 1].0, schedule[|schedule| - 1].1);
    }
  }

  // ----- schedules made to order -----

  lemma Extend(s: State, schedule: seq<(nat, Verdict)>, t: State, p: nat, v: Verdict)
    requires Run(s, schedule) == t
    ensures Run(s, schedule + [(p, v)]) == Step(t, p, v)
  {
    assert (schedule + [(p, v)])[..|schedule|] == schedule;
  }

  /** n steps of one request, appended to a schedule. */
  lemma ExtendAlone(s: State, schedule: seq<(nat, Verdict)>, t: State, p: nat, v: Verdict, n: nat)
    requires Run(s, schedule) == t
    ensures Run(s, schedule + Repeated(p, v, n)) == Steps(t, p, v, n)
  {
    if n == 0 {
      assert schedule + [] == schedule;
    } else {
      ExtendAlone(s, schedule, t, p, v, n - 1);
      Extend(s, schedule + Repeated(p, v, n - 1), Steps(t, p, v, n - 1), p, v);
      assert schedule + Repeated(p, v, n) == schedule + Repeated(p, v, n - 1) + [(p, v)];
    }
  }

  function Repeated(p: nat, v: Verdict, n: nat): (schedule: seq<(nat, Verdict)>)
    ensures Constant(schedule, v)
  {
    if n == 0 then [] else Repeated(p, v, n - 1) + [(p, v)]
  }

  /** The ledger says the same to the draft throughout. */
  predicate Constant(schedule: seq<(nat, Verdict)>, v: Verdict) {
    forall i :: 0 <= i < |schedule| ==> schedule[i].1 == v
  }

  function Steps(s: State, p: nat, v: Verdict, n: nat): State {
    if n == 0 then s else Step(Steps(s, p, v, n - 1), p, v)
  }

  lemma OneMore(s: State, p: nat, v: Verdict, n: nat, t: State)
    requires Steps(s, p, v, n) == t
    ensures Steps(s, p, v, n + 1) == Step(t, p, v)
  {}

  /** Where request p ends when nothing stands in its way. */
  function Served(s: State, p: nat, v: Verdict): State
    requires p < |s.requests|
  {
    var q := s.requests[p];
    State(s.derived, s.requests[p := Request(q.sent, if v == Stands then Posted else Undone)],
          if v == Stands then s.rows + [Row(Own(p), KeyAt(s, p))] else s.rows,
          s.retired || v == Stands, if q.sent != "" then s.cache[q.sent := Own(p)] else s.cache)
  }

  lemma ReachesTheIndex(s: State, p: nat, v: Verdict)
    requires p < |s.requests| && s.requests[p].phase == SawDraft && v in {UndoneAtCommit, Stands}
    requires Fresh(s, p) && !Blocked(s, p)
    ensures Steps(s, p, v, 3) == s.(requests := s.requests[p := Request(s.requests[p].sent, Inserted)])
  {
    var sent := s.requests[p].sent;
    var s1 := s.(requests := s.requests[p := Request(sent, Running)]);
    var s2 := s.(requests := s.requests[p := Request(sent, Clear)]);
    assert Step(s, p, v) == s1;
    OneMore(s, p, v, 0, s);
    assert Step(s1, p, v) == s2;
    OneMore(s, p, v, 1, s1);
    SameOthers(s, s2, p);
    OneMore(s, p, v, 2, s2);
  }

  /** A request that saw the draft, finds nothing under its key and is alone. */
  lemma RunsThrough(s: State, p: nat, v: Verdict)
    requires p < |s.requests| && s.requests[p].phase == SawDraft && v in {UndoneAtCommit, Stands}
    requires Fresh(s, p) && !Blocked(s, p)
    ensures Steps(s, p, v, 5) == Served(s, p, v)
  {
    var sent := s.requests[p].sent;
    var s3 := s.(requests := s.requests[p := Request(sent, Inserted)]);
    var s4 := s.(requests := s.requests[p := Request(sent, Remembered)],
                 cache := if sent != "" then s.cache[sent := Own(p)] else s.cache);
    ReachesTheIndex(s, p, v);
    assert Step(s3, p, v) == s4;
    OneMore(s, p, v, 3, s3);
    OneMore(s, p, v, 4, s4);
  }

  lemma SameOthers(s: State, t: State, p: nat)
    requires p < |s.requests| == |t.requests| && t.derived == s.derived && t.requests[p].sent == s.requests[p].sent
    requires forall o :: 0 <= o < |s.requests| && o != p ==> t.requests[o] == s.requests[o]
    ensures Blocked(t, p) == Blocked(s, p)
  {}

  // ----- when a draft is posted at most once -----

  ghost predicate OwnAtMostOnce(rows: seq<Row>) {
    forall i, j :: 0 <= i < j < |rows| ==> rows[i].id.Earlier? || rows[j].id.Earlier?
  }

  ghost predicate PostsAtMostOnce(s: State) {
    forall schedule :: OwnAtMostOnce(Run(s, schedule).rows)
  }

  /** No two requests carry different keys that nothing holds yet. */
  ghost predicate OneFreshKey(s: State) {
    forall p, o :: 0 <= p < |s.requests| && 0 <= o < |s.requests| && Fresh(s, p) && Fresh(s, o) ==>
        KeyAt(s, p) == KeyAt(s, o)
  }

  /** Two postings of a run were made under two different fresh keys. */
  lemma OwnRowsAreFresh(s: State, schedule: seq<(nat, Verdict)>, i: nat, j: nat)
    requires Initial(s) && i < j < |Run(s, schedule).rows|
    requires Run(s, schedule).rows[i].id.Own? && Run(s, schedule).rows[j].id.Own?
    ensures var p, o := Run(s, schedule).rows[i].id.request, Run(s, schedule).rows[j].id.request;
            p < |s.requests| && o < |s.requests| && Fresh(s, p) && Fresh(s, o) && KeyAt(s, p) != KeyAt(s, o)
  {
    var t := Run(s, schedule);
    RunFollows(s, schedule);
    RunKeepsKeys(s, schedule);
    var p, o := t.rows[i].id.request, t.rows[j].id.request;
    assert Committed(t, t.rows[i].id) && Committed(t, t.rows[j].id);
    assert RequestOk(s, t, p) && RequestOk(s, t, o);
  }

  lemma OneFreshKeyPostsOnce(s: State, schedule: seq<(nat, Verdict)>)
    requires Initial(s) && OneFreshKey(s)
    ensures OwnAtMostOnce(Run(s, schedule).rows)
  {
    var rows := Run(s, schedule).rows;
    forall i, j | 0 <= i < j < |rows| ensures rows[i].id.Earlier? || rows[j].id.Earlier? {
      if rows[i].id.Own? && rows[j].id.Own? {
        OwnRowsAreFresh(s, schedule, i, j);
      }
    }
  }

  function Saw(s: State, p: nat): State
    requires p < |s.requests|
  {
    s.(requests := s.requests[p := Request(s.requests[p].sent, SawDraft)])
  }

  lemma Sees(s: State, p: nat, v: Verdict)
    requires p < |s.requests| && s.requests[p].phase == Ready && !s.retired
    ensures Step(s, p, v) == Saw(s, p)
  {}

  ghost predicate NobodyInFlight(s: State) { forall o :: 0 <= o < |s.requests| ==> !InFlight(s.requests[o]) }

  /** p and o past the status check, then p to its end, then o. */
  function BothThenEach(p: nat, o: nat): seq<(nat, Verdict)> {
    [(p, Stands), (o, Stands)] + Repeated(p, Stands, 5) + Repeated(o, Stands, 5)
  }

  lemma BothPassTheCheck(s: State, p: nat, o: nat)
    requires p < |s.requests| && o < |s.requests| && p != o && !s.retired
    requires s.requests[p].phase == Ready && s.requests[o].phase == Ready
    ensures Run(s, [(p, Stands), (o, Stands)]) == Saw(Saw(s, p), o)
  {
    Sees(s, p, Stands);
    Sees(Saw(s, p), o, Stands);
    Extend(s, [], s, p, Stands);
    Extend(s, [] + [(p, Stands)], Saw(s, p), o, Stands);
    assert [] + [(p, Stands)] + [(o, Stands)] == [(p, Stands), (o, Stands)];
  }

  /** After p is posted under its key, o's different key is as fresh as before. */
  lemma OtherStaysFresh(s: State, p: nat, o: nat)
    requires p < |s.requests| && o < |s.requests| && Fresh(s, o) && KeyAt(s, p) != KeyAt(s, o)
    requires NobodyInFlight(s) && s.requests[o].phase == SawDraft
    ensures var t := Served(s, p, Stands);
            Fresh(t, o) && NobodyInFlight(t) && t.requests[o] == s.requests[o] && KeyAt(t, o) == KeyAt(s, o)
  {}

  lemma EachInTurn(s: State, p: nat, o: nat)
    requires p < |s.requests| && o < |s.requests| && Fresh(s, p) && Fresh(s, o) && KeyAt(s, p) != KeyAt(s, o)
    requires NobodyInFlight(s) && s.requests[p].phase == SawDraft && s.requests[o].phase == SawDraft
    ensures Steps(Steps(s, p, Stands, 5), o, Stands, 5).rows == s.rows
            + [Row(Own(p), KeyAt(s, p)), Row(Own(o), KeyAt(s, o))]
  {
    RunsThrough(s, p, Stands);
    OtherStaysFresh(s, p, o);
    RunsThrough(Served(s, p, Stands), o, Stands);
  }

  lemma BothThenEachRuns(s: State, p: nat, o: nat)
    requires Initial(s) && p < |s.requests| && o < |s.requests| && p != o
    ensures Run(s, BothThenEach(p, o)) == Steps(Steps(Saw(Saw(s, p), o), p, Stands, 5), o, Stands, 5)
  {
    var start, both := [(p, Stands), (o, Stands)], Saw(Saw(s, p), o);
    BothPassTheCheck(s, p, o);
    ExtendAlone(s, start, both, p, Stands, 5);
    ExtendAlone(s, start + Repeated(p, Stands, 5), Steps(both, p, Stands, 5), o, Stands, 5);
  }

  lemma TwoFreshKeysPostTwice(s: State, p: nat, o: nat)
    requires Initial(s) && p < |s.requests| && o < |s.requests| && Fresh(s, p) && Fresh(s, o)
             && KeyAt(s, p) != KeyAt(s, o)
    ensures Run(s, BothThenEach(p, o)).rows == s.rows + [Row(Own(p), KeyAt(s, p)), Row(Own(o), KeyAt(s, o))]
  {
    var both := Saw(Saw(s, p), o);
    BothThenEachRuns(s, p, o);
    assert Fresh(both, p) && Fresh(both, o) && NobodyInFlight(both);
    EachInTurn(both, p, o);
  }

  /** Under every interleaving a draft is posted at most once if and only if no two
      requests carry different fresh keys. */
  lemma PostsAtMostOnceIff(s: State)
    requires Initial(s)
    ensures PostsAtMostOnce(s) <==> OneFreshKey(s)
  {
    if OneFreshKey(s) {
      forall schedule ensures OwnAtMostOnce(Run(s, schedule).rows) {
        OneFreshKeyPostsOnce(s, schedule);
      }
    } else {
      var p, o :| 0 <= p < |s.requests| && 0 <= o < |s.requests| && Fresh(s, p) && Fresh(s, o)
          && KeyAt(s, p) != KeyAt(s, o);
      TwoFreshKeysPostTwice(s, p, o);
      var rows := Run(s, BothThenEach(p, o)).rows;
      assert rows[|s.rows|].id.Own? && rows[|s.rows| + 1].id.Own?;
    }
  }

  /** So requests that send no key post it at most once. */
  lemma KeylessRequestsPostOnce(s: State, schedule: seq<(nat, Verdict)>, i: nat, j: nat)
    requires Initial(s) && forall p :: 0 <= p < |s.requests| ==> s.requests[p].sent == ""
    requires i < |Run(s, schedule).rows| && j < |Run(s, schedule).rows|
    requires Run(s, schedule).rows[i].id.Own? && Run(s, schedule).rows[j].id.Own?
    ensures i == j
  {
    OneFreshKeyPostsOnce(s, schedule);
  }

  const RACE := State("draft:1", [Request("a", Ready), Request("b", Ready)], [], false, map[])

  /** And two client keys can post it twice. */
  lemma TwoClientKeysCanPostTwice()
    ensures Initial(RACE) && Run(RACE, BothThenEach(0, 1)).rows == [Row(Own(0), "a"), Row(Own(1), "b")]
  {
    TwoFreshKeysPostTwice(RACE, 0, 1);
  }

  // ----- requests one after the other -----

  /** Requests 0 .. n-1 in turn, each alone for as many steps as it is given. */
  function Serial(s: State, outcomes: seq<Verdict>, steps: nat, n: nat): State
    requires n <= |outcomes|
  {
    if n == 0 then s else Steps(Serial(s, outcomes, steps, n - 1), n - 1, outcomes[n - 1], steps)
  }

  predicate OwnRowsOnlyWhenRetired(s: State) {
    && (forall i, j :: 0 <= i < j < |s.rows| ==> s.rows[i].id.Earlier? || s.rows[j].id.Earlier?)
    && (!s.retired ==> forall i :: 0 <= i < |s.rows| ==> s.rows[i].id.Earlier?)
  }

  /** Past the status check and still working, the draft is as it was. */
  predicate Working(q: Request, retired: bool) {
    q.phase in {SawDraft, Running, Clear, Inserted, Remembered} || q.phase.Found? ==> !retired
  }

  lemma SoloStep(s: State, p: nat, v: Verdict)
    requires p < |s.requests| && Working(s.requests[p], s.retired) && OwnRowsOnlyWhenRetired(s)
    ensures var t := Step(s, p, v);
            && |t.requests| == |s.requests| && Working(t.requests[p], t.retired) && OwnRowsOnlyWhenRetired(t)
            && forall o :: 0 <= o < |s.requests| && o != p ==> t.requests[o] == s.requests[o]
  {}

  lemma AloneKeepsRetired(s: State, p: nat, v: Verdict, n: nat)
    requires p < |s.requests| && s.requests[p].phase == Ready && OwnRowsOnlyWhenRetired(s)
    ensures var t := Steps(s, p, v, n);
            && |t.requests| == |s.requests| && Working(t.requests[p], t.retired) && OwnRowsOnlyWhenRetired(t)
            && forall o :: 0 <= o < |s.requests| && o != p ==> t.requests[o] == s.requests[o]
  {
    if n > 0 {
      AloneKeepsRetired(s, p, v, n - 1);
      SoloStep(Steps(s, p, v, n - 1), p, v);
    }
  }

  predicate Waiting(s: State, t: State, n: nat) {
    |t.requests| == |s.requests| && forall o :: n <= o < |s.requests| ==> t.requests[o] == s.requests[o]
  }

  lemma OneTurn(s: State, t: State, n: nat, v: Verdict, steps: nat)
    requires n < |s.requests| && Waiting(s, t, n) && s.requests[n].phase == Ready && OwnRowsOnlyWhenRetired(t)
    ensures OwnRowsOnlyWhenRetired(Steps(t, n, v, steps)) && Waiting(s, Steps(t, n, v, steps), n + 1)
  {
    assert t.requests[n] == s.requests[n];
    AloneKeepsRetired(t, n, v, steps);
  }

  lemma SerialOneMore(s: State, outcomes: seq<Verdict>, steps: nat, n: nat, t: State)
    requires n < |outcomes| == |s.requests| && t == Serial(s, outcomes, steps, n) && s.requests[n].phase == Ready
    requires OwnRowsOnlyWhenRetired(t) && Waiting(s, t, n)
    ensures var u := Serial(s, outcomes, steps, n + 1); OwnRowsOnlyWhenRetired(u) && Waiting(s, u, n + 1)
  {
    OneTurn(s, t, n, outcomes[n], steps);
  }

  lemma {:induction false} SerialKeepsRetired(s: State, outcomes: seq<Verdict>, steps: nat, n: nat)
    requires Initial(s) && n <= |outcomes| == |s.requests|
    ensures OwnRowsOnlyWhenRetired(Serial(s, outcomes, steps, n)) && Waiting(s, Serial(s, outcomes, steps, n), n)
  {
    if n > 0 {
      SerialKeepsRetired(s, outcomes, steps, n - 1);
      SerialOneMore(s, outcomes, steps, n - 1, Serial(s, outcomes, steps, n - 1));
    }
  }

  /** Served one at a time, requests with any mix of client keys post the draft at
      most once. */
  lemma SerialRequestsPostOnce(s: State, outcomes: seq<Verdict>, steps: nat, i: nat, j: nat)
    requires Initial(s) && |outcomes| == |s.requests|
    requires i < j < |Serial(s, outcomes, steps, |outcomes|).rows|
    ensures var rows := Serial(s, outcomes, steps, |outcomes|).rows; rows[i].id.Earlier? || rows[j].id.Earlier?
  {
    SerialKeepsRetired(s, outcomes, steps, |outcomes|);
  }

  // ----- the cache is written before the commit -----

  /** Request p was answered with a posting that the commit-time trigger had undone. */
  predicate NamesNothing(t: State, p: nat) {
    && p < |t.requests| && t.requests[p].phase.Replayed? && t.requests[p].phase.id.Own?
    && t.requests[p].phase.id.request < |t.requests|
    && t.requests[t.requests[p].phase.id.request].phase == Undone
  }

  /** Some schedule, the ledger always saying v, ends with such an answer. */
  ghost predicate CanNameNothing(s: State, v: Verdict) {
    exists schedule, p :: Constant(schedule, v) && NamesNothing(Run(s, schedule), p)
  }

  /** Two requests share a key the client sent and nothing holds: a retry of a new request. */
  ghost predicate HasRetry(s: State) {
    exists p, o :: 0 <= p < |s.requests| && 0 <= o < |s.requests| && IsRetry(s, p, o)
  }

  predicate IsRetry(s: State, p: nat, o: nat)
    requires p < |s.requests| && o < |s.requests|
  {
    p != o && s.requests[p].sent == s.requests[o].sent != "" && Fresh(s, p)
  }

  /** Undone requests, and those on their way to a commit, met a verdict that lets them. */
  ghost predicate ByVerdict(t: State, v: Verdict) {
    forall p :: 0 <= p < |t.requests| ==>
      (t.requests[p].phase == Undone ==> v == UndoneAtCommit)
      && (InFlight(t.requests[p]) ==> v in {UndoneAtCommit, Stands})
  }

  lemma StepByVerdict(t: State, p: nat, v: Verdict)
    requires ByVerdict(t, v)
    ensures ByVerdict(Step(t, p, v), v)
  {
    if p < |t.requests| {
      NextByVerdict(t, p, v);
      EnterMovesOne(t, p, Next(t, p, v));
    }
  }

  lemma NextByVerdict(t: State, p: nat, v: Verdict)
    requires ByVerdict(t, v) && p < |t.requests|
    ensures Next(t, p, v) == Undone ==> v == UndoneAtCommit
    ensures Next(t, p, v) in {Inserted, Remembered} ==> v in {UndoneAtCommit, Stands}
  {}

  lemma {:induction false} UndoneOnlyByVerdict(s: State, schedule: seq<(nat, Verdict)>, v: Verdict)
    requires Initial(s) && Constant(schedule, v)
    ensures ByVerdict(Run(s, schedule), v)
  {
    if |schedule| > 0 {
      var front := schedule[..|schedule| - 1];
      UndoneOnlyByVerdict(s, front, v);
      StepByVerdict(Run(s, front), schedule[|schedule| - 1].0, v);
    }
  }

  lemma AnswerNeedsRetry(s: State, schedule: seq<(nat, Verdict)>, v: Verdict, p: nat)
    requires Initial(s) && Constant(schedule, v) && NamesNothing(Run(s, schedule), p)
    ensures v == UndoneAtCommit && HasRetry(s)
  {
    var t := Run(s, schedule);
    var r := t.requests[p].phase.id.request;
    RunFollows(s, schedule);
    UndoneOnlyByVerdict(s, schedule, v);
    assert RequestOk(s, t, p) && RequestOk(s, t, r);
    ReplayedWasSent(s, schedule, p);
    assert IsRetry(s, r, p);
  }

  /** Only a request that sent a key is answered from the cache. */
  lemma {:induction false} ReplayedWasSent(s: State, schedule: seq<(nat, Verdict)>, p: nat)
    requires Initial(s) && p < |Run(s, schedule).requests| && Run(s, schedule).requests[p].phase.Replayed?
    ensures Run(s, schedule).requests[p].sent != ""
  {
    if |schedule| > 0 {
      var before := Run(s, schedule[..|schedule| - 1]);
      if before.requests[p].phase.Replayed? {
        ReplayedWasSent(s, schedule[..|schedule| - 1], p);
      }
    }
  }

  /** p all the way to its undoing, then o as far as the cache. */
  function UndoneThenAgain(p: nat, o: nat): seq<(nat, Verdict)> {
    [(p, UndoneAtCommit)] + Repeated(p, UndoneAtCommit, 5) + [(o, UndoneAtCommit)] + [(o, UndoneAtCommit)]
  }

  lemma SecondReadsTheCache(s: State, p: nat, o: nat)
    requires p < |s.requests| && o < |s.requests| && p != o && s.requests[p].sent == s.requests[o].sent != ""
    requires s.requests[p].phase == SawDraft && s.requests[o].phase == Ready && !s.retired
    ensures var s2 := Served(s, p, UndoneAtCommit);
            var t := Step(Step(s2, o, UndoneAtCommit), o, UndoneAtCommit);
            NamesNothing(t, o) && !t.retired && t.rows == s.rows
  {
    var s2 := Served(s, p, UndoneAtCommit);
    Sees(s2, o, UndoneAtCommit);
    var s3 := Saw(s2, o);
    assert Next(s3, o, UndoneAtCommit) == Replayed(Own(p));
  }

  lemma FirstIsUndone(s: State, p: nat)
    requires Initial(s) && p < |s.requests| && Fresh(s, p)
    ensures Run(s, [(p, UndoneAtCommit)] + Repeated(p, UndoneAtCommit, 5)) == Served(Saw(s, p), p, UndoneAtCommit)
  {
    var v, s1 := UndoneAtCommit, Saw(s, p);
    Sees(s, p, v);
    Extend(s, [], s, p, v);
    assert [] + [(p, v)] == [(p, v)];
    assert Fresh(s1, p) && NobodyInFlight(s1);
    RunsThrough(s1, p, v);
    ExtendAlone(s, [(p, v)], s1, p, v, 5);
  }

  lemma UndoneThenAgainRuns(s: State, p: nat, o: nat)
    requires Initial(s) && p < |s.requests| && Fresh(s, p)
    ensures Run(s, UndoneThenAgain(p, o))
         == Step(Step(Served(Saw(s, p), p, UndoneAtCommit), o, UndoneAtCommit), o, UndoneAtCommit)
  {
    var v := UndoneAtCommit;
    var ahead, s2 := [(p, v)] + Repeated(p, v, 5), Served(Saw(s, p), p, v);
    FirstIsUndone(s, p);
    Extend(s, ahead, s2, o, v);
    Extend(s, ahead + [(o, v)], Step(s2, o, v), o, v);
  }

  lemma AlwaysUndone(p: nat, o: nat)
    ensures Constant(UndoneThenAgain(p, o), UndoneAtCommit)
  {}

  lemma RetryIsAnsweredWithNothing(s: State, p: nat, o: nat)
    requires Initial(s) && p < |s.requests| && o < |s.requests| && IsRetry(s, p, o)
    ensures NamesNothing(Run(s, UndoneThenAgain(p, o)), o)
    ensures !Run(s, UndoneThenAgain(p, o)).retired && Run(s, UndoneThenAgain(p, o)).rows == s.rows
  {
    UndoneThenAgainRuns(s, p, o);
    SecondReadsTheCache(Saw(s, p), p, o);
  }

  /** A request can be answered with a posting that never stood if and only if the ledger
      undoes the draft at commit and somebody retries a new key. */
  lemma CanNameNothingIff(s: State, v: Verdict)
    requires Initial(s)
    ensures CanNameNothing(s, v) <==> v == UndoneAtCommit && HasRetry(s)
  {
    if v == UndoneAtCommit && HasRetry(s) {
      var p, o :| 0 <= p < |s.requests| && 0 <= o < |s.requests| && IsRetry(s, p, o);
      RetryIsAnsweredWithNothing(s, p, o);
      AlwaysUndone(p, o);
    }
    if CanNameNothing(s, v) {
      var schedule, p :| Constant(schedule, v) && NamesNothing(Run(s, schedule), p);
      AnswerNeedsRetry(s, schedule, v, p);
    }
  }

  const TWICE := State("draft:1", [Request("a", Ready), Request("a", Ready)], [], false, map[])

  /** The shortest such run: the draft is still a draft and nothing was posted. */
  lemma UndonePostingIsReplayed()
    ensures Initial(TWICE) && NamesNothing(Run(TWICE, UndoneThenAgain(0, 1)), 1)
    ensures !Run(TWICE, UndoneThenAgain(0, 1)).retired && Run(TWICE, UndoneThenAgain(0, 1)).rows == []
  {
    RetryIsAnsweredWithNothing(TWICE, 0, 1);
  }

  // ----- when the draft is gone -----

  /** Posted by this request, or found posted under its key. */
  predicate Settled(q: Request) { q.phase == Posted || q.phase.Reused? }

  ghost predicate SomeSettled(s: State) {
    exists p :: 0 <= p < |s.requests| && Settled(s.requests[p])
  }

  lemma StepRetiresIff(s: State, p: nat, v: Verdict)
    requires s.retired <==> SomeSettled(s)
    ensures Step(s, p, v).retired <==> SomeSettled(Step(s, p, v))
  {
    var t := Step(s, p, v);
    if p < |s.requests| {
      assert forall o :: 0 <= o < |s.requests| && o != p ==> t.requests[o] == s.requests[o];
      if Settled(t.requests[p]) {
        assert SomeSettled(t);
      }
      if o :| 0 <= o < |s.requests| && Settled(s.requests[o]) {
        assert Settled(t.requests[o]);
      }
    }
  }

  /** On every schedule the draft has been retired exactly when some request has posted it or
      has found its posting. */
  lemma {:induction false} RetiredIffSettled(s: State, schedule: seq<(nat, Verdict)>)
    requires Initial(s)
    ensures Run(s, schedule).retired <==> SomeSettled(Run(s, schedule))
  {
    if |schedule| > 0 {
      var front, last := schedule[..|schedule| - 1], schedule[|schedule| - 1];
      RetiredIffSettled(s, front);
      StepRetiresIff(Run(s, front), last.0, last.1);
    }
  }
}
