/** Idempotent actions: the tenant-namespaced cache key, and run_idempotent over a
    flat string cache against one independent memory per tenant, resource and transition. */
module Idempotency {
  import opened Money

  // ----- keys -----

  const GLOBAL_KEY_PREFIXES: seq<string> :=
    ["permission_catalogue", "system_roles", "fx_rate_public", "schema_hash", "healthcheck"]

  predicate IsGlobal(key: string) {
    exists i :: 0 <= i < |GLOBAL_KEY_PREFIXES| && GLOBAL_KEY_PREFIXES[i] <= key
  }

  /** KEY_FUNCTION of the cache; no bound tenant is the scope "none". */
  function TenantKey(prefix: string, version: string, tenant: Option<string>, key: string): string {
    if IsGlobal(key) then prefix + ":" + version + ":g:" + key
    else prefix + ":" + version + ":t:" + (if tenant.Some? then tenant.value else "none") + ":" + key
  }

  lemma GlobalIffListed(key: string)
    ensures IsGlobal(key)
            <==> || "permission_catalogue" <= key || "system_roles" <= key || "fx_rate_public" <= key
                 || "schema_hash" <= key || "healthcheck" <= key
  {
    var listed := GLOBAL_KEY_PREFIXES;
    assert listed[0] == "permission_catalogue" && listed[1] == "system_roles" && listed[2] == "fx_rate_public"
           && listed[3] == "schema_hash" && listed[4] == "healthcheck";
  }

  /** Two tenants share a cache entry exactly when its key is one of the global ones. */
  lemma TenantsShareIffGlobal(prefix: string, version: string, a: string, b: string, key: string)
    ensures TenantKey(prefix, version, Some(a), key) == TenantKey(prefix, version, Some(b), key)
            <==> a == b || IsGlobal(key)
  {
    if !IsGlobal(key) {
      var head := prefix + ":" + version + ":t:";
      var x, y := TenantKey(prefix, version, Some(a), key), TenantKey(prefix, version, Some(b), key);
      assert x == head + (a + ":" + key) && y == head + (b + ":" + key);
      if x == y {
        StripCommonHead(head, a + ":" + key, b + ":" + key);
        assert a == (a + ":" + key)[..|a|];
        assert b == (b + ":" + key)[..|b|];
      }
    }
  }

  function IdempotencyKey(resource: string, transition: string, key: string): string {
    "idem:" + resource + ":" + transition + ":" + key
  }

  datatype Slot = Slot(tenant: string, resource: string, transition: string, key: string)

  function FlatKey(prefix: string, version: string, s: Slot): string {
    TenantKey(prefix, version, Some(s.tenant), IdempotencyKey(s.resource, s.transition, s.key))
  }

  /** Tenants are UUIDs, resources and transitions are identifiers: no colon in any. */
  predicate Plain(s: string) {
    forall i :: 0 <= i < |s| ==> s[i] != ':'
  }

  predicate WellNamed(s: Slot) {
    Plain(s.tenant) && Plain(s.resource) && Plain(s.transition)
  }

  lemma SplitAtColon(a: string, x: string, b: string, y: string)
    requires Plain(a) && Plain(b) && a + ":" + x == b + ":" + y
    ensures a == b && x == y
  {
    var s, t := a + ":" + x, b + ":" + y;
    assert s[|a|] == ':' && t[|b|] == ':';
    assert forall k :: 0 <= k < |a| ==> s[k] == a[k];
    assert forall k :: 0 <= k < |b| ==> t[k] == b[k];
    assert a == s[..|a|] && b == t[..|b|];
    assert x == s[|a| + 1..] && y == t[|b| + 1..];
  }

  lemma IdempotencyKeysAreNeverGlobal(resource: string, transition: string, key: string)
    ensures !IsGlobal(IdempotencyKey(resource, transition, key))
  {
    var k := IdempotencyKey(resource, transition, key);
    assert k[0] == 'i';
    forall i | 0 <= i < |GLOBAL_KEY_PREFIXES| ensures !(GLOBAL_KEY_PREFIXES[i] <= k) {
      assert GLOBAL_KEY_PREFIXES[i][0] != 'i';
    }
  }

  /** Two actions share a flat key only if they share tenant, resource, transition
      and client key, whatever colons the client put into its key. */
  lemma FlatKeysAreInjective(prefix: string, version: string, s: Slot, t: Slot)
    requires WellNamed(s) && WellNamed(t) && FlatKey(prefix, version, s) == FlatKey(prefix, version, t)
    ensures s == t
  {
    IdempotencyKeysAreNeverGlobal(s.resource, s.transition, s.key);
    IdempotencyKeysAreNeverGlobal(t.resource, t.transition, t.key);
    var head := prefix + ":" + version + ":t:";
    var i, j := IdempotencyKey(s.resource, s.transition, s.key), IdempotencyKey(t.resource, t.transition, t.key);
    assert FlatKey(prefix, version, s) == head + (s.tenant + ":" + i);
    assert FlatKey(prefix, version, t) == head + (t.tenant + ":" + j);
    StripCommonHead(head, s.tenant + ":" + i, t.tenant + ":" + j);
    SplitAtColon(s.tenant, i, t.tenant, j);
    var x, y := s.resource + ":" + (s.transition + ":" + s.key), t.resource + ":" + (t.transition + ":" + t.key);
    assert i == "idem:" + x && j == "idem:" + y;
    StripCommonHead("idem:", x, y);
    SplitAtColon(s.resource, s.transition + ":" + s.key, t.resource, t.transition + ":" + t.key);
    SplitAtColon(s.transition, s.key, t.transition, t.key);
  }

  lemma StripCommonHead(head: string, x: string, y: string)
    requires head + x == head + y
    ensures x == y
  {
    assert x == (head + x)[|head|..];
    assert y == (head + y)[|head|..];
  }

  // ----- run_idempotent -----

  /** What the wrapped service call would do if it were run. */
  datatype Effect = Raises | Returns(pk: string)
  /** `target` is the row the action is for; the cache key does not name it. */
  datatype Request = Request(slot: Slot, target: string, effect: Effect)
  datatype Response = Fresh(pk: string) | Replayed(pk: string) | Error

  /** A committed effect: under which slot, with which result, for which row. */
  datatype Commit = Commit(slot: Slot, pk: string, target: string)

  /** The cache as the backend holds it, and the committed effects in order. */
  datatype Flat = Flat(cache: map<string, string>, committed: seq<Commit>)

  function FlatStep(prefix: string, version: string, s: Flat, q: Request): (Flat, Response) {
    var k := FlatKey(prefix, version, q.slot);
    if q.slot.key != "" && k in s.cache then (s, Replayed(s.cache[k]))
    else if q.effect == Raises then (s, Error)
    else
      (Flat(if q.slot.key != "" then s.cache[k := q.effect.pk] else s.cache,
            s.committed + [Commit(q.slot, q.effect.pk, q.target)]), Fresh(q.effect.pk))
  }

  /** The same over one memory per tenant, resource and transition. */
  datatype Memory = Memory(seen: map<Slot, string>, committed: seq<Commit>)

  function MemoryStep(s: Memory, q: Request): (Memory, Response) {
    if q.slot.key != "" && q.slot in s.seen then (s, Replayed(s.seen[q.slot]))
    else if q.effect == Raises then (s, Error)
    else
      (Memory(if q.slot.key != "" then s.seen[q.slot := q.effect.pk] else s.seen,
              s.committed + [Commit(q.slot, q.effect.pk, q.target)]), Fresh(q.effect.pk))
  }

  function FlatRun(prefix: string, version: string, qs: seq<Request>): (Flat, seq<Response>) {
    if |qs| == 0 then (Flat(map[], []), [])
    else
      var (s, rs) := FlatRun(prefix, version, qs[..|qs| - 1]);
      var (s', r) := FlatStep(prefix, version, s, qs[|qs| - 1]);
      (s', rs + [r])
  }

  function MemoryRun(qs: seq<Request>): (Memory, seq<Response>) {
    if |qs| == 0 then (Memory(map[], []), [])
    else
      var (s, rs) := MemoryRun(qs[..|qs| - 1]);
      var (s', r) := MemoryStep(s, qs[|qs| - 1]);
      (s', rs + [r])
  }

  ghost predicate Represents(prefix: string, version: string, f: Flat, m: Memory) {
    && f.committed == m.committed
    && (forall s :: s in m.seen ==> WellNamed(s))
    && (forall s :: WellNamed(s) ==>
          (s in m.seen <==> FlatKey(prefix, version, s) in f.cache) &&
          (s in m.seen ==> f.cache[FlatKey(prefix, version, s)] == m.seen[s]))
  }

  lemma StepRefines(prefix: string, version: string, f: Flat, m: Memory, q: Request)
    requires Represents(prefix, version, f, m) && WellNamed(q.slot)
    ensures FlatStep(prefix, version, f, q).1 == MemoryStep(m, q).1
    ensures Represents(prefix, version, FlatStep(prefix, version, f, q).0, MemoryStep(m, q).0)
  {
    var f', m' := FlatStep(prefix, version, f, q).0, MemoryStep(m, q).0;
    forall s | WellNamed(s)
      ensures (s in m'.seen <==> FlatKey(prefix, version, s) in f'.cache) &&
              (s in m'.seen ==> f'.cache[FlatKey(prefix, version, s)] == m'.seen[s])
    {
      if FlatKey(prefix, version, s) == FlatKey(prefix, version, q.slot) {
        FlatKeysAreInjective(prefix, version, s, q.slot);
      }
    }
  }

  /** The shared string cache behaves as independent memories: same answers, same
      effects, on every sequence of requests. */
  lemma {:induction false} FlatRefinesMemory(prefix: string, version: string, qs: seq<Request>)
    requires forall i :: 0 <= i < |qs| ==> WellNamed(qs[i].slot)
    ensures FlatRun(prefix, version, qs).1 == MemoryRun(qs).1
    ensures FlatRun(prefix, version, qs).0.committed == MemoryRun(qs).0.committed
    ensures Represents(prefix, version, FlatRun(prefix, version, qs).0, MemoryRun(qs).0)
  {
    if |qs| > 0 {
      FlatRefinesMemory(prefix, version, qs[..|qs| - 1]);
      StepRefines(prefix, version, FlatRun(prefix, version, qs[..|qs| - 1]).0, MemoryRun(qs[..|qs| - 1]).0,
          qs[|qs| - 1]);
    }
  }

  ghost predicate Remembered(m: Memory) {
    forall i :: 0 <= i < |m.committed| && m.committed[i].slot.key != "" ==>
      m.committed[i].slot in m.seen && m.seen[m.committed[i].slot] == m.committed[i].pk
  }

  ghost predicate Distinct(m: Memory) {
    forall i, j :: 0 <= i < j < |m.committed| && m.committed[i].slot.key != "" ==>
      m.committed[i].slot != m.committed[j].slot
  }

  ghost predicate Backed(m: Memory) {
    forall s :: s in m.seen ==> exists i :: 0 <= i < |m.committed| && m.committed[i].slot == s
  }

  /** Everything committed under a key is remembered, once, with its result. */
  ghost predicate OncePerSlot(m: Memory) { Remembered(m) && Distinct(m) && Backed(m) }

  lemma {:induction false} MemoryCommitsOnce(qs: seq<Request>)
    ensures OncePerSlot(MemoryRun(qs).0)
  {
    if |qs| > 0 {
      MemoryCommitsOnce(qs[..|qs| - 1]);
      StepCommitsOnce(MemoryRun(qs[..|qs| - 1]).0, qs[|qs| - 1]);
    }
  }

  lemma StepRemembers(m: Memory, q: Request)
    requires Remembered(m)
    ensures Remembered(MemoryStep(m, q).0)
  {}

  lemma StepIsDistinct(m: Memory, q: Request)
    requires Remembered(m) && Distinct(m)
    ensures Distinct(MemoryStep(m, q).0)
  {}

  lemma StepCommitsOnce(m: Memory, q: Request)
    requires OncePerSlot(m)
    ensures OncePerSlot(MemoryStep(m, q).0)
  {
    StepRemembers(m, q);
    StepIsDistinct(m, q);
    var m' := MemoryStep(m, q).0;
    forall s | s in m'.seen ensures exists i :: 0 <= i < |m'.committed| && m'.committed[i].slot == s {
      if s in m.seen {
        var i :| 0 <= i < |m.committed| && m.committed[i].slot == s;
        assert m'.committed[i].slot == s;
      } else {
        assert m'.committed[|m.committed|].slot == s;
      }
    }
  }

  /** While cache entries live, a keyed operation commits at most once however often
      and in whatever order it is requested. */
  lemma KeyedOperationCommitsOnce(prefix: string, version: string, qs: seq<Request>, i: nat, j: nat)
    requires forall k :: 0 <= k < |qs| ==> WellNamed(qs[k].slot)
    requires i < j < |FlatRun(prefix, version, qs).0.committed|
    requires FlatRun(prefix, version, qs).0.committed[i].slot.key != ""
    ensures FlatRun(prefix, version, qs).0.committed[i].slot != FlatRun(prefix, version, qs).0.committed[j].slot
  {
    FlatRefinesMemory(prefix, version, qs);
    MemoryCommitsOnce(qs);
  }

  /** After a keyed success every later request in its slot gets that first result
      and changes nothing, even when the operation would now fail. */
  lemma {:induction false} LaterRequestsReplay(prefix: string, version: string, before: seq<Request>, q: Request,
                                               between: seq<Request>, again: Request)
    requires q.slot.key != "" && again.slot == q.slot
    requires FlatStep(prefix, version, FlatRun(prefix, version, before).0, q).1.Fresh?
    requires forall k :: 0 <= k < |between| ==> WellNamed(between[k].slot)
    requires WellNamed(q.slot)
    ensures var s := FlatRun(prefix, version, before + [q] + between).0;
            FlatStep(prefix, version, s, again) == (s, Replayed(q.effect.pk))
  {
    var k := FlatKey(prefix, version, q.slot);
    if |between| == 0 {
      assert before + [q] + between == before + [q];
      assert (before + [q])[..|before|] == before;
    } else {
      var front, last := between[..|between| - 1], between[|between| - 1];
      LaterRequestsReplay(prefix, version, before, q, front, again);
      assert (before + [q] + between)[..|before + [q] + between| - 1] == before + [q] + front;
      if FlatKey(prefix, version, last.slot) == k {
        FlatKeysAreInjective(prefix, version, last.slot, q.slot);
      }
    }
  }

  // ----- whose answer a replay is -----

  /** After the run, a request that is answered from memory is answered for its own row. */
  ghost predicate AnsweredForOwn(qs: seq<Request>, q: Request) {
    var m := MemoryRun(qs).0;
    MemoryStep(m, q).1.Replayed? ==>
      exists i :: 0 <= i < |m.committed| && m.committed[i].slot == q.slot && m.committed[i].target == q.target
  }

  /** Which slots are used for which rows. */
  ghost predicate Uses(qs: seq<Request>, uses: set<(Slot, string)>) {
    forall i :: 0 <= i < |qs| ==> UsedAs(qs[i].slot, qs[i].target, uses)
  }

  /** Whatever is requested within these uses, every replay answers for its own row. */
  ghost predicate AlwaysOwn(uses: set<(Slot, string)>) {
    forall qs: seq<Request>, q: Request :: Uses(qs, uses) && UsedAs(q.slot, q.target, uses) ==> AnsweredForOwn(qs, q)
  }

  /** No client key is used for two rows of one action. */
  ghost predicate OneRowPerKey(uses: set<(Slot, string)>) {
    forall slot: Slot, t: string, u: string ::
      slot.key != "" && UsedAs(slot, t, uses) && UsedAs(slot, u, uses) ==> t == u
  }

  predicate UsedAs(slot: Slot, target: string, uses: set<(Slot, string)>) { (slot, target) in uses }

  ghost predicate CommitsWithin(committed: seq<Commit>, uses: set<(Slot, string)>) {
    forall c :: c in committed ==> UsedAs(c.slot, c.target, uses)
  }

  lemma StepCommitsUse(m: Memory, q: Request, uses: set<(Slot, string)>)
    requires CommitsWithin(m.committed, uses) && UsedAs(q.slot, q.target, uses)
    ensures CommitsWithin(MemoryStep(m, q).0.committed, uses)
  {}

  lemma {:induction false} CommitsAreUses(qs: seq<Request>, uses: set<(Slot, string)>)
    requires Uses(qs, uses)
    ensures CommitsWithin(MemoryRun(qs).0.committed, uses)
  {
    if |qs| > 0 {
      var front, q := qs[..|qs| - 1], qs[|qs| - 1];
      assert forall i :: 0 <= i < |front| ==> front[i] == qs[i];
      CommitsAreUses(front, uses);
      StepCommitsUse(MemoryRun(front).0, q, uses);
    }
  }

  lemma OneRowIsOwn(uses: set<(Slot, string)>, qs: seq<Request>, q: Request)
    requires OneRowPerKey(uses) && Uses(qs, uses) && UsedAs(q.slot, q.target, uses)
    ensures AnsweredForOwn(qs, q)
  {
    MemoryCommitsOnce(qs);
    CommitsAreUses(qs, uses);
    var m := MemoryRun(qs).0;
    if MemoryStep(m, q).1.Replayed? {
      var i :| 0 <= i < |m.committed| && m.committed[i].slot == q.slot;
      assert m.committed[i] in m.committed;
      assert UsedAs(q.slot, m.committed[i].target, uses);
    }
  }

  /** One key used for two rows: the second is answered with the first. */
  lemma TwoRowsShareAnAnswer(slot: Slot, t: string, u: string, pk: string, effect: Effect)
    requires slot.key != "" && t != u
    ensures MemoryStep(MemoryRun([Request(slot, t, Returns(pk))]).0, Request(slot, u, effect)).1 == Replayed(pk)
    ensures !AnsweredForOwn([Request(slot, t, Returns(pk))], Request(slot, u, effect))
  {
    var q := Request(slot, t, Returns(pk));
    assert [q][..0] == [];
    assert MemoryRun([q]).0 == Memory(map[slot := pk], [Commit(slot, pk, t)]);
  }

  /** Replays answer for their own rows, on every run, if and only if no client key is used
      for two rows of one action. */
  lemma AlwaysOwnIff(uses: set<(Slot, string)>)
    ensures AlwaysOwn(uses) <==> OneRowPerKey(uses)
  {
    if OneRowPerKey(uses) {
      forall qs: seq<Request>, q: Request | Uses(qs, uses) && UsedAs(q.slot, q.target, uses)
        ensures AnsweredForOwn(qs, q)
      {
        OneRowIsOwn(uses, qs, q);
      }
    } else {
      var slot: Slot, t: string, u: string :| slot.key != "" && UsedAs(slot, t, uses)
                                                 && UsedAs(slot, u, uses) && t != u;
      var q, again := Request(slot, t, Returns("")), Request(slot, u, Returns(""));
      TwoRowsShareAnAnswer(slot, t, u, "", Returns(""));
      assert Uses([q], uses);
    }
  }

  // ----- the mixin, over the live cache and store -----

  class IdempotentActions {
    const prefix: string
    const version: string
    var cache: map<string, string>
    var committed: seq<Commit>

    function State(): Flat
      reads this
    {
      Flat(cache, committed)
    }

    constructor (prefix: string, version: string)
      ensures this.prefix == prefix && this.version == version && State() == Flat(map[], [])
    {
      this.prefix, this.version, cache, committed := prefix, version, map[], [];
    }

    method RunIdempotent(slot: Slot, target: string, effect: Effect) returns (response: Response)
      modifies this
      ensures (State(), response) == FlatStep(prefix, version, old(State()), Request(slot, target, effect))
    {
      var cacheKey: Option<string> := None;
      if slot.key != "" {
        cacheKey := Some(FlatKey(prefix, version, slot));
        if cacheKey.value in cache {
          return Replayed(cache[cacheKey.value]);
        }
      }
      if effect == Raises {
        return Error;
      }
      committed := committed + [Commit(slot, effect.pk, target)];
      if cacheKey.Some? {
        cache := cache[cacheKey.value := effect.pk];
      }
      return Fresh(effect.pk);
    }
  }
}
