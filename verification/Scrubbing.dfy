/** Redaction of error events before they leave: nested dicts, lists and tuples. */
module Scrubbing {
  datatype Key = Name(text: string) | Other(id: int)
  datatype Entry = Entry(key: Key, value: Value)
  datatype Value =
    | Dict(entries: seq<Entry>)
    | List(items: seq<Value>)
    | Tuple(items: seq<Value>)
    | Text(text: string)
    | Atom(id: int)

  const MAX_DEPTH: nat := 12
  const REDACTED := Text("[redacted]")

  const SENSITIVE_KEY_PARTS: seq<string> := [
    "password", "secret", "token", "authorization", "api_key", "apikey",
    "salary", "iban", "bank_account", "account_number", "tax_number",
    "tax_id", "ssn", "national_id", "card", "cvv", "otp", "session"]

  function LowerChar(c: char): char { if 'A' <= c <= 'Z' then ((c as int) + 32) as char else c }

  function Lower(s: string): (l: string)
    ensures |l| == |s|
  {
    if s == "" then "" else [LowerChar(s[0])] + Lower(s[1..])
  }

  predicate Contains(s: string, part: string) {
    part <= s || (s != "" && Contains(s[1..], part))
  }

  predicate IsSensitive(key: Key) {
    key.Name? && exists i :: 0 <= i < |SENSITIVE_KEY_PARTS| && Contains(Lower(key.text), SENSITIVE_KEY_PARTS[i])
  }

  // ----- which keys are sensitive -----

  /** The same letter, whatever its case; listed parts are lower case. */
  predicate SameLetter(c: char, p: char) {
    c == p || ('a' <= p <= 'z' && c as int + 32 == p as int)
  }

  /** `part` stands in `text` at `at`, in any mixture of cases. */
  predicate StandsAt(text: string, part: string, at: nat) {
    at + |part| <= |text| && forall k :: 0 <= k < |part| ==> SameLetter(text[at + k], part[k])
  }

  lemma {:induction false} LowerAt(s: string, i: nat)
    requires i < |s|
    ensures Lower(s)[i] == LowerChar(s[i])
  {
    if i > 0 {
      LowerAt(s[1..], i - 1);
    }
  }

  predicate IsSlice(s: string, part: string, at: nat) {
    at + |part| <= |s| && s[at..at + |part|] == part
  }

  lemma {:induction false} ContainsIff(s: string, part: string)
    ensures Contains(s, part) <==> exists at :: IsSlice(s, part, at)
  {
    if part <= s {
      assert IsSlice(s, part, 0);
    } else if s != "" {
      ContainsIff(s[1..], part);
      forall at: nat ensures IsSlice(s, part, at + 1) == IsSlice(s[1..], part, at) {
        if at + 1 + |part| <= |s| {
          assert s[at + 1..at + 1 + |part|] == s[1..][at..at + |part|];
        }
      }
      assert IsSlice(s, part, 0) ==> part <= s;
      if at: nat :| IsSlice(s, part, at) {
        assert at > 0 && IsSlice(s[1..], part, at - 1);
      }
      if at: nat :| IsSlice(s[1..], part, at) {
        assert IsSlice(s, part, at + 1);
      }
    }
  }

  predicate LowerCase(part: string) {
    forall k :: 0 <= k < |part| ==> 'a' <= part[k] <= 'z' || part[k] == '_'
  }

  lemma LowersTo(c: char, p: char)
    requires 'a' <= p <= 'z' || p == '_'
    ensures LowerChar(c) == p <==> SameLetter(c, p)
  {}

  lemma StandsIffSlice(text: string, part: string, at: nat)
    requires LowerCase(part)
    ensures IsSlice(Lower(text), part, at) <==> StandsAt(text, part, at)
  {
    if at + |part| <= |text| {
      var slice := Lower(text)[at..at + |part|];
      forall k | 0 <= k < |part| ensures slice[k] == part[k] <==> SameLetter(text[at + k], part[k]) {
        LowerAt(text, at + k);
        LowersTo(text[at + k], part[k]);
      }
    }
  }

  lemma PartsAreLowerCase()
    ensures forall i :: 0 <= i < |SENSITIVE_KEY_PARTS| ==> LowerCase(SENSITIVE_KEY_PARTS[i])
  {}

  lemma WordFoundIff(text: string, part: string)
    requires LowerCase(part)
    ensures Contains(Lower(text), part) <==> exists at :: StandsAt(text, part, at)
  {
    ContainsIff(Lower(text), part);
    forall at ensures IsSlice(Lower(text), part, at) <==> StandsAt(text, part, at) {
      StandsIffSlice(text, part, at);
    }
  }

  /** A text key is sensitive exactly when one of the listed words stands in it somewhere, in
      any case; keys that are not text never are. */
  lemma SensitiveIff(key: Key)
    ensures IsSensitive(key)
            <==> key.Name? && exists i, at: nat :: 0 <= i < |SENSITIVE_KEY_PARTS|
                                                   && StandsAt(key.text, SENSITIVE_KEY_PARTS[i], at)
  {
    if key.Name? {
      PartsAreLowerCase();
      forall i | 0 <= i < |SENSITIVE_KEY_PARTS|
        ensures Contains(Lower(key.text), SENSITIVE_KEY_PARTS[i])
                <==> exists at :: StandsAt(key.text, SENSITIVE_KEY_PARTS[i], at)
      {
        WordFoundIff(key.text, SENSITIVE_KEY_PARTS[i]);
      }
    }
  }

  // ----- the scrubber -----

  function Scrub(v: Value, depth: nat): Value
    decreases v, 1
  {
    if depth > MAX_DEPTH then v else
    match v
    case Dict(es) => Dict(ScrubEntries(es, depth + 1))
    case List(xs) => List(ScrubItems(xs, depth + 1))
    case Tuple(xs) => Tuple(ScrubItems(xs, depth + 1))
    case _ => v
  }

  function ScrubItems(xs: seq<Value>, depth: nat): seq<Value>
    decreases xs, 0
  {
    if |xs| == 0 then [] else [Scrub(xs[0], depth)] + ScrubItems(xs[1..], depth)
  }

  function ScrubEntries(es: seq<Entry>, depth: nat): seq<Entry>
    decreases es, 0
  {
    if |es| == 0 then [] else [ScrubEntry(es[0], depth)] + ScrubEntries(es[1..], depth)
  }

  function ScrubEntry(e: Entry, depth: nat): Entry
    decreases e, 0
  {
    Entry(e.key, if IsSensitive(e.key) then REDACTED else Scrub(e.value, depth))
  }

  // ----- what a scrubbed value is -----

  /** Every sensitive key of a dict within the depth bound holds the redaction mark. */
  predicate Clean(v: Value, depth: nat)
    decreases v, 1
  {
    depth > MAX_DEPTH ||
    match v
    case Dict(es) => CleanEntries(es, depth + 1)
    case List(xs) => CleanItems(xs, depth + 1)
    case Tuple(xs) => CleanItems(xs, depth + 1)
    case _ => true
  }

  predicate CleanItems(xs: seq<Value>, depth: nat)
    decreases xs, 0
  {
    |xs| == 0 || (Clean(xs[0], depth) && CleanItems(xs[1..], depth))
  }

  predicate CleanEntries(es: seq<Entry>, depth: nat)
    decreases es, 0
  {
    |es| == 0 || (CleanEntry(es[0], depth) && CleanEntries(es[1..], depth))
  }

  predicate CleanEntry(e: Entry, depth: nat)
    decreases e, 0
  {
    if IsSensitive(e.key) then e.value == REDACTED else Clean(e.value, depth)
  }

  lemma {:induction false} ScrubbedIsClean(v: Value, depth: nat)
    ensures Clean(Scrub(v, depth), depth)
    decreases v, 1
  {
    if depth <= MAX_DEPTH {
      match v
      case Dict(es) => ScrubbedEntriesAreClean(es, depth + 1);
      case List(xs) => ScrubbedItemsAreClean(xs, depth + 1);
      case Tuple(xs) => ScrubbedItemsAreClean(xs, depth + 1);
      case _ =>
    }
  }

  lemma {:induction false} ScrubbedItemsAreClean(xs: seq<Value>, depth: nat)
    ensures CleanItems(ScrubItems(xs, depth), depth)
    decreases xs, 0
  {
    if |xs| > 0 {
      ScrubbedIsClean(xs[0], depth);
      ScrubbedItemsAreClean(xs[1..], depth);
      assert ScrubItems(xs, depth)[1..] == ScrubItems(xs[1..], depth);
    }
  }

  lemma {:induction false} ScrubbedEntriesAreClean(es: seq<Entry>, depth: nat)
    ensures CleanEntries(ScrubEntries(es, depth), depth)
    decreases es, 0
  {
    if |es| > 0 {
      ScrubbedEntryIsClean(es[0], depth);
      ScrubbedEntriesAreClean(es[1..], depth);
      assert ScrubEntries(es, depth)[1..] == ScrubEntries(es[1..], depth);
    }
  }

  lemma {:induction false} ScrubbedEntryIsClean(e: Entry, depth: nat)
    ensures CleanEntry(ScrubEntry(e, depth), depth)
    decreases e, 0
  {
    ScrubbedIsClean(e.value, depth);
  }

  // ----- what scrubbing forgets, and nothing else -----

  /** So a value under such a key never leaves, however the key is written. */
  lemma ListedWordIsRedacted(text: string, v: Value, i: nat, at: nat)
    requires i < |SENSITIVE_KEY_PARTS| && StandsAt(text, SENSITIVE_KEY_PARTS[i], at)
    ensures Scrub(Dict([Entry(Name(text), v)]), 0) == Dict([Entry(Name(text), REDACTED)])
  {
    SensitiveIff(Name(text));
    var e := Entry(Name(text), v);
    assert [e][0] == e && [e][1..] == [];
    assert ScrubEntries([e], 1) == [ScrubEntry(e, 1)];
  }

  lemma HeadersAndTokensAreRedacted(v: Value)
    ensures Scrub(Dict([Entry(Name("Authorization"), v)]), 0) == Dict([Entry(Name("Authorization"), REDACTED)])
    ensures Scrub(Dict([Entry(Name("X-CSRFToken"), v)]), 0) == Dict([Entry(Name("X-CSRFToken"), REDACTED)])
  {
    assert SENSITIVE_KEY_PARTS[3] == "authorization" && SENSITIVE_KEY_PARTS[2] == "token";
    ListedWordIsRedacted("Authorization", v, 3, 0);
    ListedWordIsRedacted("X-CSRFToken", v, 2, 6);
  }

  /** The same up to the values under sensitive keys of dicts within the bound. */
  predicate Alike(v: Value, w: Value, depth: nat)
    decreases v, 1
  {
    if depth > MAX_DEPTH then v == w else
    match v
    case Dict(es) => w.Dict? && AlikeEntries(es, w.entries, depth + 1)
    case List(xs) => w.List? && AlikeItems(xs, w.items, depth + 1)
    case Tuple(xs) => w.Tuple? && AlikeItems(xs, w.items, depth + 1)
    case _ => v == w
  }

  predicate AlikeItems(xs: seq<Value>, ys: seq<Value>, depth: nat)
    decreases xs, 0
  {
    |xs| == |ys| && (|xs| == 0 || (Alike(xs[0], ys[0], depth) && AlikeItems(xs[1..], ys[1..], depth)))
  }

  predicate AlikeEntries(es: seq<Entry>, fs: seq<Entry>, depth: nat)
    decreases es, 0
  {
    |es| == |fs| &&
    (|es| == 0 || (AlikeEntry(es[0], fs[0], depth) && AlikeEntries(es[1..], fs[1..], depth)))
  }

  predicate AlikeEntry(e: Entry, f: Entry, depth: nat)
    decreases e, 0
  {
    e.key == f.key && (IsSensitive(e.key) || Alike(e.value, f.value, depth))
  }

  /** Two values scrub alike exactly when they are the same up to sensitive values. */
  lemma {:induction false} ScrubsEqualIffAlike(v: Value, w: Value, depth: nat)
    ensures Scrub(v, depth) == Scrub(w, depth) <==> Alike(v, w, depth)
    decreases v, 1
  {
    if depth <= MAX_DEPTH {
      match v
      case Dict(es) =>
        if w.Dict? {
          EntriesScrubEqualIffAlike(es, w.entries, depth + 1);
        }
      case List(xs) =>
        if w.List? {
          ItemsScrubEqualIffAlike(xs, w.items, depth + 1);
        }
      case Tuple(xs) =>
        if w.Tuple? {
          ItemsScrubEqualIffAlike(xs, w.items, depth + 1);
        }
      case _ =>
    }
  }

  lemma {:induction false} ItemsScrubEqualIffAlike(xs: seq<Value>, ys: seq<Value>, depth: nat)
    ensures ScrubItems(xs, depth) == ScrubItems(ys, depth) <==> AlikeItems(xs, ys, depth)
    decreases xs, 0
  {
    if |xs| > 0 && |ys| > 0 {
      ScrubsEqualIffAlike(xs[0], ys[0], depth);
      ItemsScrubEqualIffAlike(xs[1..], ys[1..], depth);
      var s, t := ScrubItems(xs, depth), ScrubItems(ys, depth);
      assert s[0] == Scrub(xs[0], depth) && s[1..] == ScrubItems(xs[1..], depth);
      assert t[0] == Scrub(ys[0], depth) && t[1..] == ScrubItems(ys[1..], depth);
      assert s == [s[0]] + s[1..] && t == [t[0]] + t[1..];
    }
  }

  lemma {:induction false} EntriesScrubEqualIffAlike(es: seq<Entry>, fs: seq<Entry>, depth: nat)
    ensures ScrubEntries(es, depth) == ScrubEntries(fs, depth) <==> AlikeEntries(es, fs, depth)
    decreases es, 0
  {
    if |es| > 0 && |fs| > 0 {
      EntryScrubsEqualIffAlike(es[0], fs[0], depth);
      EntriesScrubEqualIffAlike(es[1..], fs[1..], depth);
      var s, t := ScrubEntries(es, depth), ScrubEntries(fs, depth);
      assert s[0] == ScrubEntry(es[0], depth) && s[1..] == ScrubEntries(es[1..], depth);
      assert t[0] == ScrubEntry(fs[0], depth) && t[1..] == ScrubEntries(fs[1..], depth);
      assert s == [s[0]] + s[1..] && t == [t[0]] + t[1..];
    }
  }

  lemma {:induction false} EntryScrubsEqualIffAlike(e: Entry, f: Entry, depth: nat)
    ensures ScrubEntry(e, depth) == ScrubEntry(f, depth) <==> AlikeEntry(e, f, depth)
    decreases e, 0
  {
    ScrubsEqualIffAlike(e.value, f.value, depth);
  }

  /** A value comes back unchanged exactly when it is already clean. */
  lemma {:induction false} UnchangedIffClean(v: Value, depth: nat)
    ensures Scrub(v, depth) == v <==> Clean(v, depth)
    decreases v, 1
  {
    if depth <= MAX_DEPTH {
      match v
      case Dict(es) => EntriesUnchangedIffClean(es, depth + 1);
      case List(xs) => ItemsUnchangedIffClean(xs, depth + 1);
      case Tuple(xs) => ItemsUnchangedIffClean(xs, depth + 1);
      case _ =>
    }
  }

  lemma {:induction false} ItemsUnchangedIffClean(xs: seq<Value>, depth: nat)
    ensures ScrubItems(xs, depth) == xs <==> CleanItems(xs, depth)
    decreases xs, 0
  {
    if |xs| > 0 {
      UnchangedIffClean(xs[0], depth);
      ItemsUnchangedIffClean(xs[1..], depth);
      var s := ScrubItems(xs, depth);
      assert s[0] == Scrub(xs[0], depth) && s[1..] == ScrubItems(xs[1..], depth);
      assert xs == [xs[0]] + xs[1..] && s == [s[0]] + s[1..];
    }
  }

  lemma {:induction false} EntriesUnchangedIffClean(es: seq<Entry>, depth: nat)
    ensures ScrubEntries(es, depth) == es <==> CleanEntries(es, depth)
    decreases es, 0
  {
    if |es| > 0 {
      EntryUnchangedIffClean(es[0], depth);
      EntriesUnchangedIffClean(es[1..], depth);
      var s := ScrubEntries(es, depth);
      assert s[0] == ScrubEntry(es[0], depth) && s[1..] == ScrubEntries(es[1..], depth);
      assert es == [es[0]] + es[1..] && s == [s[0]] + s[1..];
    }
  }

  lemma {:induction false} EntryUnchangedIffClean(e: Entry, depth: nat)
    ensures ScrubEntry(e, depth) == e <==> CleanEntry(e, depth)
    decreases e, 0
  {
    UnchangedIffClean(e.value, depth);
  }

  lemma ScrubIsIdempotent(v: Value, depth: nat)
    ensures Scrub(Scrub(v, depth), depth) == Scrub(v, depth)
  {
    ScrubbedIsClean(v, depth);
    UnchangedIffClean(Scrub(v, depth), depth);
  }

  /** Nothing but values under sensitive keys is touched: shape, keys and order stay. */
  lemma ScrubIsAlike(v: Value, depth: nat)
    ensures Alike(v, Scrub(v, depth), depth)
  {
    ScrubIsIdempotent(v, depth);
    ScrubsEqualIffAlike(v, Scrub(v, depth), depth);
  }

  // ----- the depth bound -----

  function Wrapped(v: Value, lists: nat): Value {
    if lists == 0 then v else List([Wrapped(v, lists - 1)])
  }

  lemma {:induction false} ScrubReachesThrough(v: Value, lists: nat, depth: nat)
    requires lists + depth <= MAX_DEPTH + 1
    ensures Scrub(Wrapped(v, lists), depth) == Wrapped(Scrub(v, depth + lists), lists)
  {
    if lists > 0 {
      ScrubReachesThrough(v, lists - 1, depth + 1);
      var inner := Wrapped(v, lists - 1);
      assert [inner][0] == inner && [inner][1..] == [];
      assert ScrubItems([inner], depth + 1) == [Scrub(inner, depth + 1)];
    }
  }

  /** What lies under lists is left alone exactly when there are thirteen or more, or
      there is nothing to redact. */
  lemma ListsHideFromThirteen(v: Value, lists: nat)
    ensures Scrub(Wrapped(v, lists), 0) == Wrapped(v, lists) <==> lists > MAX_DEPTH || Clean(v, lists)
  {
    if lists <= MAX_DEPTH {
      ScrubReachesThrough(v, lists, 0);
      WrappingIsInjective(Scrub(v, lists), v, lists);
      UnchangedIffClean(v, lists);
    } else {
      var inner := Wrapped(v, lists - MAX_DEPTH - 1);
      WrappingAdds(v, MAX_DEPTH + 1, lists - MAX_DEPTH - 1);
      ScrubReachesThrough(inner, MAX_DEPTH + 1, 0);
    }
  }

  lemma {:induction false} WrappingIsInjective(v: Value, w: Value, lists: nat)
    ensures Wrapped(v, lists) == Wrapped(w, lists) <==> v == w
  {
    if lists > 0 {
      WrappingIsInjective(v, w, lists - 1);
      assert Wrapped(v, lists).items[0] == Wrapped(v, lists - 1) && Wrapped(w, lists).items[0] == Wrapped(w, lists - 1);
    }
  }

  lemma {:induction false} WrappingAdds(v: Value, a: nat, b: nat)
    ensures Wrapped(Wrapped(v, b), a) == Wrapped(v, a + b)
  {
    if a > 0 {
      WrappingAdds(v, a - 1, b);
    }
  }
}
