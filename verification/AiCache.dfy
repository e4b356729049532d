/** The bounded cache of AI answers (internal/engine/kiro.go).

    Entries carry the time they were set; a full cache evicts an oldest one, and a lookup
    ignores entries older than the TTL.  The clock is an input and never runs backwards. */
module AiCache {

  import opened Common

  const MAX_SIZE: nat := 500

  /** Ten minutes, in nanoseconds. */
  const TTL: int := 10 * 60 * 1_000_000_000

  datatype Entry = Entry(result: bool, timestamp: int)

  type Entries = map<string, Entry>

  function Lookup(entries: Entries, key: string, now: int): Option<bool> {
    if key !in entries then None
    else if now - entries[key].timestamp > TTL then None
    else Some(entries[key].result)
  }

  ghost predicate Oldest(entries: Entries, victim: string) {
    victim in entries && forall k | k in entries :: entries[victim].timestamp <= entries[k].timestamp
  }

  /** The entries after a set; `victim` is the eviction choice when the cache is full.  The
      code takes an empty victim for "none found" and evicts nothing. */
  function Stored(entries: Entries, key: string, result: bool, now: int, victim: string): Entries {
    var room := if |entries| >= MAX_SIZE && victim != "" then entries - {victim} else entries;
    room[key := Entry(result, now)]
  }

  function CacheKey(op: string, emailId: string, question: string): string {
    op + ":" + emailId + ":" + question
  }

  class KiroCache {
    var entries: Entries

    constructor ()
      ensures entries == map[]
    {
      entries := map[];
    }

    method Get(key: string, now: int) returns (r: Option<bool>)
      ensures r == Lookup(entries, key, now)
    {
      if key !in entries {
        return None;
      }
      var entry := entries[key];
      if now - entry.timestamp > TTL {
        return None;
      }
      r := Some(entry.result);
    }

    /** The eviction scan, in the map's arbitrary order. */
    method FindOldest() returns (oldestKey: string)
      requires entries != map[]
      ensures Oldest(entries, oldestKey)
    {
      var first, oldestTime := true, 0;
      oldestKey := "";
      var todo := entries.Keys;
      while todo != {}
        invariant todo <= entries.Keys
        invariant first ==> todo == entries.Keys
        invariant !first ==>
                    && oldestKey in entries && oldestTime == entries[oldestKey].timestamp
                    && forall k | k in entries && k !in todo :: oldestTime <= entries[k].timestamp
        decreases todo
      {
        var k :| k in todo;
        todo := todo - {k};
        var v := entries[k];
        if first || v.timestamp < oldestTime {
          oldestKey, oldestTime, first := k, v.timestamp, false;
        }
      }
      assert entries.Keys != {};
    }

    /** After a set the key is there with this value; a full cache loses one oldest entry. */
    method Set(key: string, result: bool, now: int) returns (ghost victim: string)
      modifies this
      ensures |old(entries)| >= MAX_SIZE ==> Oldest(old(entries), victim)
      ensures entries == Stored(old(entries), key, result, now, victim)
    {
      victim := "";
      if |entries| >= MAX_SIZE {
        var oldestKey := FindOldest();
        victim := oldestKey;
        if oldestKey != "" {
          entries := entries - {oldestKey};
        }
      }
      entries := entries[key := Entry(result, now)];
    }
  }

  // ---------------------------------------------------------------- runs

  datatype SetEvent = SetEvent(key: string, result: bool, at: int)

  /** `history` is every set so far, oldest first. */
  datatype World = World(now: int, entries: Entries, history: seq<SetEvent>)

  datatype Step = Tick(elapsed: nat) | Set(key: string, result: bool, victim: string)

  /** A set whose victim is not an oldest entry of a full cache is not a step of the code. */
  ghost function Next(w: World, step: Step): World {
    match step
    case Tick(elapsed) => w.(now := w.now + elapsed)
    case Set(key, result, victim) =>
      if |w.entries| >= MAX_SIZE && !Oldest(w.entries, victim) then w
      else w.(entries := Stored(w.entries, key, result, w.now, victim),
              history := w.history + [SetEvent(key, result, w.now)])
  }

  ghost function Run(w: World, steps: seq<Step>): World
    decreases |steps|
  {
    if steps == [] then w else Run(Next(w, steps[0]), steps[1..])
  }

  function Start(now: int): World {
    World(now, map[], [])
  }

  /** The most recent set of a key. */
  function LastSet(history: seq<SetEvent>, key: string): Option<SetEvent> {
    if history == [] then None
    else if history[|history| - 1].key == key then Some(history[|history| - 1])
    else LastSet(history[..|history| - 1], key)
  }

  ghost predicate Current(w: World) {
    forall key | key in w.entries ::
      LastSet(w.history, key) == Some(SetEvent(key, w.entries[key].result, w.entries[key].timestamp))
  }

  ghost predicate Bounded(w: World) {
    |w.entries| <= MAX_SIZE && "" !in w.entries
  }

  lemma StepKeepsCurrent(w: World, step: Step)
    requires Current(w)
    ensures Current(Next(w, step))
  {
    var w' := Next(w, step);
    if step.Set? && w' != w {
      assert w'.history[..|w'.history| - 1] == w.history;
    }
  }

  lemma SetStaysBounded(entries: Entries, key: string, result: bool, now: int, victim: string)
    requires |entries| <= MAX_SIZE && key != "" && victim != ""
    requires |entries| >= MAX_SIZE ==> victim in entries
    ensures |Stored(entries, key, result, now, victim)| <= MAX_SIZE
  {
    var room := if |entries| >= MAX_SIZE then entries - {victim} else entries;
    if |entries| >= MAX_SIZE {
      assert room.Keys == entries.Keys - {victim};
    }
    assert |room.Keys| < MAX_SIZE;
    assert Stored(entries, key, result, now, victim).Keys == room.Keys + {key};
  }

  lemma StepKeepsBounded(w: World, step: Step)
    requires Bounded(w) && (step.Set? ==> step.key != "")
    ensures Bounded(Next(w, step))
  {
    if step.Set? && (|w.entries| >= MAX_SIZE ==> Oldest(w.entries, step.victim)) {
      if |w.entries| >= MAX_SIZE {
        SetStaysBounded(w.entries, step.key, step.result, w.now, step.victim);
      } else {
        SetStaysBounded(w.entries, step.key, step.result, w.now, "any");
      }
    }
  }

  lemma {:induction false} RunKeeps(w: World, steps: seq<Step>)
    requires Current(w)
    ensures Current(Run(w, steps))
    ensures Bounded(w) && (forall i | 0 <= i < |steps| && steps[i].Set? :: steps[i].key != "") ==>
              Bounded(Run(w, steps))
    decreases |steps|
  {
    if steps != [] {
      StepKeepsCurrent(w, steps[0]);
      if Bounded(w) && (steps[0].Set? ==> steps[0].key != "") {
        StepKeepsBounded(w, steps[0]);
      }
      RunKeeps(Next(w, steps[0]), steps[1..]);
    }
  }

  /** In every run, whatever was evicted: a hit is the most recent value set for its key and
      is at most the TTL old; and with non-empty keys the cache never outgrows its limit. */
  lemma EveryRun(start: int, steps: seq<Step>, key: string)
    ensures var w := Run(Start(start), steps);
            Lookup(w.entries, key, w.now).Some? ==>
              && LastSet(w.history, key).Some?
              && LastSet(w.history, key).value.result == Lookup(w.entries, key, w.now).value
              && w.now - LastSet(w.history, key).value.at <= 600_000_000_000
    ensures (forall i | 0 <= i < |steps| && steps[i].Set? :: steps[i].key != "") ==>
              |Run(Start(start), steps).entries| <= 500
  {
    RunKeeps(Start(start), steps);
  }

  // ---------------------------------------------------------------- eviction

  function CountSets(steps: seq<Step>): nat {
    if steps == [] then 0 else (if steps[0].Set? then 1 else 0) + CountSets(steps[1..])
  }

  function Since(entries: Entries, t: int): set<string> {
    set k | k in entries && entries[k].timestamp >= t
  }

  /** The key is present from time `t` on, and `budget` more sets cannot fill the cache with
      entries that young. */
  ghost predicate Safe(w: World, key: string, t: int, budget: nat) {
    && t <= w.now
    && key in w.entries && w.entries[key].timestamp >= t
    && |Since(w.entries, t)| + budget <= MAX_SIZE
  }

  lemma YoungVictimMeansAllYoung(entries: Entries, victim: string, t: int)
    requires Oldest(entries, victim)
    ensures entries[victim].timestamp >= t ==> Since(entries, t) == entries.Keys
  {
  }

  lemma SetKeepsSafe(w: World, key: string, t: int, budget: nat, step: Step)
    requires Safe(w, key, t, budget) && budget > 0 && step.Set?
    ensures Safe(Next(w, step), key, t, budget - 1)
  {
    var w' := Next(w, step);
    if w' != w {
      var before, after := Since(w.entries, t), Since(w'.entries, t);
      if |w.entries| >= MAX_SIZE {
        YoungVictimMeansAllYoung(w.entries, step.victim, t);
        assert |w.entries.Keys| >= MAX_SIZE;
      }
      var grown := before + {step.key};
      assert after <= grown;
      assert grown == after + (grown - after);
    }
  }

  lemma {:induction false} RunKeepsSafe(w: World, key: string, t: int, steps: seq<Step>)
    requires Safe(w, key, t, CountSets(steps))
    ensures Safe(Run(w, steps), key, t, 0)
    decreases |steps|
  {
    if steps != [] {
      if steps[0].Set? {
        SetKeepsSafe(w, key, t, CountSets(steps), steps[0]);
      }
      RunKeepsSafe(Next(w, steps[0]), key, t, steps[1..]);
    }
  }

  /** Eviction takes the oldest: a value set after every other entry is still there as long
      as fewer sets than the cache's size have followed. */
  lemma RecentValueSurvives(w: World, key: string, result: bool, victim: string, steps: seq<Step>)
    requires |w.entries| >= MAX_SIZE ==> Oldest(w.entries, victim)
    requires forall k | k in w.entries :: w.entries[k].timestamp < w.now
    requires CountSets(steps) < MAX_SIZE
    ensures key in Run(Next(w, Set(key, result, victim)), steps).entries
  {
    var w' := Next(w, Set(key, result, victim));
    assert Since(w'.entries, w.now) == {key};
    RunKeepsSafe(w', key, w.now, steps);
  }

  /** Neither the entry nor its time changes while its key is not set again. */
  lemma {:induction false} EntryStays(w: World, key: string, steps: seq<Step>)
    requires forall i | 0 <= i < |steps| && steps[i].Set? :: steps[i].key != key
    ensures var w' := Run(w, steps);
            key in w'.entries ==> key in w.entries && w'.entries[key] == w.entries[key]
    decreases |steps|
  {
    if steps != [] {
      EntryStays(Next(w, steps[0]), key, steps[1..]);
    }
  }

  /** A value newer than all others answers every lookup until its TTL has passed, the key is
      set again or as many sets as the cache's size have followed, and none after its TTL. */
  lemma RecentValueHits(w: World, key: string, result: bool, victim: string, steps: seq<Step>)
    requires |w.entries| >= MAX_SIZE ==> Oldest(w.entries, victim)
    requires forall k | k in w.entries :: w.entries[k].timestamp < w.now
    requires CountSets(steps) < 500 && forall i | 0 <= i < |steps| && steps[i].Set? :: steps[i].key != key
    ensures var w' := Run(Next(w, Set(key, result, victim)), steps);
            Lookup(w'.entries, key, w'.now) == if w'.now - w.now <= 600_000_000_000 then Some(result) else None
  {
    RecentValueSurvives(w, key, result, victim, steps);
    EntryStays(Next(w, Set(key, result, victim)), key, steps);
  }

  // ---------------------------------------------------------------- keys

  /** Keys are never empty, so the "none found" test of the eviction is never wrong. */
  lemma KeysAreNonEmpty(op: string, emailId: string, question: string)
    ensures CacheKey(op, emailId, question) != ""
  {
    assert |CacheKey(op, emailId, question)| >= 2;
  }

  /** Two strings followed by a colon that start the same text are equal unless one goes on
      after the other's colon. */
  lemma SplitAtColon(a: string, b: string, x: string, y: string)
    requires a + ":" + x == b + ":" + y && |a| <= |b|
    ensures (a == b && x == y) || a + ":" <= b
  {
    var s := a + ":" + x;
    assert a == s[..|a|] && b == s[..|b|];
    if |a| == |b| {
      assert x == s[|a| + 1..] && y == s[|b| + 1..];
    } else {
      assert a + ":" == s[..|a| + 1];
      assert a + ":" == b[..|a| + 1];
    }
  }

  lemma ContinuationHasColon(a: string, b: string)
    ensures a + ":" <= b ==> ':' in b
  {
    if a + ":" <= b {
      assert b[|a|] == (a + ":")[|a|];
    }
  }

  lemma ColonFreeSplit(a: string, b: string, x: string, y: string)
    requires a + ":" + x == b + ":" + y && ':' !in a && ':' !in b
    ensures a == b && x == y
  {
    if |a| <= |b| {
      SplitAtColon(a, b, x, y);
      ContinuationHasColon(a, b);
    } else {
      SplitAtColon(b, a, y, x);
      ContinuationHasColon(b, a);
    }
  }

  lemma KeyParts(op: string, emailId: string, question: string)
    ensures CacheKey(op, emailId, question) == op + ":" + (emailId + ":" + question)
  {
  }

  /** For tags and Message-IDs without colons the key determines its parts. */
  lemma CacheKeyIsInjective(op: string, emailId: string, question: string, op2: string, emailId2: string, question2: string)
    requires ':' !in op && ':' !in op2 && ':' !in emailId && ':' !in emailId2
    requires CacheKey(op, emailId, question) == CacheKey(op2, emailId2, question2)
    ensures op == op2 && emailId == emailId2 && question == question2
  {
    KeyParts(op, emailId, question);
    KeyParts(op2, emailId2, question2);
    ColonFreeSplit(op, op2, emailId + ":" + question, emailId2 + ":" + question2);
    ColonFreeSplit(emailId, emailId2, question, question2);
  }

  /** In general, two different Message-IDs can be confused under one tag exactly when one
      of them continues the other with a colon. */
  lemma MessagesCollideIff(op: string, emailId: string, emailId2: string)
    requires emailId != emailId2
    ensures (exists q, q2 :: CacheKey(op, emailId, q) == CacheKey(op, emailId2, q2)) <==>
            emailId + ":" <= emailId2 || emailId2 + ":" <= emailId
  {
    if q, q2 :| CacheKey(op, emailId, q) == CacheKey(op, emailId2, q2) {
      KeyParts(op, emailId, q);
      KeyParts(op, emailId2, q2);
      var k := CacheKey(op, emailId, q);
      assert k[|op| + 1..] == emailId + ":" + q;
      assert k[|op| + 1..] == emailId2 + ":" + q2;
      if |emailId| <= |emailId2| {
        SplitAtColon(emailId, emailId2, q, q2);
      } else {
        SplitAtColon(emailId2, emailId, q2, q);
      }
    }
    if emailId + ":" <= emailId2 {
      Continue(op, emailId, emailId2);
    }
    if emailId2 + ":" <= emailId {
      Continue(op, emailId2, emailId);
    }
  }

  lemma Continue(op: string, a: string, b: string)
    requires a + ":" <= b
    ensures CacheKey(op, a, b[|a| + 1..] + ":") == CacheKey(op, b, "")
  {
    assert b == a + ":" + b[|a| + 1..];
  }

  // ---------------------------------------------------------------- questions and answers

  /** What a cached answer is about. */
  datatype Query = Query(op: string, emailId: string, question: string)

  function KeyFor(q: Query): string {
    CacheKey(q.op, q.emailId, q.question)
  }

  predicate ColonFree(q: Query) {
    ':' !in q.op && ':' !in q.emailId
  }

  /** One answer stored. */
  datatype Asked = Asked(query: Query, result: bool, at: int)

  /** `asked` names, set by set, what a history is about. */
  ghost predicate SameHistory(history: seq<SetEvent>, asked: seq<Asked>) {
    && |history| == |asked|
    && forall i | 0 <= i < |asked| :: history[i] == SetEvent(KeyFor(asked[i].query), asked[i].result, asked[i].at)
  }

  /** The most recent answer to a query. */
  function LastAnswer(asked: seq<Asked>, query: Query): Option<Asked> {
    if asked == [] then None
    else if asked[|asked| - 1].query == query then Some(asked[|asked| - 1])
    else LastAnswer(asked[..|asked| - 1], query)
  }

  /** With colon-free queries the last set of a key is the last answer to its query. */
  lemma {:induction false} LastSetIsLastAnswer(history: seq<SetEvent>, asked: seq<Asked>, query: Query)
    requires SameHistory(history, asked) && ColonFree(query)
    requires forall i | 0 <= i < |asked| :: ColonFree(asked[i].query)
    ensures match LastSet(history, KeyFor(query))
            case None => LastAnswer(asked, query) == None
            case Some(e) => LastAnswer(asked, query) == Some(Asked(query, e.result, e.at))
    decreases |asked|
  {
    if asked != [] {
      var n := |asked| - 1;
      var last := asked[n].query;
      if KeyFor(last) == KeyFor(query) {
        CacheKeyIsInjective(last.op, last.emailId, last.question, query.op, query.emailId, query.question);
      }
      LastSetIsLastAnswer(history[..n], asked[..n], query);
    }
  }

  /** In every run, whatever was evicted: a hit for a tag, Message-ID and question is the most
      recent answer stored for that same tag, Message-ID and question, and is at most the TTL
      old.  `asked` names what each set of the run was about. */
  lemma {:induction false} HitIsLastAnswer(start: int, steps: seq<Step>, asked: seq<Asked>, query: Query)
    requires ColonFree(query) && forall i | 0 <= i < |asked| :: ColonFree(asked[i].query)
    requires SameHistory(Run(Start(start), steps).history, asked)
    ensures var w := Run(Start(start), steps);
            var hit := Lookup(w.entries, KeyFor(query), w.now);
            hit.Some? ==>
              && LastAnswer(asked, query).Some?
              && LastAnswer(asked, query).value.result == hit.value
              && w.now - LastAnswer(asked, query).value.at <= 600_000_000_000
  {
    EveryRun(start, steps, KeyFor(query));
    LastSetIsLastAnswer(Run(Start(start), steps).history, asked, query);
  }

  // ---------------------------------------------------------------- classify

  datatype Answer = Answer(value: bool) | Failed

  /** classify's use of the cache: a hit answers without the API; an API failure is
      reported and not stored; an answer is stored under the message's own key. */
  method Classify(cache: KiroCache, vision: bool, messageId: string, question: string, now: int, api: Answer)
    returns (r: Answer)
    modifies cache
    ensures var key := CacheKey(if vision then "classify_vision" else "classify", messageId, question);
            match Lookup(old(cache.entries), key, now)
            case Some(v) => r == Answer(v) && cache.entries == old(cache.entries)
            case None =>
              && r == api
              && (api.Failed? ==> cache.entries == old(cache.entries))
              && (api.Answer? ==> Lookup(cache.entries, key, now) == Some(api.value))
  {
    var tag := "classify";
    if vision {
      tag := "classify_vision";
    }
    var key := CacheKey(tag, messageId, question);
    var hit := cache.Get(key, now);
    if hit.Some? {
      return Answer(hit.value);
    }
    if api.Failed? {
      return Failed;
    }
    ghost var victim := cache.Set(key, api.value, now);
    r := api;
  }
}
