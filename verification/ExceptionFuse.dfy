/** The per-session fuse for repeated exceptions (packages/core/analytics/exception-dedupe.ts). */
module ExceptionFuse {
  import opened Lists

  const SAMPLE_LIMIT := 3
  const MAX_FINGERPRINTS := 50

  /** An exception's fingerprint, if it has one, and which storage operations fail for it. */
  datatype Event = Event(fingerprint: Option<string>, hasStorage: bool, getFails: bool, setFails: bool)

  type Counts = map<string, nat>

  function CountOf(counts: Counts, fp: string): nat {
    if fp in counts then counts[fp] else 0
  }

  /** The event reaches the decision: it has a fingerprint and the counts can be read. */
  predicate Decides(e: Event) {
    e.fingerprint.Some? && e.hasStorage && !e.getFails
  }

  predicate Drops(counts: Counts, e: Event) {
    Decides(e) && CountOf(counts, e.fingerprint.value) >= SAMPLE_LIMIT
  }

  /** The event is counted in storage. */
  predicate Records(counts: Counts, e: Event) {
    Decides(e) && !e.setFails && CountOf(counts, e.fingerprint.value) < SAMPLE_LIMIT
    && (CountOf(counts, e.fingerprint.value) > 0 || |counts| < MAX_FINGERPRINTS)
  }

  function Next(counts: Counts, e: Event): Counts {
    if Records(counts, e) then counts[e.fingerprint.value := CountOf(counts, e.fingerprint.value) + 1] else counts
  }

  class Fuse {
    var stored: Counts

    constructor ()
      ensures stored == map[]
    {
      stored := map[];
    }

    /** `shouldDropException`; a storage operation that fails throws where the source catches. */
    method ShouldDropException(e: Event) returns (drop: bool)
      modifies this
      ensures drop == Drops(old(stored), e) && stored == Next(old(stored), e)
    {
      if e.fingerprint.None? { return false; }
      if !e.hasStorage { return false; }
      if e.getFails { return false; }
      var counts, fp := stored, e.fingerprint.value;
      var current := if fp in counts then counts[fp] else 0;
      if current >= SAMPLE_LIMIT { return true; }
      if current == 0 && |counts| >= MAX_FINGERPRINTS { return false; }
      counts := counts[fp := current + 1];
      if !e.setFails { stored := counts; }
      return false;
    }
  }

  // ---------------------------------------------------------------- runs

  function Run(events: seq<Event>): Counts {
    if events == [] then map[] else Next(Run(events[..|events| - 1]), events[|events| - 1])
  }

  /** Event `i` of a session is dropped. */
  predicate Dropped(events: seq<Event>, i: nat)
    requires i < |events|
  {
    Drops(Run(events[..i]), events[i])
  }

  /** How many of the first `n` events have this fingerprint and were kept. */
  function KeptOf(events: seq<Event>, n: nat, fp: string): nat
    requires n <= |events|
  {
    if n == 0 then 0
    else KeptOf(events, n - 1, fp) + if events[n - 1].fingerprint == Some(fp) && !Dropped(events, n - 1) then 1 else 0
  }

  function SeenOf(events: seq<Event>, n: nat, fp: string): nat
    requires n <= |events|
  {
    if n == 0 then 0
    else SeenOf(events, n - 1, fp) + if events[n - 1].fingerprint == Some(fp) then 1 else 0
  }

  /** What storage keeps in bounds, whatever fails. */
  ghost predicate Bounded(counts: Counts) {
    |counts| <= 50 && forall fp :: fp in counts ==> 1 <= counts[fp] <= 3
  }

  /** At most fifty fingerprints are ever stored, each with a count of at most three. */
  lemma {:induction false} RunBounded(events: seq<Event>)
    ensures Bounded(Run(events))
    decreases |events|
  {
    if events != [] {
      RunBounded(events[..|events| - 1]);
    }
  }

  lemma {:induction false} RunSnoc(events: seq<Event>, n: nat)
    requires n < |events|
    ensures Run(events[..n + 1]) == Next(Run(events[..n]), events[n])
  {
    assert events[..n + 1][..n] == events[..n];
  }

  /** A stored count never exceeds the events that were kept. */
  lemma {:induction false} CountsOnlyKept(events: seq<Event>, n: nat, fp: string)
    requires n <= |events|
    ensures CountOf(Run(events[..n]), fp) <= KeptOf(events, n, fp)
  {
    if n > 0 {
      CountsOnlyKept(events, n - 1, fp);
      RunSnoc(events, n - 1);
    }
  }

  /** However storage fails, an event is dropped only after three with its fingerprint were kept. */
  lemma {:induction false} NeverOverDrops(events: seq<Event>, i: nat)
    requires i < |events| && Dropped(events, i)
    ensures events[i].fingerprint.Some? && KeptOf(events, i, events[i].fingerprint.value) >= 3
  {
    CountsOnlyKept(events, i, events[i].fingerprint.value);
  }

  /** An event for which some storage operation fails leaves the counts as they were. */
  lemma {:induction false} FailureCountsNothing(events: seq<Event>, i: nat)
    requires i < |events| && (!events[i].hasStorage || events[i].getFails || events[i].setFails)
    ensures Run(events[..i + 1]) == Run(events[..i])
  {
    RunSnoc(events, i);
  }

  /** An event is dropped if its counts can be read and show three of its fingerprint, whether or not they can be written. */
  lemma {:induction false} DropsIffCounted(events: seq<Event>, i: nat)
    requires i < |events|
    ensures var e, counts := events[i], Run(events[..i]);
      Dropped(events, i) <==> (e.hasStorage && !e.getFails
        && e.fingerprint.Some? && e.fingerprint.value in counts && counts[e.fingerprint.value] >= 3)
  {
  }

  // ---------------------------------------------------------------- without failures

  ghost predicate Healthy(events: seq<Event>) {
    forall i :: 0 <= i < |events| ==> events[i].hasStorage && !events[i].getFails && !events[i].setFails
  }

  /** The fingerprints among the first `n` events, in the order in which they first appear. */
  function FirstSeen(events: seq<Event>, n: nat): seq<string>
    requires n <= |events|
  {
    if n == 0 then []
    else
      var before, fp := FirstSeen(events, n - 1), events[n - 1].fingerprint;
      if fp.Some? && fp.value !in before then before + [fp.value] else before
  }

  /** The first fifty fingerprints of the session. */
  function Tracked(events: seq<Event>, n: nat): seq<string>
    requires n <= |events|
  {
    var first := FirstSeen(events, n);
    if |first| <= 50 then first else first[..50]
  }

  function Capped(n: nat): nat {
    if n < 3 then n else 3
  }

  lemma {:induction false} FirstSeenFacts(events: seq<Event>, n: nat, fp: string)
    requires n <= |events|
    ensures Distinct(FirstSeen(events, n))
    ensures fp in FirstSeen(events, n) <==> SeenOf(events, n, fp) > 0
  {
    if n > 0 {
      FirstSeenFacts(events, n - 1, fp);
      var before, now := FirstSeen(events, n - 1), events[n - 1].fingerprint;
      if now.Some? && now.value !in before { DistinctConcat(before, [now.value]); }
    }
  }

  /** Storage holds exactly the first fifty fingerprints, each with its occurrences up to three. */
  ghost predicate Exact(events: seq<Event>, n: nat)
    requires n <= |events|
  {
    var counts, ids := Run(events[..n]), Tracked(events, n);
    && |counts| == |ids|
    && (forall fp :: fp in counts <==> fp in ids)
    && forall fp :: fp in counts ==> counts[fp] == Capped(SeenOf(events, n, fp))
  }

  lemma {:induction false} HealthyIsExact(events: seq<Event>, n: nat)
    requires Healthy(events) && n <= |events|
    ensures Exact(events, n)
  {
    if n > 0 {
      var e := events[n - 1];
      HealthyIsExact(events, n - 1);
      RunSnoc(events, n - 1);
      if e.fingerprint.None? {
        assert Tracked(events, n) == Tracked(events, n - 1);
      } else if e.fingerprint.value in FirstSeen(events, n - 1) {
        SeenAgain(events, n, e.fingerprint.value);
      } else {
        SeenFirst(events, n, e.fingerprint.value);
      }
    }
  }

  lemma {:induction false} SeenAgain(events: seq<Event>, n: nat, fp: string)
    requires Healthy(events) && 0 < n <= |events| && events[n - 1].fingerprint == Some(fp) && Exact(events, n - 1)
    requires Run(events[..n]) == Next(Run(events[..n - 1]), events[n - 1])
    requires fp in FirstSeen(events, n - 1)
    ensures Exact(events, n)
  {
    var counts, ids := Run(events[..n - 1]), Tracked(events, n - 1);
    FirstSeenFacts(events, n - 1, fp);
    assert Tracked(events, n) == ids;
    NextAgain(counts, events[n - 1], SeenOf(events, n - 1, fp));
    forall x | x in counts ensures Run(events[..n])[x] == Capped(SeenOf(events, n, x)) {
      assert x != fp ==> SeenOf(events, n, x) == SeenOf(events, n - 1, x);
    }
  }

  /** An event whose fingerprint has been seen `seen` times adds no fingerprint. */
  lemma {:induction false} NextAgain(counts: Counts, e: Event, seen: nat)
    requires Decides(e) && !e.setFails && seen > 0
    requires var fp := e.fingerprint.value;
      if fp in counts then counts[fp] == Capped(seen) else |counts| == MAX_FINGERPRINTS
    ensures var after := Next(counts, e);
      && |after| == |counts| && after.Keys == counts.Keys
      && forall x :: x in counts ==> after[x] == if x == e.fingerprint.value then Capped(seen + 1) else counts[x]
  {
    var fp := e.fingerprint.value;
    if Records(counts, e) { assert counts[fp := CountOf(counts, fp) + 1].Keys == counts.Keys; }
  }

  lemma {:induction false} SeenFirst(events: seq<Event>, n: nat, fp: string)
    requires Healthy(events) && 0 < n <= |events| && events[n - 1].fingerprint == Some(fp) && Exact(events, n - 1)
    requires Run(events[..n]) == Next(Run(events[..n - 1]), events[n - 1])
    requires fp !in FirstSeen(events, n - 1)
    ensures Exact(events, n)
  {
    var counts, ids := Run(events[..n - 1]), Tracked(events, n - 1);
    var room := |FirstSeen(events, n - 1)| < MAX_FINGERPRINTS;
    assert SeenOf(events, n, fp) == 1 by { FirstSeenFacts(events, n - 1, fp); }
    assert fp !in counts;
    assert Run(events[..n]) == if room then counts[fp := 1] else counts;
    forall x | x in Run(events[..n]) ensures Run(events[..n])[x] == Capped(SeenOf(events, n, x)) {
      assert x != fp ==> SeenOf(events, n, x) == SeenOf(events, n - 1, x);
    }
  }

  /** Without failures, exactly the events after the third of each of the first fifty fingerprints are dropped. */
  lemma {:induction false} DropsExactly(events: seq<Event>, i: nat)
    requires Healthy(events) && i < |events|
    ensures Dropped(events, i) <==>
      events[i].fingerprint.Some? && events[i].fingerprint.value in Tracked(events, i)
      && SeenOf(events, i, events[i].fingerprint.value) >= 3
  {
    HealthyIsExact(events, i);
  }
}
