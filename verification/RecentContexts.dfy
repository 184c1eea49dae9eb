/** Recently visited contexts, per workspace (packages/core/chat/recent-context-store.ts). */
module RecentContexts {
  import opened Lists

  const MAX_RECENT_CONTEXTS := 20
  const MAX_WORKSPACES := 50

  datatype Kind = Issue | Project

  /** What is shown for an entry: label, subtitle, statuses and icon. */
  type Details = string

  datatype Entry = Entry(kind: Kind, id: string, details: Details, visitedAt: int)

  function EntryKey(kind: Kind, id: string): string {
    (if kind.Issue? then "issue" else "project") + ":" + id
  }

  function Key(e: Entry): string {
    EntryKey(e.kind, e.id)
  }

  /** One property of the store's record. */
  datatype Bucket = Bucket(ws: string, items: seq<Entry>)

  /** The record, its properties in the order they were added. */
  type Record = seq<Bucket>

  function IndexOf(s: Record, ws: string): (r: nat)
    ensures r <= |s| && (r < |s| ==> s[r].ws == ws)
    ensures forall i :: 0 <= i < r ==> s[i].ws != ws
  {
    if s == [] || s[0].ws == ws then 0 else 1 + IndexOf(s[1..], ws)
  }

  predicate Has(s: Record, ws: string) {
    IndexOf(s, ws) < |s|
  }

  function Find(s: Record, ws: string): seq<Entry> {
    if Has(s, ws) then s[IndexOf(s, ws)].items else []
  }

  function Put(s: Record, ws: string, items: seq<Entry>): Record {
    if Has(s, ws) then s[IndexOf(s, ws) := Bucket(ws, items)] else s + [Bucket(ws, items)]
  }

  function Drop(s: Record, ws: string): Record {
    if Has(s, ws) then s[..IndexOf(s, ws)] + s[IndexOf(s, ws) + 1..] else s
  }

  /** `items.filter((item) => entryKey(item) !== key)`. */
  function Without(items: seq<Entry>, key: string): seq<Entry> {
    if items == [] then []
    else if Key(items[0]) == key then Without(items[1..], key)
    else [items[0]] + Without(items[1..], key)
  }

  function Take(items: seq<Entry>, n: nat): seq<Entry> {
    if n < |items| then items[..n] else items
  }

  function Visited(items: seq<Entry>, e: Entry): seq<Entry> {
    Take([e] + Without(items, Key(e)), MAX_RECENT_CONTEXTS)
  }

  function Latest(b: Bucket): int {
    if b.items == [] then 0 else b.items[0].visitedAt
  }

  /** The `reduce` over the record's keys: strictly earlier candidates replace the one held. */
  function OldestIndex(s: Record): (r: nat)
    requires s != []
    ensures r < |s|
    ensures forall i :: 0 <= i < |s| ==> Latest(s[r]) <= Latest(s[i])
    ensures forall i :: 0 <= i < r ==> Latest(s[r]) < Latest(s[i])
  {
    var n := |s| - 1;
    if n == 0 then 0
    else
      var k := OldestIndex(s[..n]);
      if Latest(s[n]) < Latest(s[k]) then n else k
  }

  function Evict(s: Record): Record {
    if |s| > MAX_WORKSPACES then Drop(s, s[OldestIndex(s)].ws) else s
  }

  function AfterVisit(s: Record, ws: string, e: Entry): Record {
    Evict(Put(s, ws, Visited(Find(s, ws), e)))
  }

  function AfterForget(s: Record, ws: string, key: string): Record {
    var left := Without(Find(s, ws), key);
    if !Has(s, ws) || |left| == |Find(s, ws)| then s
    else if left == [] then Drop(s, ws)
    else Put(s, ws, left)
  }

  function Kept(s: Record, active: seq<string>): Record {
    if s == [] then []
    else Kept(s[..|s| - 1], active) + (if s[|s| - 1].ws in active then [s[|s| - 1]] else [])
  }

  class Store {
    var byWorkspace: Record

    constructor ()
      ensures byWorkspace == []
    {
      byWorkspace := [];
    }

    method RecordVisit(wsId: string, kind: Kind, id: string, details: Details, now: int)
      modifies this
      ensures byWorkspace == AfterVisit(old(byWorkspace), wsId, Entry(kind, id, details, now))
    {
      var bucket, key := Find(byWorkspace, wsId), EntryKey(kind, id);
      var filtered := Without(bucket, key);
      var updated := Entry(kind, id, details, now);
      var nextBucket := Take([updated] + filtered, MAX_RECENT_CONTEXTS);
      var nextByWorkspace := Put(byWorkspace, wsId, nextBucket);
      if |nextByWorkspace| > MAX_WORKSPACES {
        var oldest := nextByWorkspace[OldestIndex(nextByWorkspace)].ws;
        nextByWorkspace := Drop(nextByWorkspace, oldest);
      }
      byWorkspace := nextByWorkspace;
    }

    method ForgetContext(wsId: string, kind: Kind, id: string)
      modifies this
      ensures byWorkspace == AfterForget(old(byWorkspace), wsId, EntryKey(kind, id))
    {
      if !Has(byWorkspace, wsId) { return; }
      var bucket := Find(byWorkspace, wsId);
      var nextBucket := Without(bucket, EntryKey(kind, id));
      if |nextBucket| == |bucket| { return; }
      if |nextBucket| == 0 {
        byWorkspace := Drop(byWorkspace, wsId);
        return;
      }
      byWorkspace := Put(byWorkspace, wsId, nextBucket);
    }

    method PruneWorkspaces(activeWsIds: seq<string>)
      modifies this
      ensures byWorkspace == Kept(old(byWorkspace), activeWsIds)
    {
      var changed, next: Record := false, [];
      for i := 0 to |byWorkspace|
        invariant byWorkspace == old(byWorkspace)
        invariant next == Kept(byWorkspace[..i], activeWsIds)
        invariant !changed ==> next == byWorkspace[..i]
      {
        assert byWorkspace[..i + 1][..i] == byWorkspace[..i];
        var b := byWorkspace[i];
        if b.ws in activeWsIds { next := next + [b]; } else { changed := true; }
      }
      assert byWorkspace[..|byWorkspace|] == byWorkspace;
      if changed { byWorkspace := next; }
    }
  }

  // ---------------------------------------------------------------- one bucket

  lemma {:induction false} KeyInjective(k1: Kind, id1: string, k2: Kind, id2: string)
    ensures EntryKey(k1, id1) == EntryKey(k2, id2) <==> k1 == k2 && id1 == id2
  {
    var x, y := EntryKey(k1, id1), EntryKey(k2, id2);
    assert x[0] == (if k1.Issue? then 'i' else 'p') && y[0] == (if k2.Issue? then 'i' else 'p');
    if k1 == k2 {
      var n := if k1.Issue? then 6 else 8;
      assert x[n..] == id1 && y[n..] == id2;
    }
  }

  /** Distinct keys, latest visit first. */
  ghost predicate Tidy(items: seq<Entry>) {
    items == [] || ((forall x :: x in items[1..] ==> Key(x) != Key(items[0]) && x.visitedAt <= items[0].visitedAt)
                    && Tidy(items[1..]))
  }

  lemma {:induction false} TidyMeans(items: seq<Entry>, i: nat, j: nat)
    requires Tidy(items) && i < j < |items|
    ensures Key(items[i]) != Key(items[j]) && items[i].visitedAt >= items[j].visitedAt
  {
    if i == 0 {
      assert items[j] == items[1..][j - 1];
    } else {
      TidyMeans(items[1..], i - 1, j - 1);
    }
  }

  lemma {:induction false} WithoutMember(items: seq<Entry>, key: string, x: Entry)
    ensures x in Without(items, key) <==> x in items && Key(x) != key
  {
    if items != [] {
      assert items == [items[0]] + items[1..];
      WithoutMember(items[1..], key, x);
    }
  }

  lemma {:induction false} WithoutTidy(items: seq<Entry>, key: string)
    requires Tidy(items)
    ensures Tidy(Without(items, key))
  {
    if items != [] {
      WithoutTidy(items[1..], key);
      if Key(items[0]) != key {
        var rest := Without(items[1..], key);
        assert Without(items, key)[1..] == rest;
        forall x | x in rest ensures x in items[1..] { WithoutMember(items[1..], key, x); }
      }
    }
  }

  lemma {:induction false} TakeTidy(items: seq<Entry>, n: nat)
    requires Tidy(items)
    ensures Tidy(Take(items, n))
  {
    if items != [] && n > 0 {
      TakeTidy(items[1..], n - 1);
      assert Take(items, n)[1..] == Take(items[1..], n - 1);
      assert forall x :: x in Take(items[1..], n - 1) ==> x in items[1..];
    }
  }

  ghost predicate GoodItems(items: seq<Entry>, now: int) {
    0 < |items| <= 20 && Tidy(items) && items[0].visitedAt <= now
  }

  lemma {:induction false} TidyBounded(items: seq<Entry>, now: int, x: Entry)
    requires Tidy(items) && items != [] && items[0].visitedAt <= now && x in items
    ensures x.visitedAt <= now
  {
    assert items == [items[0]] + items[1..];
  }

  lemma {:induction false} VisitedIsGood(items: seq<Entry>, now: int, e: Entry)
    requires items == [] || GoodItems(items, now)
    requires now <= e.visitedAt
    ensures GoodItems(Visited(items, e), e.visitedAt)
  {
    var rest := Without(items, Key(e));
    if items != [] { WithoutTidy(items, Key(e)); }
    forall x | x in rest ensures Key(x) != Key(e) && x.visitedAt <= e.visitedAt {
      WithoutMember(items, Key(e), x);
      TidyBounded(items, now, x);
    }
    assert ([e] + rest)[1..] == rest;
    TakeTidy([e] + rest, MAX_RECENT_CONTEXTS);
  }

  lemma {:induction false} ForgottenIsGood(items: seq<Entry>, now: int, key: string)
    requires GoodItems(items, now) && Without(items, key) != []
    ensures GoodItems(Without(items, key), now)
  {
    var rest := Without(items, key);
    WithoutTidy(items, key);
    WithoutAll(items, key);
    WithoutMember(items, key, rest[0]);
    TidyBounded(items, now, rest[0]);
  }

  // ---------------------------------------------------------------- the record

  ghost predicate DistinctIds(s: Record) {
    forall i, j :: 0 <= i < j < |s| ==> s[i].ws != s[j].ws
  }

  /** At most 50 workspaces, each with 1 to 20 tidy entries, none visited after `now`. */
  ghost predicate Good(s: Record, now: int) {
    DistinctIds(s) && |s| <= 50 && forall b :: b in s ==> GoodItems(b.items, now)
  }

  lemma {:induction false} IndexIsThe(s: Record, i: nat)
    requires DistinctIds(s) && i < |s|
    ensures IndexOf(s, s[i].ws) == i
  {
  }

  lemma {:induction false} DropFacts(s: Record, ws: string)
    requires DistinctIds(s)
    ensures DistinctIds(Drop(s, ws)) && (forall b :: b in Drop(s, ws) <==> b in s && b.ws != ws)
    ensures |Drop(s, ws)| == if Has(s, ws) then |s| - 1 else |s|
    ensures !Has(Drop(s, ws), ws)
  {
    if Has(s, ws) {
      CutOut(s, IndexOf(s, ws));
    } else {
      forall b | b in s ensures b.ws != ws { var i :| 0 <= i < |s| && s[i] == b; }
    }
  }

  lemma {:induction false} CutOut(s: Record, k: nat)
    requires DistinctIds(s) && k < |s|
    ensures var r := s[..k] + s[k + 1..];
      && DistinctIds(r) && |r| == |s| - 1 && !Has(r, s[k].ws)
      && forall b :: b in r <==> b in s && b.ws != s[k].ws
  {
    var r := s[..k] + s[k + 1..];
    assert forall i :: 0 <= i < |r| ==> r[i] == if i < k then s[i] else s[i + 1];
    forall b ensures b in r <==> b in s && b.ws != s[k].ws { CutOutMember(s, k, b); }
  }

  lemma {:induction false} CutOutMember(s: Record, k: nat, b: Bucket)
    requires DistinctIds(s) && k < |s|
    ensures b in s[..k] + s[k + 1..] <==> b in s && b.ws != s[k].ws
  {
    var r := s[..k] + s[k + 1..];
    if b in r {
      var j :| 0 <= j < |r| && r[j] == b;
      assert b == if j < k then s[j] else s[j + 1];
    }
    if b in s && b.ws != s[k].ws {
      var i :| 0 <= i < |s| && s[i] == b;
      assert b == if i < k then r[i] else r[i - 1];
    }
  }

  lemma {:induction false} PutFacts(s: Record, ws: string, items: seq<Entry>)
    requires DistinctIds(s)
    ensures DistinctIds(Put(s, ws, items)) && Has(Put(s, ws, items), ws) && Find(Put(s, ws, items), ws) == items
    ensures forall b :: b in Put(s, ws, items) ==> b == Bucket(ws, items) || (b in s && b.ws != ws)
    ensures |Put(s, ws, items)| == if Has(s, ws) then |s| else |s| + 1
  {
    var r, k := Put(s, ws, items), IndexOf(s, ws);
    assert forall i :: 0 <= i < |r| ==> r[i] == if i == k then Bucket(ws, items) else s[i];
    IndexIsThe(r, k);
  }

  lemma {:induction false} FindMember(s: Record, ws: string)
    ensures Has(s, ws) ==> Bucket(ws, Find(s, ws)) in s
  {
    if Has(s, ws) { assert s[IndexOf(s, ws)] == Bucket(ws, Find(s, ws)); }
  }

  lemma {:induction false} KeptFacts(s: Record, active: seq<string>)
    requires DistinctIds(s)
    ensures DistinctIds(Kept(s, active)) && |Kept(s, active)| <= |s|
    ensures forall b :: b in Kept(s, active) <==> b in s && b.ws in active
  {
    if s != [] {
      var n := |s| - 1;
      KeptFacts(s[..n], active);
      assert s == s[..n] + [s[n]];
      forall b | b in s[..n] ensures b.ws != s[n].ws {
        var i :| 0 <= i < n && s[i] == b;
      }
      var init := Kept(s[..n], active);
      assert forall i :: 0 <= i < |init| ==> init[i] in s[..n];
    }
  }

  // ---------------------------------------------------------------- every run

  datatype Op =
    | Visit(ws: string, entry: Entry)
    | Forget(ws: string, key: string)
    | Prune(active: seq<string>)

  function Step(s: Record, op: Op): Record {
    match op
    case Visit(ws, e) => AfterVisit(s, ws, e)
    case Forget(ws, key) => AfterForget(s, ws, key)
    case Prune(active) => Kept(s, active)
  }

  function Run(ops: seq<Op>): Record {
    if ops == [] then [] else Step(Run(ops[..|ops| - 1]), ops[|ops| - 1])
  }

  /** The clock never goes back: no visit is earlier than `start` or than a visit before it. */
  ghost predicate Clocked(ops: seq<Op>, start: int) {
    && (forall i :: 0 <= i < |ops| && ops[i].Visit? ==> start <= ops[i].entry.visitedAt)
    && (forall i, j :: 0 <= i < j < |ops| && ops[i].Visit? && ops[j].Visit? ==>
          ops[i].entry.visitedAt <= ops[j].entry.visitedAt)
  }

  function Now(ops: seq<Op>, start: int): int {
    if ops == [] then start
    else if ops[|ops| - 1].Visit? then ops[|ops| - 1].entry.visitedAt
    else Now(ops[..|ops| - 1], start)
  }

  lemma {:induction false} NowBounds(ops: seq<Op>, start: int, t: int)
    requires start <= t && forall i :: 0 <= i < |ops| && ops[i].Visit? ==> ops[i].entry.visitedAt <= t
    ensures Now(ops, start) <= t
  {
    if ops != [] { NowBounds(ops[..|ops| - 1], start, t); }
  }

  lemma {:induction false} LaterIsGood(s: Record, now: int, later: int)
    requires Good(s, now) && now <= later
    ensures Good(s, later)
  {
  }

  lemma {:induction false} VisitKeepsGood(s: Record, now: int, ws: string, e: Entry)
    requires Good(s, now) && now <= e.visitedAt
    ensures Good(AfterVisit(s, ws, e), e.visitedAt)
  {
    LaterIsGood(s, now, e.visitedAt);
    FindMember(s, ws);
    VisitedIsGood(Find(s, ws), now, e);
    var next := Put(s, ws, Visited(Find(s, ws), e));
    PutFacts(s, ws, Visited(Find(s, ws), e));
    if |next| > MAX_WORKSPACES {
      var k := OldestIndex(next);
      IndexIsThe(next, k);
      DropFacts(next, next[k].ws);
    }
  }

  lemma {:induction false} ForgetKeepsGood(s: Record, now: int, ws: string, key: string)
    requires Good(s, now)
    ensures Good(AfterForget(s, ws, key), now)
  {
    FindMember(s, ws);
    DropFacts(s, ws);
    var left := Without(Find(s, ws), key);
    if Has(s, ws) && left != [] {
      ForgottenIsGood(Find(s, ws), now, key);
      PutFacts(s, ws, left);
    }
  }

  /** At most 50 workspaces and per workspace 1 to 20 distinct entries, latest first, whatever happens. */
  lemma {:induction false} RunStaysGood(ops: seq<Op>, start: int)
    requires Clocked(ops, start)
    ensures Good(Run(ops), Now(ops, start))
  {
    if ops != [] {
      var before, op := ops[..|ops| - 1], ops[|ops| - 1];
      RunStaysGood(before, start);
      match op
      case Visit(ws, e) =>
        NowBounds(before, start, e.visitedAt);
        VisitKeepsGood(Run(before), Now(before, start), ws, e);
      case Forget(ws, key) => ForgetKeepsGood(Run(before), Now(before, start), ws, key);
      case Prune(active) => KeptFacts(Run(before), active);
    }
  }

  /** Two entries of one workspace, as shown: different contexts, the one visited later in front. */
  lemma {:induction false} EntriesInOrder(ops: seq<Op>, start: int, b: Bucket, i: nat, j: nat)
    requires Clocked(ops, start) && b in Run(ops) && i < j < |b.items|
    ensures (b.items[i].kind, b.items[i].id) != (b.items[j].kind, b.items[j].id)
    ensures b.items[i].visitedAt >= b.items[j].visitedAt
  {
    RunStaysGood(ops, start);
    TidyMeans(b.items, i, j);
  }

  /** Forgetting takes one entry away and no other, and leaves no empty bucket behind. */
  lemma {:induction false} ForgetsOnly(s: Record, now: int, ws: string, key: string, w: string, x: Entry)
    requires Good(s, now)
    ensures var r := AfterForget(s, ws, key);
      (x in Find(r, w) <==> x in Find(s, w) && !(w == ws && Key(x) == key)) && (Has(r, w) <==> Find(r, w) != [])
  {
    var r, left := AfterForget(s, ws, key), Without(Find(s, ws), key);
    ForgetKeepsGood(s, now, ws, key);
    FindMember(r, w);
    FindMember(s, w);
    WithoutMember(Find(s, ws), key, x);
    WithoutAll(Find(s, ws), key);
    DropFacts(s, ws);
    PutFacts(s, ws, left);
    if w != ws && Has(s, w) {
      var b := Bucket(w, Find(s, w));
      PutOthers(s, ws, left, b);
      FindByMember(r, b);
    } else if w != ws && Has(r, w) {
      FindByMember(s, Bucket(w, Find(r, w)));
    }
  }

  lemma {:induction false} WithoutAll(items: seq<Entry>, key: string)
    ensures |Without(items, key)| <= |items| && (|Without(items, key)| == |items| ==> Without(items, key) == items)
  {
    if items != [] {
      assert items == [items[0]] + items[1..];
      WithoutAll(items[1..], key);
    }
  }

  lemma {:induction false} PutOthers(s: Record, ws: string, items: seq<Entry>, b: Bucket)
    requires b in s && b.ws != ws
    ensures b in Put(s, ws, items)
  {
    var i :| 0 <= i < |s| && s[i] == b;
    assert Put(s, ws, items)[i] == b;
  }

  // ---------------------------------------------------------------- eviction

  /** A visit that overflows the record drops the workspace visited longest ago, and never the one just visited. */
  lemma {:induction false} EvictsOldest(s: Record, now: int, ws: string, e: Entry) returns (k: nat)
    requires Good(s, now) && now <= e.visitedAt
    requires |s| == 50 && !Has(s, ws)
    ensures k < |s| && s[k].ws != ws
    ensures AfterVisit(s, ws, e) == s[..k] + s[k + 1..] + [Bucket(ws, [e])]
    ensures s[k].items != [] && forall i :: 0 <= i < |s| ==> s[i].items != []
    ensures forall i :: 0 <= i < |s| ==> s[k].items[0].visitedAt <= s[i].items[0].visitedAt
    ensures forall i :: 0 <= i < k ==> s[k].items[0].visitedAt < s[i].items[0].visitedAt
  {
    forall i | 0 <= i < |s| ensures Latest(s[i]) == s[i].items[0].visitedAt { assert s[i] in s; }
    assert Take([e], MAX_RECENT_CONTEXTS) == [e] && [e] + [] == [e];
    var visitor := Bucket(ws, [e]);
    var next := s + [visitor];
    assert Put(s, ws, Visited(Find(s, ws), e)) == next;
    PutFacts(s, ws, [e]);
    k := OldestIndex(next);
    IndexIsThe(next, k);
    assert s[0] in s && next[0] == s[0] && next[|s|] == visitor;
    assert Latest(s[0]) <= Latest(visitor);
    assert forall i :: 0 <= i < |s| ==> next[i] == s[i];
    assert next[..k] == s[..k] && next[k + 1..] == s[k + 1..] + [visitor];
    ConcatAssoc(s[..k], s[k + 1..], [visitor]);
  }

  /** With room left, or for a workspace already there, nothing is dropped. */
  lemma {:induction false} NoNeedlessEviction(s: Record, ws: string, e: Entry)
    requires DistinctIds(s) && |s| <= 50 && (Has(s, ws) || |s| < 50)
    ensures Has(AfterVisit(s, ws, e), ws) && Find(AfterVisit(s, ws, e), ws) == Visited(Find(s, ws), e)
    ensures forall b :: b in s && b.ws != ws ==> b in AfterVisit(s, ws, e)
  {
    var items := Visited(Find(s, ws), e);
    PutFacts(s, ws, items);
    forall b | b in s && b.ws != ws ensures b in Put(s, ws, items) { PutOthers(s, ws, items, b); }
  }

  /** Should the clock go back, a new workspace's visit is lost exactly when it is older than every workspace kept. */
  lemma {:induction false} VisitLostIff(s: Record, ws: string, e: Entry)
    requires DistinctIds(s) && |s| == 50 && !Has(s, ws)
    ensures !Has(AfterVisit(s, ws, e), ws) <==> forall i :: 0 <= i < |s| ==>
      e.visitedAt < if s[i].items == [] then 0 else s[i].items[0].visitedAt
  {
    assert Take([e], MAX_RECENT_CONTEXTS) == [e] && [e] + [] == [e];
    var visitor := Bucket(ws, [e]);
    var next := s + [visitor];
    assert Put(s, ws, Visited(Find(s, ws), e)) == next;
    PutFacts(s, ws, [e]);
    var k := OldestIndex(next);
    IndexIsThe(next, k);
    DropFacts(next, next[k].ws);
    assert next[|s|] == visitor && forall i :: 0 <= i < |s| ==> next[i] == s[i];
    if k < |s| {
      assert visitor in Drop(next, next[k].ws);
      var r := AfterVisit(s, ws, e);
      var i :| 0 <= i < |r| && r[i] == visitor;
      IndexIsThe(r, i);
      assert Latest(s[k]) <= e.visitedAt;
    }
  }

  // ---------------------------------------------------------------- what a bucket remembers

  /** Read backwards, the first entry of each key, leaving out the keys in `seen`. */
  function Firsts(history: seq<Entry>, seen: set<string>): seq<Entry> {
    if history == [] then []
    else
      var n := |history| - 1;
      if Key(history[n]) in seen then Firsts(history[..n], seen)
      else [history[n]] + Firsts(history[..n], seen + {Key(history[n])})
  }

  lemma {:induction false} FirstsKeys(history: seq<Entry>, seen: set<string>)
    ensures forall x :: x in Firsts(history, seen) ==> Key(x) !in seen
  {
    if history != [] {
      var n := |history| - 1;
      if Key(history[n]) in seen {
        FirstsKeys(history[..n], seen);
      } else {
        FirstsKeys(history[..n], seen + {Key(history[n])});
      }
    }
  }

  lemma {:induction false} WithoutAbsent(items: seq<Entry>, key: string)
    requires forall x :: x in items ==> Key(x) != key
    ensures Without(items, key) == items
  {
    if items != [] {
      assert items == [items[0]] + items[1..];
      WithoutAbsent(items[1..], key);
    }
  }

  lemma {:induction false} FirstsSkip(history: seq<Entry>, seen: set<string>, key: string)
    ensures Firsts(history, seen + {key}) == Without(Firsts(history, seen), key)
  {
    if history != [] {
      var n := |history| - 1;
      var x, init := history[n], history[..n];
      if Key(x) in seen {
        FirstsSkip(init, seen, key);
      } else {
        var rest := Firsts(init, seen + {Key(x)});
        assert ([x] + rest)[1..] == rest;
        if Key(x) == key {
          FirstsKeys(init, seen + {key});
          WithoutAbsent(rest, key);
        } else {
          FirstsSkip(init, seen + {Key(x)}, key);
          assert seen + {Key(x)} + {key} == seen + {key} + {Key(x)};
        }
      }
    }
  }

  ghost predicate DistinctKeys(items: seq<Entry>) {
    items == [] || ((forall x :: x in items[1..] ==> Key(x) != Key(items[0])) && DistinctKeys(items[1..]))
  }

  lemma {:induction false} FirstsDistinct(history: seq<Entry>, seen: set<string>)
    ensures DistinctKeys(Firsts(history, seen))
  {
    if history != [] {
      var n := |history| - 1;
      if Key(history[n]) in seen {
        FirstsDistinct(history[..n], seen);
      } else {
        var rest := Firsts(history[..n], seen + {Key(history[n])});
        FirstsDistinct(history[..n], seen + {Key(history[n])});
        FirstsKeys(history[..n], seen + {Key(history[n])});
        assert Firsts(history, seen)[1..] == rest;
      }
    }
  }

  /** Cutting the list before the visited key is taken out loses nothing that cutting after would keep. */
  lemma {:induction false} CutEarly(items: seq<Entry>, key: string, n: nat)
    requires DistinctKeys(items) && n > 0
    ensures Take(Without(Take(items, n), key), n - 1) == Take(Without(items, key), n - 1)
  {
    if n < |items| {
      var tail, cut := items[1..], items[..n];
      assert cut[1..] == Take(tail, n - 1);
      if Key(items[0]) == key {
        WithoutAbsent(tail, key);
        assert forall x :: x in Take(tail, n - 1) ==> x in tail;
        WithoutAbsent(Take(tail, n - 1), key);
      } else if n > 1 {
        CutEarly(tail, key, n - 1);
        TakeCons(items[0], Without(Take(tail, n - 1), key), n - 1);
        TakeCons(items[0], Without(tail, key), n - 1);
      }
    }
  }

  lemma {:induction false} TakeCons(x: Entry, rest: seq<Entry>, n: nat)
    requires n > 0
    ensures Take([x] + rest, n) == [x] + Take(rest, n - 1)
  {
  }

  lemma {:induction false} VisitedRemembers(history: seq<Entry>, e: Entry)
    ensures Visited(Take(Firsts(history, {}), 20), e) == Take(Firsts(history + [e], {}), 20)
  {
    var all, key, n := Firsts(history, {}), Key(e), MAX_RECENT_CONTEXTS;
    assert (history + [e])[..|history|] == history;
    assert {} + {key} == {key};
    FirstsSkip(history, {}, key);
    FirstsDistinct(history, {});
    CutEarly(all, key, n);
    TakeCons(e, Without(Take(all, n), key), n);
    TakeCons(e, Without(all, key), n);
  }

  /** The visits to a workspace since its bucket was created. */
  function History(ops: seq<Op>, ws: string): seq<Entry> {
    if ops == [] || !Has(Run(ops), ws) then []
    else
      var before, op := ops[..|ops| - 1], ops[|ops| - 1];
      if op.Visit? && op.ws == ws then History(before, ws) + [op.entry] else History(before, ws)
  }

  /** What the store holds for a workspace that nothing was forgotten in. */
  ghost predicate Remembers(ops: seq<Op>, ws: string) {
    Find(Run(ops), ws) == Take(Firsts(History(ops, ws), {}), 20)
  }

  lemma {:induction false} FindByMember(s: Record, b: Bucket)
    requires DistinctIds(s) && b in s
    ensures Has(s, b.ws) && Find(s, b.ws) == b.items
  {
    var i :| 0 <= i < |s| && s[i] == b;
    IndexIsThe(s, i);
  }

  lemma {:induction false} VisitAddsNoOther(s: Record, ws: string, e: Entry)
    requires DistinctIds(s)
    ensures DistinctIds(AfterVisit(s, ws, e))
    ensures forall b :: b in AfterVisit(s, ws, e) && b.ws != ws ==> b in s
  {
    var next := Put(s, ws, Visited(Find(s, ws), e));
    PutFacts(s, ws, Visited(Find(s, ws), e));
    if |next| > MAX_WORKSPACES { DropFacts(next, next[OldestIndex(next)].ws); }
  }

  lemma {:induction false} ForgetAddsNoOther(s: Record, ws: string, key: string)
    requires DistinctIds(s)
    ensures DistinctIds(AfterForget(s, ws, key))
    ensures forall b :: b in AfterForget(s, ws, key) && b.ws != ws ==> b in s
  {
    DropFacts(s, ws);
    PutFacts(s, ws, Without(Find(s, ws), key));
  }

  /** A step leaves another workspace's bucket as it was or drops it. */
  lemma {:induction false} OthersUntouched(s: Record, op: Op, ws: string)
    requires DistinctIds(s) && (op.Prune? || op.ws != ws) && Has(Step(s, op), ws)
    ensures Has(s, ws) && Find(Step(s, op), ws) == Find(s, ws)
    ensures DistinctIds(Step(s, op))
  {
    match op {
      case Visit(w, e) => VisitAddsNoOther(s, w, e);
      case Forget(w, key) => ForgetAddsNoOther(s, w, key);
      case Prune(active) => KeptFacts(s, active);
    }
    FindMember(Step(s, op), ws);
    FindByMember(s, Bucket(ws, Find(Step(s, op), ws)));
  }

  lemma {:induction false} RunHasDistinctIds(ops: seq<Op>)
    ensures DistinctIds(Run(ops))
    decreases |ops|
  {
    if ops != [] {
      var before, op := ops[..|ops| - 1], ops[|ops| - 1];
      RunHasDistinctIds(before);
      match op
      case Visit(ws, e) => VisitAddsNoOther(Run(before), ws, e);
      case Forget(ws, key) => ForgetAddsNoOther(Run(before), ws, key);
      case Prune(active) => KeptFacts(Run(before), active);
    }
  }

  lemma {:induction false} VisitorFound(s: Record, ws: string, e: Entry)
    requires DistinctIds(s)
    ensures Has(AfterVisit(s, ws, e), ws) ==> Find(AfterVisit(s, ws, e), ws) == Visited(Find(s, ws), e)
  {
    var r, items := AfterVisit(s, ws, e), Visited(Find(s, ws), e);
    var next := Put(s, ws, items);
    PutFacts(s, ws, items);
    if |next| > MAX_WORKSPACES { DropFacts(next, next[OldestIndex(next)].ws); }
    FindMember(r, ws);
    assert Has(r, ws) ==> Bucket(ws, Find(r, ws)) in next;
  }

  /** Without forgetting, a bucket is the last 20 distinct contexts visited since it was created, latest first. */
  lemma {:induction false} RemembersLastVisits(ops: seq<Op>, ws: string)
    requires forall op :: op in ops && op.Forget? ==> op.ws != ws
    ensures Has(Run(ops), ws) ==> Remembers(ops, ws) && History(ops, ws) != []
  {
    if ops != [] && Has(Run(ops), ws) {
      var before, op := ops[..|ops| - 1], ops[|ops| - 1];
      assert op in ops && forall o :: o in before ==> o in ops;
      RunHasDistinctIds(before);
      RemembersLastVisits(before, ws);
      if op.Visit? && op.ws == ws {
        VisitorFound(Run(before), ws, op.entry);
        VisitedRemembers(History(before, ws), op.entry);
      } else {
        OthersUntouched(Run(before), op, ws);
      }
    }
  }
}
