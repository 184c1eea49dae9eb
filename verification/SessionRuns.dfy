/**
 * Whole runs of uploads, drafts and logouts: which requests they amount to, and what a logout leaves
 * (packages/core/drafts/upload-coordinator.ts, packages/core/chat/store.ts, packages/core/platform/storage-cleanup.ts).
 */
module SessionRuns {
  import opened Lists
  import opened ChatStore
  import opened UploadSession
  import S = UploadSession
  import U = UploadCoordinator

  // ---------------------------------------------------------------- the requests of a run

  /** What the coordinator sees of one event. */
  function RequestsOf(s: Session, e: Event): seq<U.Event> {
    match e
    case Pick(_, id, _, _, _) => [U.Start(id)]
    case Resolved(r, _) => if IsInFlight(s, r) then [U.Resolve(r, U.Returns)] else []
    case Rejected(r, abortError, _, _) => if IsInFlight(s, r) then [U.Reject(r, abortError)] else []
    case Dismiss(key, id) => if UploadingAt(s, key, id) then [U.Abort(id)] else []
    case Other(_) => []
    case Logout(_) => [U.AbortAll]
  }

  function Requests(s: Session, events: seq<Event>): seq<U.Event> {
    if events == [] then []
    else
      var before := events[..|events| - 1];
      Requests(s, before) + RequestsOf(S.Run(s, before), events[|events| - 1])
  }

  /** One event amounts to one step of the coordinator, or to none. */
  lemma {:induction false} RequestStep(s: Session, e: Event)
    ensures var es := RequestsOf(s, e);
      |es| <= 1 && (es == [] ==> React(s, e).requests == s.requests)
      && (es != [] ==> U.Possible(s.requests, es[0]) && React(s, e).requests == U.Step(s.requests, es[0]))
  {
  }

  lemma {:induction false} NextRequests(done: seq<U.Event>, es: seq<U.Event>)
    requires U.PossibleRun(done) && |es| <= 1 && (es != [] ==> U.Possible(U.Run(done), es[0]))
    ensures U.PossibleRun(done + es)
    ensures U.Run(done + es) == if es == [] then U.Run(done) else U.Step(U.Run(done), es[0])
  {
    if es == [] {
      assert done + es == done;
    } else {
      assert (done + es)[..|done|] == done && (done + es)[|done|] == es[0];
    }
  }

  /** The requests of a session's run are a possible run of the coordinator. */
  lemma {:induction false} RequestsRun(st: Storage, slug: string, events: seq<Event>)
    ensures U.PossibleRun(Requests(Begin(st, slug), events))
    ensures U.Run(Requests(Begin(st, slug), events)) == S.Run(Begin(st, slug), events).requests
    decreases |events|
  {
    if events != [] {
      var before, e := events[..|events| - 1], events[|events| - 1];
      RequestsRun(st, slug, before);
      RequestStep(S.Run(Begin(st, slug), before), e);
      NextRequests(Requests(Begin(st, slug), before), RequestsOf(S.Run(Begin(st, slug), before), e));
    }
  }

  lemma {:induction false} NoThrow(st: Storage, slug: string, events: seq<Event>, e: U.Event, r: nat)
    requires e in Requests(Begin(st, slug), events)
    ensures !U.CallbackThrew(e, r)
    decreases |events|
  {
    var before := events[..|events| - 1];
    if e in Requests(Begin(st, slug), before) { NoThrow(st, slug, before, e, r); }
  }

  /** In a session, whose callbacks do not throw, a request reports at most one outcome, and none while in flight. */
  lemma {:induction false} SessionReportsOnce(st: Storage, slug: string, events: seq<Event>, r: nat)
    ensures var reports := U.ReportsOf(S.Run(Begin(st, slug), events).requests.reports, r);
      |reports| <= 1 && (r in S.Run(Begin(st, slug), events).requests.inFlight ==> reports == [])
  {
    var done := Requests(Begin(st, slug), events);
    RequestsRun(st, slug, events);
    forall i | 0 <= i < |done| ensures !U.CallbackThrew(done[i], r) { NoThrow(st, slug, events, done[i], r); }
    U.OneOutcome(done, r);
  }

  // ---------------------------------------------------------------- what a logout leaves

  lemma {:induction false} RunSnoc(s: Session, events: seq<Event>, e: Event)
    ensures S.Run(s, events + [e]) == React(S.Run(s, events), e)
  {
    assert (events + [e])[..|events|] == events;
  }

  /** The workspaces that were current at some moment of the run. */
  function Visited(s: Session, events: seq<Event>): set<string> {
    (if events == [] then {} else Visited(s, events[..|events| - 1])) + {S.Run(s, events).store.slug}
  }

  /** Every blob belongs to one of these workspaces. */
  ghost predicate BlobsWithin(st: Storage, slugs: set<string>) {
    forall k :: k in st ==> k.slug in slugs
  }

  ghost predicate HoldsBlob(st: Storage, slug: string) {
    exists b :: Key(b, slug) in st
  }

  lemma {:induction false} StepBlobs(s: State, a: Action, slugs: set<string>)
    requires BlobsWithin(s.storage, slugs)
    ensures BlobsWithin(Step(s, a).storage, slugs + {Step(s, a).slug})
  {
    var t := Step(s, a);
    OthersUntouched(s, a);
    forall k | k in t.storage && k.slug != t.slug ensures k.slug in slugs { assert SameAt(s.storage, t.storage, k); }
  }

  lemma {:induction false} ReactBlobs(s: Session, e: Event, slugs: set<string>)
    requires BlobsWithin(s.store.storage, slugs) && s.store.slug in slugs
    ensures BlobsWithin(React(s, e).store.storage, slugs + {React(s, e).store.slug})
  {
    match e
    case Pick(key, _, _, _, _) => StepBlobs(s.store, AddUpload(key, Placeholder(e)), slugs);
    case Resolved(r, _) => if IsInFlight(s, r) { DeliveredBlobs(s, e, slugs); }
    case Rejected(r, _, _, _) => if IsInFlight(s, r) { DeliveredBlobs(s, e, slugs); }
    case Dismiss(key, id) => StepBlobs(s.store, RemoveUpload(key, id), slugs);
    case Other(a) => StepBlobs(s.store, a, slugs);
    case Logout(_) =>
  }

  lemma {:induction false} DeliveredBlobs(s: Session, e: Event, slugs: set<string>)
    requires e.Resolved? || e.Rejected?
    requires IsInFlight(s, e.request)
    requires BlobsWithin(s.store.storage, slugs) && s.store.slug in slugs
    ensures BlobsWithin(Delivered(s, e).storage, slugs + {Delivered(s, e).slug})
  {
    var key, id := s.slots[e.request], s.requests.started[e.request];
    match e
    case Resolved(_, a) => StepBlobs(s.store, SettleUpload(key, id, a), slugs);
    case Rejected(_, _, _, error) =>
      StepBlobs(s.store, RemoveUpload(key, id), slugs);
      StepBlobs(s.store, FailUpload(key, id, error), slugs);
  }

  /** After any run from empty storage every blob belongs to a workspace that was current at some moment. */
  lemma {:induction false} BlobsWereVisited(slug: string, events: seq<Event>)
    ensures BlobsWithin(S.Run(Begin(map[], slug), events).store.storage, Visited(Begin(map[], slug), events))
    decreases |events|
  {
    var s := Begin(map[], slug);
    if events != [] {
      var before := events[..|events| - 1];
      BlobsWereVisited(slug, before);
      ReactBlobs(S.Run(s, before), events[|events| - 1], Visited(s, before));
    }
  }

  ghost predicate Reaches(slugs: set<string>, slug: string) {
    slug != "" && slug in slugs
  }

  /**
   * A logout after a run leaves nothing of the chat store if and only if every visited workspace is reached by
   * the logout or holds nothing.
   */
  lemma {:induction false} LogoutLeavesNothingIff(slug: string, events: seq<Event>, slugs: set<string>)
    ensures var s := Begin(map[], slug);
      S.Run(s, events + [Logout(slugs)]).store.storage == map[] <==>
        forall w :: w in Visited(s, events) && !Reaches(slugs, w) ==> !HoldsBlob(S.Run(s, events).store.storage, w)
  {
    var s := Begin(map[], slug);
    var st := S.Run(s, events).store.storage;
    RunSnoc(s, events, Logout(slugs));
    BlobsWereVisited(slug, events);
    if Cleared(st, slugs) == map[] {
      forall w, b | !Reaches(slugs, w) ensures Key(b, w) !in st { assert Key(b, w) !in Cleared(st, slugs); }
    } else {
      var k :| k in Cleared(st, slugs);
      assert Key(k.base, k.slug) in st && k.slug in Visited(s, events) && !Reaches(slugs, k.slug);
    }
  }

  /** Whatever happened in these workspaces, a logout leaves nothing. */
  ghost predicate AlwaysCleans(visited: set<string>, slugs: set<string>) {
    forall slug, events :: Visited(Begin(map[], slug), events) <= visited
      ==> S.Run(Begin(map[], slug), events + [Logout(slugs)]).store.storage == map[]
  }

  /** That is so if and only if the logout lists every one of them and none is the missing workspace. */
  lemma {:induction false} AlwaysCleansIff(visited: set<string>, slugs: set<string>)
    ensures AlwaysCleans(visited, slugs) <==> forall w :: w in visited ==> Reaches(slugs, w)
  {
    if forall w :: w in visited ==> Reaches(slugs, w) {
      forall slug, events | Visited(Begin(map[], slug), events) <= visited
        ensures S.Run(Begin(map[], slug), events + [Logout(slugs)]).store.storage == map[]
      {
        LogoutLeavesNothingIff(slug, events, slugs);
      }
    }
    if w :| w in visited && !Reaches(slugs, w) { OneDraftStays(w, NEW_SESSION, "x", slugs); }
  }

  /** A draft typed in a workspace that the logout does not reach stays in storage. */
  lemma {:induction false} OneDraftStays(w: string, key: string, text: string, slugs: set<string>)
    requires text != "" && !Reaches(slugs, w)
    ensures Visited(Begin(map[], w), [Other(SetDraft(key, text))]) == {w}
    ensures var t := S.Run(Begin(map[], w), [Other(SetDraft(key, text))] + [Logout(slugs)]).store;
      t.slug == w && Key(DraftsKey, w) in t.storage && t.storage[Key(DraftsKey, w)] == Drafts(map[key := text])
  {
    var s, e := Begin(map[], w), Other(SetDraft(key, text));
    assert [e][..0] == [] && [] + [e] == [e];
    RunSnoc(s, [], e);
    RunSnoc(s, [e], Logout(slugs));
    DraftWritten(s.store, key, text);
  }

  lemma {:induction false} DraftWritten(s: State, key: string, text: string)
    requires s.drafts == map[] && text != ""
    ensures var st := Step(s, SetDraft(key, text)).storage;
      KeyOf(s, DraftsKey) in st && st[KeyOf(s, DraftsKey)] == Drafts(map[key := text])
  {
    var m := map[key := text];
    assert s.drafts[key := text] == m && key in m && Kept(m, NonEmptyText) == m;
  }

  /** It is there again after a reload. */
  lemma {:induction false} DraftComesBack(w: string, text: string, slugs: set<string>)
    requires text != "" && !Reaches(slugs, w)
    ensures var events := [Other(SetDraft(NEW_SESSION, text))] + [Logout(slugs)];
      S.Run(Begin(map[], w), events + [Other(Reload)]).store.drafts == map[NEW_SESSION := text]
  {
    var events := [Other(SetDraft(NEW_SESSION, text))] + [Logout(slugs)];
    RunSnoc(Begin(map[], w), events, Other(Reload));
    OneDraftStays(w, NEW_SESSION, text, slugs);
    ReloadReads(S.Run(Begin(map[], w), events), text);
  }

  lemma {:induction false} ReloadReads(s: Session, text: string)
    requires KeyOf(s.store, DraftsKey) in s.store.storage
    requires s.store.storage[KeyOf(s.store, DraftsKey)] == Drafts(map[NEW_SESSION := text])
    ensures React(s, Other(Reload)).store.drafts == map[NEW_SESSION := text]
  {
    assert !IsLegacy(NEW_SESSION);
  }

  /** In particular one typed without a current workspace, whatever workspaces the logout lists. */
  lemma {:induction false} BareDraftSurvives(text: string, slugs: set<string>)
    requires text != ""
    ensures var events := [Other(SetDraft(NEW_SESSION, text))] + [Logout(slugs)];
      S.Run(Begin(map[], ""), events + [Other(Reload)]).store.drafts == map[NEW_SESSION := text]
  {
    DraftComesBack("", text, slugs);
  }
}
