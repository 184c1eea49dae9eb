/**
 * Uploads, the chat store and logout together (packages/core/drafts/upload-coordinator.ts,
 * packages/core/chat/store.ts, packages/core/drafts/cleanup-registry.ts).
 */
module UploadSession {
  import opened Lists
  import opened DraftUploads
  import opened ChatStore
  import U = UploadCoordinator

  /** `slots[r]` is the draft slot request `r` was started for. */
  datatype Session = Session(requests: U.State, store: State, slots: seq<string>)

  function Begin(st: Storage, slug: string): Session {
    Session(U.INITIAL, Loaded(st, slug), [])
  }

  datatype Event =
    // A file is picked: the placeholder is recorded and the request starts.
    | Pick(key: string, id: string, filename: string, size: int, contentType: Option<string>)
    | Resolved(request: nat, attachment: Attachment)
    // The request failed; the placeholder is marked or, as the composer does, dropped.
    | Rejected(request: nat, abortError: bool, drop: bool, error: Option<string>)
    // The user removes a placeholder, which cancels its request.
    | Dismiss(key: string, id: string)
    | Other(action: Action)
    | Logout(slugs: set<string>)

  function Placeholder(e: Event): Upload
    requires e.Pick?
  {
    Pending(e.id, e.filename, e.size, e.contentType, Uploading, None)
  }

  /** The blobs of the given workspaces are gone; the keys used without a workspace are not among them. */
  function Cleared(st: Storage, slugs: set<string>): Storage {
    map k | k in st && !(k.slug != "" && k.slug in slugs) :: st[k]
  }

  function Wiped(s: State, slugs: set<string>): State {
    s.(storage := Cleared(s.storage, slugs), drafts := map[], uploads := map[], applied := [], restores := map[])
  }

  predicate IsInFlight(s: Session, r: nat) {
    r in s.requests.inFlight && r < |s.requests.started| && r < |s.slots|
  }

  predicate UploadingAt(s: Session, key: string, id: string) {
    exists i :: 0 <= i < |Slot(s.store.uploads, key)|
      && Slot(s.store.uploads, key)[i].clientUploadId == id && IsUploading(Slot(s.store.uploads, key)[i])
  }

  /** The store after an outcome of request `r`, wired to settle and fail. */
  function Delivered(s: Session, e: Event): State
    requires e.Resolved? || e.Rejected?
    requires IsInFlight(s, e.request)
  {
    var key, id := s.slots[e.request], s.requests.started[e.request];
    match e
    case Resolved(_, a) => Step(s.store, SettleUpload(key, id, a))
    case Rejected(r, abortError, drop, error) =>
      if U.ReportsOnReject(s.requests, r, abortError) == [] then s.store
      else if drop then Step(s.store, RemoveUpload(key, id))
      else Step(s.store, FailUpload(key, id, error))
  }

  function React(s: Session, e: Event): Session {
    match e
    case Pick(key, id, _, _, _) =>
      s.(store := Step(s.store, AddUpload(key, Placeholder(e))), requests := U.Step(s.requests, U.Start(id)),
         slots := s.slots + [key])
    case Resolved(r, a) =>
      if !IsInFlight(s, r) then s
      else s.(store := Delivered(s, e), requests := U.Step(s.requests, U.Resolve(r, U.Returns)))
    case Rejected(r, abortError, _, _) =>
      if !IsInFlight(s, r) then s
      else s.(store := Delivered(s, e), requests := U.Step(s.requests, U.Reject(r, abortError)))
    case Dismiss(key, id) =>
      var requests := if UploadingAt(s, key, id) then U.Step(s.requests, U.Abort(id)) else s.requests;
      s.(store := Step(s.store, RemoveUpload(key, id)), requests := requests)
    case Other(a) => s.(store := Step(s.store, a))
    case Logout(slugs) =>
      s.(store := Wiped(s.store, slugs), requests := U.Step(s.requests, U.AbortAll))
  }

  // ---------------------------------------------------------------- where an id occurs

  ghost predicate InMemory(s: State, id: string) {
    exists k, u :: k in s.uploads && u in s.uploads[k] && u.clientUploadId == id
  }

  /** Some workspace's storage would load an entry with this id. */
  ghost predicate InStorage(st: Storage, id: string) {
    exists slug: string, k, u :: k in ReadUploads(st, Key(AttachmentsKey, slug))
      && u in ReadUploads(st, Key(AttachmentsKey, slug))[k] && u.clientUploadId == id
  }

  ghost predicate IdUsed(s: Session, id: string) {
    id in s.requests.started || InMemory(s.store, id) || InStorage(s.store.storage, id)
  }

  /** Client ids are minted fresh; other actions do not bring in entries under a request's id, nor reload the page. */
  ghost predicate Fresh(s: Session, e: Event) {
    match e
    case Pick(_, id, _, _, _) => !IdUsed(s, id)
    case Other(a) => (match a
      case SetUploads(_, list) => forall u :: u in list ==> u.clientUploadId !in s.requests.started
      case AddUpload(_, u) => u.clientUploadId !in s.requests.started
      case AddAttachment(_, row) => row.id !in s.requests.started
      case SettleUpload(_, id, _) => id !in s.requests.started
      case FailUpload(_, id, _) => id !in s.requests.started
      case Reload => false
      case _ => true)
    case _ => true
  }

  ghost predicate FreshRun(s: Session, events: seq<Event>) {
    events != [] ==> FreshRun(s, events[..|events| - 1]) && Fresh(Run(s, events[..|events| - 1]), events[|events| - 1])
  }

  function Run(s: Session, events: seq<Event>): Session {
    if events == [] then s else React(Run(s, events[..|events| - 1]), events[|events| - 1])
  }

  /** Every entry under this id is a placeholder still uploading. */
  ghost predicate OnlyUploading(uploads: map<string, seq<Upload>>, id: string) {
    forall k, u :: k in uploads && u in uploads[k] && u.clientUploadId == id ==> IsUploading(u)
  }

  /** The entries under the id of a request in flight are placeholders still uploading, and storage would load none. */
  ghost predicate Quiet(s: Session, r: nat)
    requires r < |s.requests.started|
  {
    OnlyUploading(s.store.uploads, s.requests.started[r]) && !InStorage(s.store.storage, s.requests.started[r])
  }

  ghost predicate Sound(s: Session) {
    && |s.slots| == |s.requests.started|
    && U.FreshIds(s.requests) && U.Tracked(s.requests)
    && forall r :: r in s.requests.inFlight ==> r < |s.slots| && Quiet(s, r)
  }

  // ---------------------------------------------------------------- one action and one id

  /** The action adds no entry under the id, except perhaps a placeholder still uploading. */
  ghost predicate Harmless(a: Action, id: string, adds: bool) {
    match a
    case SetUploads(_, list) => forall u :: u in list ==> u.clientUploadId != id
    case AddUpload(_, u) => u.clientUploadId == id ==> adds && IsUploading(u)
    case AddAttachment(_, row) => row.id != id
    case SettleUpload(_, other, _) => other != id
    case FailUpload(_, other, _) => other != id
    case _ => true
  }

  lemma {:induction false} WriteStaysOut(s: State, m: map<string, seq<Upload>>, id: string)
    requires OnlyUploading(m, id) && !InStorage(s.storage, id)
    ensures !InStorage(WithUploads(s, m).storage, id)
  {
    var st, k := WithUploads(s, m).storage, KeyOf(s, AttachmentsKey);
    ReadWrittenUploads(s.storage, k, m);
    PutFrame(s.storage, k, Kept(m, NonEmpty<Upload>) == map[], Uploads(StoredSlots(Kept(m, NonEmpty<Upload>))));
    if InStorage(st, id) {
      var slug: string, j, u :| j in ReadUploads(st, Key(AttachmentsKey, slug))
        && u in ReadUploads(st, Key(AttachmentsKey, slug))[j] && u.clientUploadId == id;
      if slug == s.slug {
        SettledMember(m[j], u);
      } else {
        ReadsSame(s.storage, st, Key(AttachmentsKey, slug));
        assert InStorage(s.storage, id);
      }
    }
  }

  lemma {:induction false} OtherWriteStaysOut(st: Storage, st': Storage, k: Key, id: string)
    requires SameBut(st, st', k) && !k.base.AttachmentsKey?
    ensures InStorage(st', id) <==> InStorage(st, id)
  {
    forall slug: string
      ensures ReadUploads(st', Key(AttachmentsKey, slug)) == ReadUploads(st, Key(AttachmentsKey, slug))
    {
      assert SameAt(st, st', Key(AttachmentsKey, slug));
      ReadsSame(st, st', Key(AttachmentsKey, slug));
    }
  }

  lemma {:induction false} LoadStaysOut(st: Storage, slug: string, id: string)
    requires !InStorage(st, id)
    ensures !InStorage(Loaded(st, slug).storage, id) && !InMemory(Loaded(st, slug), id)
  {
    var agent := ReadText(st, Key(AgentKey, slug));
    var st1 := FoldDrafts(st, slug, agent);
    var ak := Key(AttachmentsKey, slug);
    FoldDraftsFacts(st, slug, agent);
    OtherWriteStaysOut(st, st1, Key(DraftsKey, slug), id);
    assert SameAt(st, st1, ak);
    ReadsSame(st, st1, ak);
    var lists := ReadUploads(st, ak);
    var m := Migrated(lists, agent);
    forall k, u: Upload | k in m && u in m[k] ensures u.clientUploadId != id {
      var j := if k == NEW_SESSION && NEW_SESSION !in lists then AdoptedKey(agent) else k;
      assert u in ReadUploads(st, ak)[j];
    }
    if HasLegacy(lists) {
      var s1 := State(st1, slug, agent, map[], m, [], map[]);
      WriteStaysOut(s1, m, id);
    }
  }

  /** What an action can do to the entries under an id it does not deliver to. */
  lemma {:induction false} StepStaysOut(s: State, a: Action, id: string, adds: bool)
    requires OnlyUploading(s.uploads, id) && !InStorage(s.storage, id) && Harmless(a, id, adds)
    ensures OnlyUploading(Step(s, a).uploads, id) && !InStorage(Step(s, a).storage, id)
    ensures !adds && !InMemory(s, id) ==> !InMemory(Step(s, a), id)
  {
    var t := Step(s, a);
    if OnUploads(a) {
      SlotsStayOut(s, a, id, adds);
      UploadStep(s, a);
      WriteStaysOut(s, t.uploads, id);
    } else if a.SetDraft? || a.AppendToDraft? {
      DraftStep(s, a);
      DraftsStayOut(s, t.drafts, id);
    } else if a.MarkApplied? || a.ForgetApplied? {
      AppliedStep(s, a);
      AppliedStaysOut(s, t.applied, id);
    } else if a.EnqueueRestore? || a.DequeueRestore? {
      RestoreStep(s, a);
      RestoresStayOut(s, t.restores, id);
    } else if a.ClearDraft? {
      ClearStaysOut(s, a.key, id);
    } else if a.SelectAgent? {
      PutFrame(s.storage, KeyOf(s, AgentKey), false, Text(a.id));
      OtherWriteStaysOut(s.storage, t.storage, KeyOf(s, AgentKey), id);
    } else {
      LoadStep(s, a);
      LoadStaysOut(s.storage, t.slug, id);
    }
  }

  lemma {:induction false} ClearStaysOut(s: State, k: string, id: string)
    requires OnlyUploading(s.uploads, id) && !InStorage(s.storage, id)
    ensures var t := Step(s, ClearDraft(k));
      && OnlyUploading(t.uploads, id) && !InStorage(t.storage, id)
      && (!InMemory(s, id) ==> !InMemory(t, id))
  {
    ClearStep(s, k);
    DraftsStayOut(s, Drop(s.drafts, k), id);
    WriteStaysOut(WithDrafts(s, Drop(s.drafts, k)), Drop(s.uploads, k), id);
  }

  lemma {:induction false} DraftsStayOut(s: State, m: map<string, string>, id: string)
    ensures InStorage(WithDrafts(s, m).storage, id) <==> InStorage(s.storage, id)
  {
    PutFrame(s.storage, KeyOf(s, DraftsKey), Kept(m, NonEmptyText) == map[], Drafts(Kept(m, NonEmptyText)));
    OtherWriteStaysOut(s.storage, WithDrafts(s, m).storage, KeyOf(s, DraftsKey), id);
  }

  lemma {:induction false} AppliedStaysOut(s: State, ids: seq<string>, id: string)
    ensures InStorage(WithApplied(s, ids).storage, id) <==> InStorage(s.storage, id)
  {
    PutFrame(s.storage, KeyOf(s, AppliedKey), ids == [], Applied(ids));
    OtherWriteStaysOut(s.storage, WithApplied(s, ids).storage, KeyOf(s, AppliedKey), id);
  }

  lemma {:induction false} RestoresStayOut(s: State, m: map<string, seq<Restore>>, id: string)
    ensures InStorage(WithRestores(s, m).storage, id) <==> InStorage(s.storage, id)
  {
    PutFrame(s.storage, KeyOf(s, RestoresKey), Kept(m, NonEmpty<Restore>) == map[],
             Restores(StoredQueues(Kept(m, NonEmpty<Restore>))));
    OtherWriteStaysOut(s.storage, WithRestores(s, m).storage, KeyOf(s, RestoresKey), id);
  }

  /** The entries of each slot after an action on uploads. */
  lemma {:induction false} SlotsStayOut(s: State, a: Action, id: string, adds: bool)
    requires OnUploads(a) && OnlyUploading(s.uploads, id) && Harmless(a, id, adds)
    ensures OnlyUploading(Step(s, a).uploads, id)
    ensures !adds && !InMemory(s, id) ==> !InMemory(Step(s, a), id)
  {
    forall k, u: Upload | IsIn(Step(s, a), k, u) && u.clientUploadId == id
      ensures IsIn(s, k, u) || (a.AddUpload? && u == a.upload)
    {
      if !IsIn(s, k, u) { NewEntry(s, a, id, k, u); }
    }
    EntriesStayOut(s, Step(s, a), a, id, adds);
  }

  ghost predicate IsIn(s: State, k: string, u: Upload) {
    k in s.uploads && u in s.uploads[k]
  }

  lemma {:induction false} EntriesStayOut(s: State, t: State, a: Action, id: string, adds: bool)
    requires OnlyUploading(s.uploads, id) && Harmless(a, id, adds)
    requires forall k, u :: IsIn(t, k, u) && u.clientUploadId == id ==> IsIn(s, k, u) || (a.AddUpload? && u == a.upload)
    ensures OnlyUploading(t.uploads, id)
    ensures !adds && !InMemory(s, id) ==> !InMemory(t, id)
  {
    forall k, u: Upload | k in t.uploads && u in t.uploads[k] && u.clientUploadId == id
      ensures IsUploading(u) && (adds || InMemory(s, id))
    {
      assert IsIn(t, k, u);
    }
  }

  lemma {:induction false} NewEntry(s: State, a: Action, id: string, k: string, u: Upload)
    requires OnUploads(a) && IsIn(Step(s, a), k, u) && !IsIn(s, k, u)
    requires u.clientUploadId == id && Harmless(a, id, true)
    ensures a.AddUpload? && u == a.upload
  {
    assert k == a.key;
    match a
    case RemoveUpload(_, other) => WithoutUploadMember(Slot(s.uploads, k), other, u);
    case FailUpload(_, other, _) => FirstUploadHas(Slot(s.uploads, k), other);
    case _ =>
  }

  lemma {:induction false} WithoutUploadMember(list: seq<Upload>, id: string, u: Upload)
    ensures u in WithoutUpload(list, id) <==> u in list && u.clientUploadId != id
    decreases |list|
  {
    if list != [] {
      var n := |list| - 1;
      assert list == list[..n] + [list[n]];
      WithoutUploadMember(list[..n], id, u);
    }
  }

  // ---------------------------------------------------------------- runs

  lemma {:induction false} ReactSound(s: Session, e: Event)
    requires Sound(s) && Fresh(s, e)
    ensures Sound(React(s, e))
  {
    var t := React(s, e);
    RequestsSound(s, e);
    forall r | r in t.requests.inFlight ensures r < |t.slots| && Quiet(t, r) {
      if r < |s.slots| {
        assert r in s.requests.inFlight && Quiet(s, r);
        assert t.requests.started[r] == s.requests.started[r];
        StaysQuiet(s, e, r);
      } else {
        NewQuiet(s, e);
      }
    }
  }

  lemma {:induction false} RequestsSound(s: Session, e: Event)
    requires Sound(s) && Fresh(s, e)
    ensures var t := React(s, e);
      && |t.slots| == |t.requests.started| && U.FreshIds(t.requests) && U.Tracked(t.requests)
      && |s.slots| <= |t.slots| <= |s.slots| + 1 && (|t.slots| > |s.slots| ==> e.Pick?)
      && (forall r :: 0 <= r < |s.slots| ==> t.requests.started[r] == s.requests.started[r])
      && (forall r :: r in t.requests.inFlight && r < |s.slots| ==> r in s.requests.inFlight)
      && (forall r :: r in t.requests.inFlight ==> r < |t.slots|)
      && (e.Resolved? || e.Rejected? ==> e.request !in t.requests.inFlight)
  {
    match e
    case Pick(_, id, _, _, _) => U.StepTracked(s.requests, U.Start(id));
    case Resolved(r, _) => if IsInFlight(s, r) { U.StepTracked(s.requests, U.Resolve(r, U.Returns)); }
    case Rejected(r, abortError, _, _) =>
      if IsInFlight(s, r) { U.StepTracked(s.requests, U.Reject(r, abortError)); }
    case Dismiss(_, id) => U.StepTracked(s.requests, U.Abort(id));
    case Other(_) =>
    case Logout(_) => U.StepTracked(s.requests, U.AbortAll);
  }

  lemma {:induction false} NewQuiet(s: Session, e: Event)
    requires Sound(s) && Fresh(s, e) && e.Pick?
    ensures Quiet(React(s, e), |s.slots|)
  {
    StepStaysOut(s.store, AddUpload(e.key, Placeholder(e)), e.id, true);
  }

  lemma {:induction false} StaysQuiet(s: Session, e: Event, r: nat)
    requires Sound(s) && Fresh(s, e) && r in s.requests.inFlight && r in React(s, e).requests.inFlight
    ensures r < |React(s, e).requests.started| && Quiet(React(s, e), r)
  {
    var id := s.requests.started[r];
    RequestsSound(s, e);
    match e
    case Pick(key, other, _, _, _) =>
      assert other != id;
      StepStaysOut(s.store, AddUpload(key, Placeholder(e)), id, true);
    case Resolved(q, a) =>
      if IsInFlight(s, q) { StepStaysOut(s.store, SettleUpload(s.slots[q], s.requests.started[q], a), id, true); }
    case Rejected(q, _, _, error) =>
      if IsInFlight(s, q) {
        StepStaysOut(s.store, RemoveUpload(s.slots[q], s.requests.started[q]), id, true);
        StepStaysOut(s.store, FailUpload(s.slots[q], s.requests.started[q], error), id, true);
      }
    case Dismiss(key, other) => StepStaysOut(s.store, RemoveUpload(key, other), id, true);
    case Other(a) =>
      assert Harmless(a, id, true);
      StepStaysOut(s.store, a, id, true);
    case Logout(slugs) => LogoutStaysOut(s.store, slugs, id);
  }

  lemma {:induction false} LogoutStaysOut(s: State, slugs: set<string>, id: string)
    requires !InStorage(s.storage, id)
    ensures !InStorage(Wiped(s, slugs).storage, id) && !InMemory(Wiped(s, slugs), id)
  {
    var st := Cleared(s.storage, slugs);
    if InStorage(st, id) {
      var slug: string, k, u :| k in ReadUploads(st, Key(AttachmentsKey, slug))
        && u in ReadUploads(st, Key(AttachmentsKey, slug))[k] && u.clientUploadId == id;
      ReadsSame(s.storage, st, Key(AttachmentsKey, slug));
    }
  }

  lemma {:induction false} RunSound(st: Storage, slug: string, events: seq<Event>)
    requires FreshRun(Begin(st, slug), events)
    ensures Sound(Run(Begin(st, slug), events))
    decreases |events|
  {
    if events != [] {
      RunSound(st, slug, events[..|events| - 1]);
      ReactSound(Run(Begin(st, slug), events[..|events| - 1]), events[|events| - 1]);
    }
  }

  /** No entry under this id is in memory, and none would be loaded. */
  ghost predicate Gone(s: State, id: string) {
    !InMemory(s, id) && !InStorage(s.storage, id)
  }

  lemma {:induction false} GoneStep(s: Session, e: Event, id: string)
    requires id in s.requests.started && Gone(s.store, id) && Fresh(s, e)
    ensures id in React(s, e).requests.started && Gone(React(s, e).store, id)
  {
    match e
    case Pick(key, other, _, _, _) => StepStaysOut(s.store, AddUpload(key, Placeholder(e)), id, false);
    case Resolved(q, _) => if IsInFlight(s, q) { GoneDelivered(s, e, id); }
    case Rejected(q, _, _, _) => if IsInFlight(s, q) { GoneDelivered(s, e, id); }
    case Dismiss(key, other) => StepStaysOut(s.store, RemoveUpload(key, other), id, false);
    case Other(a) => StepStaysOut(s.store, a, id, false);
    case Logout(slugs) => LogoutStaysOut(s.store, slugs, id);
  }

  /** An outcome for an id without an entry changes nothing; any other keeps the id out. */
  lemma {:induction false} GoneDelivered(s: Session, e: Event, id: string)
    requires e.Resolved? || e.Rejected?
    requires IsInFlight(s, e.request) && Gone(s.store, id)
    ensures Gone(Delivered(s, e), id)
    ensures s.requests.started[e.request] == id ==> Delivered(s, e) == s.store
  {
    var key, other := s.slots[e.request], s.requests.started[e.request];
    if other == id {
      NotThere(s.store, key, id);
    } else if e.Resolved? {
      StepStaysOut(s.store, SettleUpload(key, other, e.attachment), id, false);
    } else {
      StepStaysOut(s.store, RemoveUpload(key, other), id, false);
      StepStaysOut(s.store, FailUpload(key, other, e.error), id, false);
    }
  }

  lemma {:induction false} NotThere(s: State, key: string, id: string)
    requires !InMemory(s, id)
    ensures !HasUpload(Slot(s.uploads, key), id)
  {
    var list := Slot(s.uploads, key);
    forall i | 0 <= i < |list| ensures list[i].clientUploadId != id { assert list[i] in s.uploads[key]; }
  }

  /** What is gone stays gone: no run of fresh events brings an entry back under the id of an earlier request. */
  lemma {:induction false} GoneStaysGone(s: Session, events: seq<Event>, id: string)
    requires id in s.requests.started && Gone(s.store, id) && FreshRun(s, events)
    ensures id in Run(s, events).requests.started && Gone(Run(s, events).store, id)
    decreases |events|
  {
    if events != [] {
      GoneStaysGone(s, events[..|events| - 1], id);
      GoneStep(Run(s, events[..|events| - 1]), events[|events| - 1], id);
    }
  }

  /**
   * After a logout, whatever happens next, an outcome of a request that was in flight then changes neither the
   * store's memory nor its storage.
   */
  lemma {:induction false} LateOutcomeChangesNothing(st: Storage, slug: string, before: seq<Event>, slugs: set<string>,
                                                     after: seq<Event>, outcome: Event)
    requires FreshRun(Begin(st, slug), before)
    requires FreshRun(React(Run(Begin(st, slug), before), Logout(slugs)), after)
    requires outcome.Resolved? || outcome.Rejected?
    requires IsInFlight(Run(Begin(st, slug), before), outcome.request)
    ensures var s := Run(React(Run(Begin(st, slug), before), Logout(slugs)), after);
      React(s, outcome).store == s.store
  {
    var s := Run(Begin(st, slug), before);
    var out := React(s, Logout(slugs));
    var id := s.requests.started[outcome.request];
    RunSound(st, slug, before);
    assert Quiet(s, outcome.request);
    LogoutStaysOut(s.store, slugs, id);
    GoneStaysGone(out, after, id);
    StartedKeeps(out, after, outcome.request);
    var t := Run(out, after);
    if IsInFlight(t, outcome.request) { GoneDelivered(t, outcome, id); }
  }

  lemma {:induction false} StartedKeeps(s: Session, events: seq<Event>, r: nat)
    requires r < |s.requests.started|
    ensures r < |Run(s, events).requests.started| && Run(s, events).requests.started[r] == s.requests.started[r]
    decreases |events|
  {
    if events != [] {
      StartedKeeps(s, events[..|events| - 1], r);
      ReactKeepsStarted(Run(s, events[..|events| - 1]), events[|events| - 1]);
    }
  }

  lemma {:induction false} ReactKeepsStarted(s: Session, e: Event)
    ensures s.requests.started <= React(s, e).requests.started
  {
  }

  /** A logout cancels every request that is still running and empties the store's memory and the listed workspaces. */
  lemma {:induction false} LogoutCancelsAll(st: Storage, slug: string, before: seq<Event>, slugs: set<string>)
    requires FreshRun(Begin(st, slug), before)
    ensures var s := React(Run(Begin(st, slug), before), Logout(slugs));
      && s.requests.controllers == map[] && s.requests.inFlight <= s.requests.aborted
      && s.store.drafts == map[] && s.store.uploads == map[] && s.store.applied == [] && s.store.restores == map[]
      && forall w :: w in slugs && w != "" ==> ReadsNothing(s.store.storage, w)
  {
    var s := Run(Begin(st, slug), before);
    RunSound(st, slug, before);
    U.AbortAllReachesAll(s.requests);
    forall w | w in slugs && w != "" ensures ReadsNothing(Cleared(s.store.storage, slugs), w) {
      ClearedReadsNothing(s.store.storage, slugs, w);
    }
  }

  /** The store has no blob of this workspace to read. */
  ghost predicate ReadsNothing(st: Storage, w: string) {
    ReadDrafts(st, Key(DraftsKey, w)) == map[] && ReadUploads(st, Key(AttachmentsKey, w)) == map[]
    && ReadApplied(st, Key(AppliedKey, w)) == [] && ReadRestores(st, Key(RestoresKey, w)) == map[]
  }

  lemma {:induction false} ClearedReadsNothing(st: Storage, slugs: set<string>, w: string)
    requires w in slugs && w != ""
    ensures ReadsNothing(Cleared(st, slugs), w)
  {
  }
}
