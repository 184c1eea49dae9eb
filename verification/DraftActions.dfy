/** What each action of the chat store leaves in its slots, and for the next load (packages/core/chat/store.ts). */
module DraftActions {
  import opened Lists
  import opened DraftUploads
  import opened ChatStore

  // ---------------------------------------------------------------- what an action leaves alone

  /** Both maps hold the same under every key but this one. */
  ghost predicate SameElsewhere<V>(m: map<string, V>, n: map<string, V>, k: string) {
    forall j :: j != k ==> (j in m <==> j in n) && (j in m ==> m[j] == n[j])
  }

  predicate OnTexts(a: Action) {
    a.SetDraft? || a.AppendToDraft? || a.ClearDraft?
  }

  /** An action on one slot leaves the others, and what is not of its kind, as they were. */
  lemma {:induction false} ActionFrame(s: State, a: Action)
    requires !a.SwitchWorkspace? && !a.Reload?
    ensures var t := Step(s, a);
      && t.slug == s.slug && (a.SelectAgent? || t.agent == s.agent)
      && (if OnTexts(a) then SameElsewhere(s.drafts, t.drafts, a.key) else t.drafts == s.drafts)
      && (if OnUploads(a) || a.ClearDraft? then SameElsewhere(s.uploads, t.uploads, a.key) else t.uploads == s.uploads)
      && (if a.EnqueueRestore? then SameElsewhere(s.restores, t.restores, a.restore.sessionId)
          else if a.DequeueRestore? then SameElsewhere(s.restores, t.restores, a.key) else t.restores == s.restores)
      && (a.MarkApplied? || a.ForgetApplied? || t.applied == s.applied)
  {
    if OnUploads(a) {
      UploadFrame(s, a);
    } else if OnTexts(a) {
      TextFrame(s, a);
    } else {
      OtherFrame(s, a);
    }
  }

  lemma {:induction false} UploadFrame(s: State, a: Action)
    requires OnUploads(a)
    ensures var t := Step(s, a); t == s.(uploads := t.uploads, storage := t.storage) && SameElsewhere(s.uploads, t.uploads, a.key)
  {
  }

  lemma {:induction false} TextFrame(s: State, a: Action)
    requires OnTexts(a)
    ensures var t := Step(s, a);
      && t == s.(drafts := t.drafts, uploads := t.uploads, storage := t.storage) && (a.ClearDraft? || t.uploads == s.uploads)
      && SameElsewhere(s.drafts, t.drafts, a.key) && SameElsewhere(s.uploads, t.uploads, a.key)
  {
  }

  lemma {:induction false} OtherFrame(s: State, a: Action)
    requires !OnUploads(a) && !OnTexts(a) && !a.SwitchWorkspace? && !a.Reload?
    ensures var t := Step(s, a);
      && t == s.(agent := t.agent, applied := t.applied, restores := t.restores, storage := t.storage)
      && (a.SelectAgent? || t.agent == s.agent) && (a.MarkApplied? || a.ForgetApplied? || t.applied == s.applied)
      && (if a.EnqueueRestore? then SameElsewhere(s.restores, t.restores, a.restore.sessionId)
          else if a.DequeueRestore? then SameElsewhere(s.restores, t.restores, a.key) else t.restores == s.restores)
  {
  }

  // ---------------------------------------------------------------- texts

  /** A text is shown as it was set, and read back by a reload unless it is empty or in a legacy slot. */
  lemma {:induction false} TextIsKept(s: State, k: string, text: string)
    requires Mirrors(s)
    ensures var t := Step(s, SetDraft(k, text)); k in t.drafts && t.drafts[k] == text
    ensures text != "" && !IsLegacy(k) ==> var r := Step(Step(s, SetDraft(k, text)), Reload); k in r.drafts && r.drafts[k] == text
  {
    var t := Step(s, SetDraft(k, text));
    StepMirrors(s, SetDraft(k, text));
    if text != "" && !IsLegacy(k) { ReloadedText(t, k); }
  }

  /** A reload folds what memory and storage agree on. */
  lemma {:induction false} ReloadFolds(s: State)
    requires Mirrors(s)
    ensures var r := Step(s, Reload);
      && r.drafts == Migrated(ReadDrafts(s.storage, KeyOf(s, DraftsKey)), s.agent)
      && r.uploads == Migrated(LastingUploads(s.uploads), s.agent) && r.agent == s.agent
  {
  }

  /** What a reload shows under a slot: what was there, or nothing; under the new-chat slot perhaps an old agent's text. */
  lemma {:induction false} ReloadedText(s: State, k: string)
    requires Mirrors(s)
    ensures var r := Step(s, Reload);
      if IsLegacy(k) then k !in r.drafts
      else if Text0(s.drafts, k) != "" then k in r.drafts && r.drafts[k] == s.drafts[k]
      else Text0(r.drafts, k) == "" || (k == NEW_SESSION && Text0(r.drafts, k) == Text0(s.drafts, AdoptedKey(s.agent)))
  {
    ReloadFolds(s);
    FoldedText(ReadDrafts(s.storage, KeyOf(s, DraftsKey)), s.drafts, s.agent, k);
  }

  lemma {:induction false} FoldedText(texts: map<string, string>, drafts: map<string, string>, agent: Option<string>, k: string)
    requires Kept(texts, NonEmptyText) == Kept(drafts, NonEmptyText)
    ensures var m := Migrated(texts, agent);
      if IsLegacy(k) then k !in m
      else if Text0(drafts, k) != "" then k in m && m[k] == drafts[k]
      else Text0(m, k) == "" || (k == NEW_SESSION && Text0(m, k) == Text0(drafts, AdoptedKey(agent)))
  {
    MigratedFolds(texts, agent);
    SameKeptText(texts, drafts, k);
    SameKeptText(texts, drafts, AdoptedKey(agent));
  }

  lemma {:induction false} SameKeptText(m: map<string, string>, n: map<string, string>, k: string)
    requires Kept(m, NonEmptyText) == Kept(n, NonEmptyText)
    ensures Text0(m, k) == Text0(n, k)
  {
    assert k in m && m[k] != "" <==> k in Kept(m, NonEmptyText);
    assert k in n && n[k] != "" <==> k in Kept(n, NonEmptyText);
  }

  /** What a reload shows of uploads: those that have settled, and in the new-chat slot perhaps an old agent's. */
  lemma {:induction false} ReloadedUploads(s: State, k: string)
    requires Mirrors(s)
    ensures var r := Step(s, Reload);
      Slot(r.uploads, k) ==
        if IsLegacy(k) then []
        else if k == NEW_SESSION && Lasting(s, k) == [] then Lasting(s, AdoptedKey(s.agent))
        else Lasting(s, k)
  {
    ReloadFolds(s);
    FoldedUploads(s.uploads, s.agent, k);
  }

  lemma {:induction false} FoldedUploads(uploads: map<string, seq<Upload>>, agent: Option<string>, k: string)
    ensures Slot(Migrated(LastingUploads(uploads), agent), k) ==
      if IsLegacy(k) then []
      else if k == NEW_SESSION && Settled(Slot(uploads, k)) == [] then Settled(Slot(uploads, AdoptedKey(agent)))
      else Settled(Slot(uploads, k))
  {
    MigratedFolds(LastingUploads(uploads), agent);
    LastingSlot(uploads, k);
    LastingSlot(uploads, AdoptedKey(agent));
  }

  lemma {:induction false} LastingSlot(uploads: map<string, seq<Upload>>, k: string)
    ensures Slot(LastingUploads(uploads), k) == Settled(Slot(uploads, k))
    ensures k in LastingUploads(uploads) <==> Settled(Slot(uploads, k)) != []
  {
  }

  /** The uploads of a slot that are not in flight. */
  function Lasting(s: State, k: string): seq<Upload> {
    Settled(Slot(s.uploads, k))
  }

  // ---------------------------------------------------------------- clearing

  /** After a clear the slot is gone from texts and uploads, and every other slot holds what it held. */
  lemma {:induction false} ClearLeavesNothing(s: State, k: string)
    ensures var t := Step(s, ClearDraft(k));
      && k !in t.drafts && k !in t.uploads
      && SameElsewhere(s.drafts, t.drafts, k) && SameElsewhere(s.uploads, t.uploads, k)
      && t.applied == s.applied && t.restores == s.restores && t.agent == s.agent && t.slug == s.slug
  {
    TextFrame(s, ClearDraft(k));
  }

  /**
   * A reload then shows no text and no upload under this slot, unless it is the new-chat slot and the selected
   * agent's legacy slot still holds some.
   */
  lemma {:induction false} ClearedStaysCleared(s: State, k: string)
    requires Mirrors(s)
    requires k != NEW_SESSION || (Text0(s.drafts, AdoptedKey(s.agent)) == "" && Lasting(s, AdoptedKey(s.agent)) == [])
    ensures var r := Step(Step(s, ClearDraft(k)), Reload); Text0(r.drafts, k) == "" && Slot(r.uploads, k) == []
  {
    var t := Step(s, ClearDraft(k));
    StepMirrors(s, ClearDraft(k));
    ClearLeavesNothing(s, k);
    assert |AdoptedKey(s.agent)| > |NEW_SESSION|;
    ReloadedText(t, k);
    ReloadedUploads(t, k);
  }

  /** So after every run of a current build, what is cleared stays cleared. */
  lemma {:induction false} SentDraftStaysCleared(st: Storage, slug: string, actions: seq<Action>, k: string)
    requires forall i :: 0 <= i < |actions| ==> Modern(actions[i])
    ensures var r := Run(Loaded(st, slug), actions + [ClearDraft(k)] + [Reload]);
      Text0(r.drafts, k) == "" && Slot(r.uploads, k) == []
  {
    var s := Run(Loaded(st, slug), actions);
    RunMirrors(st, slug, actions);
    RunStaysModern(st, slug, actions);
    assert IsLegacy(AdoptedKey(s.agent));
    ClearedStaysCleared(s, k);
    RunNext(Loaded(st, slug), actions, ClearDraft(k));
    RunNext(Loaded(st, slug), actions + [ClearDraft(k)], Reload);
  }

  lemma {:induction false} RunNext(s: State, actions: seq<Action>, a: Action)
    ensures Run(s, actions + [a]) == Step(Run(s, actions), a)
  {
    assert (actions + [a])[..|actions|] == actions;
  }

  // ---------------------------------------------------------------- uploads

  /** A list of uploads replaces its slot, which is there exactly if the list is not empty. */
  lemma {:induction false} UploadsAreSet(s: State, k: string, list: seq<Upload>)
    ensures var t := Step(s, SetUploads(k, list)); Slot(t.uploads, k) == list && (k in t.uploads <==> list != [])
  {
  }

  /** A placeholder goes to the end of its slot, unless its id is there already. */
  lemma {:induction false} UploadIsAdded(s: State, k: string, u: Upload)
    ensures var before, t := Slot(s.uploads, k), Step(s, AddUpload(k, u));
      if exists i :: 0 <= i < |before| && before[i].clientUploadId == u.clientUploadId then t == s
      else Slot(t.uploads, k) == before + [u]
  {
  }

  /** A row is shown as an uploaded entry of this id: the row's own data, without the signed URL. */
  ghost predicate ShowsRow(u: Upload, id: string, row: Attachment) {
    && u.Uploaded? && u.clientUploadId == id && u.filename == row.filename && u.size == row.sizeBytes
    && u.contentType == (if row.contentType == "" then None else Some(row.contentType))
    && u.attachment == Attachment(row.id, row.filename, row.url, "", row.sizeBytes, row.contentType, row.rest)
  }

  /** A settled upload is its row, under the id it was picked with. */
  lemma {:induction false} SettledShowsRow(s: State, k: string, id: string, row: Attachment, i: nat)
    requires i < |Slot(s.uploads, k)| && Slot(s.uploads, k)[i].clientUploadId == id
    ensures var after := Slot(Step(s, SettleUpload(k, id, row)).uploads, k); i < |after| && ShowsRow(after[i], id, row)
  {
  }

  /** An attached row takes the place of every entry for it, or goes to the end; one without an id is ignored. */
  lemma {:induction false} AttachmentShowsRow(s: State, k: string, row: Attachment)
    ensures row.id == "" ==> Step(s, AddAttachment(k, row)) == s
    ensures row.id != "" ==>
      var before, after := Slot(s.uploads, k), Slot(Step(s, AddAttachment(k, row)).uploads, k);
      if exists i :: 0 <= i < |before| && before[i].Uploaded? && before[i].attachment.id == row.id
      then |after| == |before| && forall i :: 0 <= i < |before| ==>
             if before[i].Uploaded? && before[i].attachment.id == row.id then ShowsRow(after[i], row.id, row)
             else after[i] == before[i]
      else |after| == |before| + 1 && after[..|before|] == before && ShowsRow(after[|before|], row.id, row)
  {
    if row.id != "" { WithRowShows(Slot(s.uploads, k), row); }
  }

  lemma {:induction false} WithRowShows(before: seq<Upload>, row: Attachment)
    requires row.id != ""
    ensures var after := WithRow(before, row);
      if exists i :: 0 <= i < |before| && before[i].Uploaded? && before[i].attachment.id == row.id
      then |after| == |before| && forall i :: 0 <= i < |before| ==>
             if before[i].Uploaded? && before[i].attachment.id == row.id then ShowsRow(after[i], row.id, row)
             else after[i] == before[i]
      else |after| == |before| + 1 && after[..|before|] == before && ShowsRow(after[|before|], row.id, row)
  {
    if i :| 0 <= i < |before| && before[i].Uploaded? && before[i].attachment.id == row.id { assert HoldsRow(before[i], row); }
  }

  /** A stored bare row, as earlier builds wrote them, is loaded as an uploaded entry under its id, or its address. */
  lemma {:induction false} BareRowIsLoaded(raw: seq<Raw>, i: nat)
    requires i < |raw| && raw[i].Bare?
    ensures var row := raw[i].attachment;
      exists u :: u in Normalized(raw) && ShowsRow(u, if row.id == "" then row.url else row.id, row)
    decreases |raw|
  {
    var n, row := |raw| - 1, raw[i].attachment;
    if i == n {
      assert AttachmentToDraftUpload(row) in Normalized(raw);
    } else {
      BareRowIsLoaded(raw[..n], i);
      var u :| u in Normalized(raw[..n]) && ShowsRow(u, if row.id == "" then row.url else row.id, row);
      assert u in Normalized(raw);
    }
  }

  /** Nothing else is loaded but the entries that were stored, less those that were still uploading. */
  lemma {:induction false} LoadedWasStored(raw: seq<Raw>, u: Upload)
    ensures u in Normalized(raw) && (forall i :: 0 <= i < |raw| && raw[i].Bare? ==>
              !ShowsRow(u, if raw[i].attachment.id == "" then raw[i].attachment.url else raw[i].attachment.id, raw[i].attachment))
      ==> Shaped(u) in raw && (u.Uploaded? || u.status != Uploading)
    ensures Shaped(u) in raw && (u.Uploaded? || u.status != Uploading) ==> u in Normalized(raw)
    decreases |raw|
  {
    if raw != [] {
      var n := |raw| - 1;
      assert raw == raw[..n] + [raw[n]];
      LoadedWasStored(raw[..n], u);
    }
  }

  /** A failure keeps what was picked, in place, as failed with its error; for an id that is not there nothing changes. */
  lemma {:induction false} FailureIsShown(s: State, k: string, id: string, error: Option<string>, i: nat)
    requires i < |Slot(s.uploads, k)| && Slot(s.uploads, k)[i].clientUploadId == id
    requires forall j :: 0 <= j < i ==> Slot(s.uploads, k)[j].clientUploadId != id
    ensures var before, after := Slot(s.uploads, k), Slot(Step(s, FailUpload(k, id, error)).uploads, k);
      && |after| == |before|
      && forall j :: 0 <= j < |before| ==> if before[j].clientUploadId != id then after[j] == before[j]
           else after[j] == Pending(id, before[i].filename, before[i].size, before[i].contentType, Failed, error)
  {
    FirstUploadIs(Slot(s.uploads, k), id, i);
  }

  lemma {:induction false} FirstUploadIs(list: seq<Upload>, id: string, i: nat)
    requires i < |list| && list[i].clientUploadId == id && forall j :: 0 <= j < i ==> list[j].clientUploadId != id
    ensures HasUpload(list, id) && FirstUpload(list, id) == list[i]
    decreases i
  {
    if i > 0 {
      assert list[1..][i - 1] == list[i];
      FirstUploadIs(list[1..], id, i - 1);
    }
  }

  /** No action on an unknown id changes anything. */
  lemma {:induction false} UnknownIdIsIgnored(s: State, k: string, id: string, a: Attachment, error: Option<string>)
    requires forall i :: 0 <= i < |Slot(s.uploads, k)| ==> Slot(s.uploads, k)[i].clientUploadId != id
    ensures Step(s, SettleUpload(k, id, a)) == Step(s, FailUpload(k, id, error)) == Step(s, RemoveUpload(k, id)) == s
  {
  }

  /** A removal takes out the entries under the id and keeps the others, as often and in the order they were there. */
  lemma {:induction false} UploadIsRemoved(s: State, k: string, id: string)
    ensures var before, after := Slot(s.uploads, k), Slot(Step(s, RemoveUpload(k, id)).uploads, k);
      && (forall u :: multiset(after)[u] == if u.clientUploadId == id then 0 else multiset(before)[u])
      && InSameOrder(after, before)
  {
    var before := Slot(s.uploads, k);
    WithoutUploadOrder(before, id);
    forall u ensures multiset(WithoutUpload(before, id))[u] == if u.clientUploadId == id then 0 else multiset(before)[u] {
      WithoutUploadCount(before, id, u);
    }
    if !HasUpload(before, id) { SameOrderItself(before); AbsentCount(before, id); }
  }

  /** `r` is `s` with some elements left out. */
  ghost predicate InSameOrder<T>(r: seq<T>, s: seq<T>) {
    r == [] || (s != [] && (InSameOrder(r, s[..|s| - 1])
      || (r[|r| - 1] == s[|s| - 1] && InSameOrder(r[..|r| - 1], s[..|s| - 1]))))
  }

  lemma {:induction false} SameOrderItself<T>(s: seq<T>)
    ensures InSameOrder(s, s)
    decreases |s|
  {
    if s != [] { SameOrderItself(s[..|s| - 1]); }
  }

  lemma {:induction false} WithoutUploadOrder(list: seq<Upload>, id: string)
    ensures InSameOrder(WithoutUpload(list, id), list)
    decreases |list|
  {
    if list != [] {
      var n := |list| - 1;
      var r := WithoutUpload(list[..n], id);
      WithoutUploadOrder(list[..n], id);
      if list[n].clientUploadId == id { assert r + [] == r; } else { assert (r + [list[n]])[..|r|] == r; }
    }
  }

  lemma {:induction false} WithoutUploadCount(list: seq<Upload>, id: string, u: Upload)
    ensures multiset(WithoutUpload(list, id))[u] == if u.clientUploadId == id then 0 else multiset(list)[u]
    decreases |list|
  {
    if list != [] {
      var n := |list| - 1;
      assert list == list[..n] + [list[n]];
      WithoutUploadCount(list[..n], id, u);
    }
  }

  lemma {:induction false} AbsentCount(list: seq<Upload>, id: string)
    requires !HasUpload(list, id)
    ensures forall u: Upload :: u.clientUploadId == id ==> multiset(list)[u] == 0
  {
    forall u: Upload | u.clientUploadId == id ensures multiset(list)[u] == 0 { assert u !in list; }
  }

  // ---------------------------------------------------------------- the agent, and a load

  /** A selected agent is stored, */
  lemma {:induction false} AgentIsStored(s: State, id: string)
    ensures var t := Step(s, SelectAgent(id));
      t.agent == Some(id) && t.slug == s.slug && ReadText(t.storage, KeyOf(s, AgentKey)) == Some(id)
  {
  }

  /** so it is selected again after a reload, and after going to another workspace and back. */
  lemma {:induction false} AgentIsKept(s: State, other: string)
    requires other != s.slug && Mirrors(s)
    ensures Step(s, Reload).agent == s.agent
    ensures Step(Step(s, SwitchWorkspace(other)), SwitchWorkspace(s.slug)).agent == s.agent
  {
    ReloadFolds(s);
    AwayAndBack(s, other);
    AgentIsStoredToo(s);
  }

  lemma {:induction false} AgentIsStoredToo(s: State)
    requires Mirrors(s)
    ensures ReadText(s.storage, KeyOf(s, AgentKey)) == s.agent
  {
  }

  lemma {:induction false} AwayAndBack(s: State, other: string)
    requires other != s.slug
    ensures Step(Step(s, SwitchWorkspace(other)), SwitchWorkspace(s.slug)).agent == ReadText(s.storage, KeyOf(s, AgentKey))
  {
    var away := Step(s, SwitchWorkspace(other));
    OthersUntouched(s, SwitchWorkspace(other));
    assert SameAt(s.storage, away.storage, KeyOf(s, AgentKey));
    ReadsSame(s.storage, away.storage, KeyOf(s, AgentKey));
  }

  /** A load brings back the agent and every slot that is neither a legacy one nor the new-chat slot. */
  lemma {:induction false} LoadBringsBack(st: Storage, slug: string, k: string)
    requires !IsLegacy(k) && k != NEW_SESSION
    ensures var s, texts, lists := Loaded(st, slug), ReadDrafts(st, Key(DraftsKey, slug)), ReadUploads(st, Key(AttachmentsKey, slug));
      && s.slug == slug && s.agent == ReadText(st, Key(AgentKey, slug))
      && (k in s.drafts <==> k in texts) && (k in texts ==> s.drafts[k] == texts[k])
      && (k in s.uploads <==> k in lists) && (k in lists ==> s.uploads[k] == lists[k])
      && s.applied == ReadApplied(st, Key(AppliedKey, slug)) && s.restores == ReadRestores(st, Key(RestoresKey, slug))
  {
    var agent := ReadText(st, Key(AgentKey, slug));
    MigratedFolds(ReadDrafts(st, Key(DraftsKey, slug)), agent);
    MigratedFolds(ReadUploads(st, Key(AttachmentsKey, slug)), agent);
    LoadReadsOthers(st, slug);
  }

  // ---------------------------------------------------------------- nothing empty is stored

  /** The blob holds something, and so does each of its slots; what cannot be parsed was not written here. */
  ghost predicate HoldsSomething(b: Blob) {
    match b
    case Drafts(texts) => texts != map[] && forall k :: k in texts ==> texts[k] != ""
    case Uploads(lists) => lists != map[] && forall k :: k in lists ==> lists[k] != []
    case Applied(ids) => ids != []
    case Restores(queues) => queues != map[] && forall k :: k in queues ==> queues[k] != []
    case Text(_) => true
    case Corrupt => true
  }

  ghost predicate NothingEmpty(st: Storage) {
    forall k :: k in st ==> HoldsSomething(st[k])
  }

  lemma {:induction false} PutNothingEmpty(st: Storage, k: Key, empty: bool, blob: Blob)
    requires NothingEmpty(st) && (!empty ==> HoldsSomething(blob))
    ensures NothingEmpty(Put(st, k, empty, blob)) && (empty ==> k !in Put(st, k, empty, blob))
  {
  }

  lemma {:induction false} WritesNothingEmpty(st: Storage, k: Key, d: map<string, string>, u: map<string, seq<Upload>>,
                                              ids: seq<string>, q: map<string, seq<Restore>>)
    requires NothingEmpty(st)
    ensures NothingEmpty(WriteDrafts(st, k, d)) && NothingEmpty(WriteUploads(st, k, u))
    ensures NothingEmpty(WriteApplied(st, k, ids)) && NothingEmpty(WriteRestores(st, k, q))
  {
    var d', u', q' := Kept(d, NonEmptyText), Kept(u, NonEmpty<Upload>), Kept(q, NonEmpty<Restore>);
    PutNothingEmpty(st, k, d' == map[], Drafts(d'));
    StoredNothingEmpty(u', q');
    PutNothingEmpty(st, k, u' == map[], Uploads(StoredSlots(u')));
    PutNothingEmpty(st, k, ids == [], Applied(ids));
    PutNothingEmpty(st, k, q' == map[], Restores(StoredQueues(q')));
  }

  lemma {:induction false} StoredNothingEmpty(u: map<string, seq<Upload>>, q: map<string, seq<Restore>>)
    requires (forall k :: k in u ==> u[k] != []) && forall k :: k in q ==> q[k] != []
    ensures u != map[] ==> HoldsSomething(Uploads(StoredSlots(u)))
    ensures q != map[] ==> HoldsSomething(Restores(StoredQueues(q)))
  {
    if u != map[] {
      assert StoredSlots(u).Keys == u.Keys;
      forall k | k in u ensures StoredSlots(u)[k] != [] { assert |Stored(u[k])| == |u[k]|; }
    }
    if q != map[] {
      assert StoredQueues(q).Keys == q.Keys;
      forall k | k in q ensures StoredQueues(q)[k] != [] { assert |StoredQueue(q[k])| == |q[k]|; }
    }
  }

  lemma {:induction false} StepStoresNothingEmpty(s: State, a: Action)
    requires NothingEmpty(s.storage)
    ensures NothingEmpty(Step(s, a).storage)
  {
    var t := Step(s, a);
    if OnUploads(a) {
      UploadStep(s, a);
      WritesNothingEmpty(s.storage, KeyOf(s, AttachmentsKey), t.drafts, t.uploads, t.applied, t.restores);
    } else if a.SetDraft? || a.AppendToDraft? {
      DraftStep(s, a);
      WritesNothingEmpty(s.storage, KeyOf(s, DraftsKey), t.drafts, t.uploads, t.applied, t.restores);
    } else if a.EnqueueRestore? || a.DequeueRestore? {
      RestoreStep(s, a);
      WritesNothingEmpty(s.storage, KeyOf(s, RestoresKey), t.drafts, t.uploads, t.applied, t.restores);
    } else if a.MarkApplied? || a.ForgetApplied? {
      AppliedStep(s, a);
      WritesNothingEmpty(s.storage, KeyOf(s, AppliedKey), t.drafts, t.uploads, t.applied, t.restores);
    } else if a.ClearDraft? {
      ClearStoresNothingEmpty(s, a.key);
    } else if a.SelectAgent? {
      PutNothingEmpty(s.storage, KeyOf(s, AgentKey), false, Text(a.id));
    } else {
      LoadStep(s, a);
      LoadStoresNothingEmpty(s.storage, t.slug);
    }
  }

  lemma {:induction false} ClearStoresNothingEmpty(s: State, k: string)
    requires NothingEmpty(s.storage)
    ensures NothingEmpty(Step(s, ClearDraft(k)).storage)
  {
    var t := WithDrafts(s, Drop(s.drafts, k));
    ClearStep(s, k);
    WritesNothingEmpty(s.storage, KeyOf(s, DraftsKey), Drop(s.drafts, k), s.uploads, s.applied, s.restores);
    WritesNothingEmpty(t.storage, KeyOf(t, AttachmentsKey), t.drafts, Drop(s.uploads, k), s.applied, s.restores);
  }

  lemma {:induction false} LoadStoresNothingEmpty(st: Storage, slug: string)
    requires NothingEmpty(st)
    ensures NothingEmpty(Loaded(st, slug).storage)
  {
    var agent := ReadText(st, Key(AgentKey, slug));
    var st1 := FoldDrafts(st, slug, agent);
    WritesNothingEmpty(st, Key(DraftsKey, slug), Migrated(ReadDrafts(st, Key(DraftsKey, slug)), agent), map[], [], map[]);
    WritesNothingEmpty(st1, Key(AttachmentsKey, slug), map[],
                       Migrated(ReadUploads(st1, Key(AttachmentsKey, slug)), agent), [], map[]);
  }

  /** After every run from empty storage no blob and no slot in it is empty: an emptied blob's key is removed. */
  lemma {:induction false} RunStoresNothingEmpty(slug: string, actions: seq<Action>)
    ensures NothingEmpty(Run(Loaded(map[], slug), actions).storage)
    decreases |actions|
  {
    if actions == [] {
      LoadStoresNothingEmpty(map[], slug);
    } else {
      RunStoresNothingEmpty(slug, actions[..|actions| - 1]);
      StepStoresNothingEmpty(Run(Loaded(map[], slug), actions[..|actions| - 1]), actions[|actions| - 1]);
    }
  }
}
