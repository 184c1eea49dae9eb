/** The store object: each action replaces fields and writes blobs as the model in `ChatStore` says. */
module ChatStoreObject {
  import opened Lists
  import opened Spaces
  import opened DraftUploads
  import opened ChatStore

  /** The entries worth writing, collected one by one. */
  method Prune<V>(m: map<string, V>, keep: V -> bool) returns (pruned: map<string, V>)
    ensures pruned == Kept(m, keep)
  {
    pruned := map[];
    var todo := m.Keys;
    while todo != {}
      invariant todo <= m.Keys
      invariant pruned == map k | k in m && k !in todo && keep(m[k]) :: m[k]
      decreases todo
    {
      var k :| k in todo;
      if keep(m[k]) { pruned := pruned[k := m[k]]; }
      todo := todo - {k};
    }
  }

  /** Each stored list normalized; lists with nothing left are dropped. */
  method ReadDraftAttachments(lists: map<string, seq<Raw>>) returns (out: map<string, seq<Upload>>)
    ensures out == Kept(NormalizedSlots(lists), NonEmpty<Upload>)
  {
    out := map[];
    var todo := lists.Keys;
    while todo != {}
      invariant todo <= lists.Keys
      invariant out == map k | k in lists && k !in todo && Normalized(lists[k]) != [] :: Normalized(lists[k])
      decreases todo
    {
      var k :| k in todo;
      var uploads := NormalizeStoredUploads(lists[k]);
      if |uploads| > 0 { out := out[k := uploads]; }
      todo := todo - {k};
    }
  }

  method MigrateLegacyNewChatSlots<T>(slots: map<string, T>, agent: Option<string>)
    returns (next: map<string, T>, changed: bool)
    ensures changed == HasLegacy(slots) && next == Migrated(slots, agent)
  {
    var legacy := set k | k in slots && IsLegacy(k);
    if legacy == {} {
      assert forall k :: k in slots && IsLegacy(k) ==> k in legacy;
      MigratedKeeps(slots, agent);
      return slots, false;
    }
    next := slots;
    if NEW_SESSION !in next && AdoptedKey(agent) in next {
      next := next[NEW_SESSION := next[AdoptedKey(agent)]];
    }
    ghost var filled := next;
    var todo := legacy;
    while todo != {}
      invariant todo <= legacy
      invariant next == map k | k in filled && (k !in legacy || k in todo) :: filled[k]
      decreases todo
    {
      var k :| k in todo;
      next := map j | j in next && j != k :: next[j];
      todo := todo - {k};
    }
    assert !IsLegacy(NEW_SESSION);
    changed := true;
    var k :| k in legacy;
    assert k in slots && IsLegacy(k);
  }

  class Store {
    var storage: Storage
    var slug: string
    var selectedAgentId: Option<string>
    var inputDrafts: map<string, string>
    var inputDraftAttachments: map<string, seq<Upload>>
    var appliedDraftRestoreIds: seq<string>
    var pendingSendRestores: map<string, seq<Restore>>

    function Abs(): State
      reads this
    {
      State(storage, slug, selectedAgentId, inputDrafts, inputDraftAttachments,
            appliedDraftRestoreIds, pendingSendRestores)
    }

    /** A page load under the workspace `currentSlug`. */
    constructor (stored: Storage, currentSlug: string)
      ensures Abs() == Loaded(stored, currentSlug)
    {
      storage, slug, selectedAgentId := stored, currentSlug, None;
      inputDrafts, inputDraftAttachments := map[], map[];
      appliedDraftRestoreIds, pendingSendRestores := [], map[];
      new;
      Rehydrate();
    }

    method WriteDraftsBlob(drafts: map<string, string>)
      modifies this`storage
      ensures storage == WriteDrafts(old(storage), Key(DraftsKey, slug), drafts)
    {
      var pruned := Prune(drafts, NonEmptyText);
      if |pruned| == 0 {
        storage := map j | j in storage && j != Key(DraftsKey, slug) :: storage[j];
      } else {
        storage := storage[Key(DraftsKey, slug) := Drafts(pruned)];
      }
    }

    method WriteAttachmentsBlob(uploads: map<string, seq<Upload>>)
      modifies this`storage
      ensures storage == WriteUploads(old(storage), Key(AttachmentsKey, slug), uploads)
    {
      var pruned := Prune(uploads, NonEmpty<Upload>);
      if |pruned| == 0 {
        storage := map j | j in storage && j != Key(AttachmentsKey, slug) :: storage[j];
      } else {
        storage := storage[Key(AttachmentsKey, slug) := Uploads(StoredSlots(pruned))];
      }
    }

    method WriteAppliedBlob(ids: seq<string>)
      modifies this`storage
      ensures storage == WriteApplied(old(storage), Key(AppliedKey, slug), ids)
    {
      if |ids| == 0 {
        storage := map j | j in storage && j != Key(AppliedKey, slug) :: storage[j];
      } else {
        storage := storage[Key(AppliedKey, slug) := Applied(ids)];
      }
    }

    method WriteRestoresBlob(queues: map<string, seq<Restore>>)
      modifies this`storage
      ensures storage == WriteRestores(old(storage), Key(RestoresKey, slug), queues)
    {
      var pruned := Prune(queues, NonEmpty<Restore>);
      if |pruned| == 0 {
        storage := map j | j in storage && j != Key(RestoresKey, slug) :: storage[j];
      } else {
        storage := storage[Key(RestoresKey, slug) := Restores(StoredQueues(pruned))];
      }
    }

    /** Rebuild memory from the current workspace, folding its legacy slots. */
    method Rehydrate()
      modifies this
      ensures Abs() == Loaded(old(storage), old(slug))
    {
      var agent := ReadText(storage, Key(AgentKey, slug));
      var texts := ReadDrafts(storage, Key(DraftsKey, slug));
      var lists: map<string, seq<Upload>> := map[];
      if Key(AttachmentsKey, slug) in storage && storage[Key(AttachmentsKey, slug)].Uploads? {
        lists := ReadDraftAttachments(storage[Key(AttachmentsKey, slug)].lists);
      }
      var drafts, draftsChanged := MigrateLegacyNewChatSlots(texts, agent);
      var uploads, uploadsChanged := MigrateLegacyNewChatSlots(lists, agent);
      if draftsChanged { WriteDraftsBlob(drafts); }
      FoldDraftsFacts(old(storage), slug, agent);
      ReadsSame(old(storage), storage, Key(AttachmentsKey, slug));
      if uploadsChanged { WriteAttachmentsBlob(uploads); }
      selectedAgentId, inputDrafts, inputDraftAttachments := agent, drafts, uploads;
      appliedDraftRestoreIds := ReadApplied(storage, Key(AppliedKey, slug));
      pendingSendRestores := ReadRestores(storage, Key(RestoresKey, slug));
    }

    /** `setCurrentWorkspace` and the rehydration it triggers, as one step. */
    method SetCurrentWorkspace(next: string)
      modifies this
      ensures Abs() == Step(old(Abs()), SwitchWorkspace(next))
    {
      if slug == next { return; }
      slug := next;
      Rehydrate();
    }

    method SetSelectedAgentId(id: string)
      modifies this
      ensures Abs() == Step(old(Abs()), SelectAgent(id))
    {
      storage := storage[Key(AgentKey, slug) := Text(id)];
      selectedAgentId := Some(id);
    }

    method SetInputDraft(key: string, draft: string)
      modifies this
      ensures Abs() == Step(old(Abs()), SetDraft(key, draft))
    {
      var next := inputDrafts[key := draft];
      WriteDraftsBlob(next);
      inputDrafts := next;
    }

    method AppendToInputDraft(key: string, markdown: string)
      modifies this
      ensures Abs() == Step(old(Abs()), AppendToDraft(key, markdown))
    {
      var existing := TrimEnd(if key in inputDrafts then inputDrafts[key] else "");
      var next := inputDrafts[key := if existing != "" then existing + "\n\n" + markdown else markdown];
      WriteDraftsBlob(next);
      inputDrafts := next;
    }

    method SetInputDraftAttachments(key: string, uploads: seq<Upload>)
      modifies this
      ensures Abs() == Step(old(Abs()), SetUploads(key, uploads))
    {
      var next := inputDraftAttachments;
      if |uploads| > 0 { next := next[key := uploads]; } else { next := map k | k in next && k != key :: next[k]; }
      WriteAttachmentsBlob(next);
      inputDraftAttachments := next;
    }

    method AddInputDraftAttachment(key: string, attachment: Attachment)
      modifies this
      ensures Abs() == Step(old(Abs()), AddAttachment(key, attachment))
    {
      if attachment.id == "" { return; }
      var existing := if key in inputDraftAttachments then inputDraftAttachments[key] else [];
      var wrapped, nextForKey := AttachmentToDraftUpload(attachment), existing;
      if exists i :: 0 <= i < |existing| && existing[i].Uploaded? && existing[i].attachment.id == attachment.id {
        nextForKey := seq(|existing|, i requires 0 <= i < |existing| =>
          if existing[i].Uploaded? && existing[i].attachment.id == attachment.id then wrapped else existing[i]);
      } else {
        nextForKey := nextForKey + [wrapped];
      }
      assert nextForKey == WithRow(existing, attachment);
      var next := inputDraftAttachments[key := nextForKey];
      WriteAttachmentsBlob(next);
      inputDraftAttachments := next;
    }

    method AddInputDraftUpload(key: string, upload: Upload)
      modifies this
      ensures Abs() == Step(old(Abs()), AddUpload(key, upload))
    {
      var existing := if key in inputDraftAttachments then inputDraftAttachments[key] else [];
      if HasUpload(existing, upload.clientUploadId) { return; }
      var next := inputDraftAttachments[key := existing + [upload]];
      WriteAttachmentsBlob(next);
      inputDraftAttachments := next;
    }

    method SettleInputDraftUpload(key: string, id: string, attachment: Attachment)
      modifies this
      ensures Abs() == Step(old(Abs()), SettleUpload(key, id, attachment))
    {
      var existing := if key in inputDraftAttachments then inputDraftAttachments[key] else [];
      if !exists i :: 0 <= i < |existing| && existing[i].clientUploadId == id { return; }
      var wrapped := AttachmentToDraftUpload(attachment);
      var settled := Uploaded(id, wrapped.filename, wrapped.size, wrapped.contentType, wrapped.attachment);
      var nextForKey := seq(|existing|, i requires 0 <= i < |existing| =>
        if existing[i].clientUploadId == id then settled else existing[i]);
      assert nextForKey == Replaced(existing, id, settled);
      var next := inputDraftAttachments[key := nextForKey];
      WriteAttachmentsBlob(next);
      inputDraftAttachments := next;
    }

    method FailInputDraftUpload(key: string, id: string, error: Option<string>)
      modifies this
      ensures Abs() == Step(old(Abs()), FailUpload(key, id, error))
    {
      var existing := if key in inputDraftAttachments then inputDraftAttachments[key] else [];
      if !exists i :: 0 <= i < |existing| && existing[i].clientUploadId == id { return; }
      var target := FirstUpload(existing, id);
      var failed := Pending(id, target.filename, target.size, target.contentType, Failed, error);
      FirstUploadHas(existing, id);
      var nextForKey := seq(|existing|, i requires 0 <= i < |existing| =>
        if existing[i].clientUploadId == id then failed else existing[i]);
      assert nextForKey == Replaced(existing, id, failed);
      var next := inputDraftAttachments[key := nextForKey];
      WriteAttachmentsBlob(next);
      inputDraftAttachments := next;
    }

    method RemoveInputDraftUpload(key: string, id: string)
      modifies this
      ensures Abs() == Step(old(Abs()), RemoveUpload(key, id))
    {
      var existing := if key in inputDraftAttachments then inputDraftAttachments[key] else [];
      if !exists i :: 0 <= i < |existing| && existing[i].clientUploadId == id { return; }
      var remaining, next := WithoutUpload(existing, id), inputDraftAttachments;
      if |remaining| > 0 { next := next[key := remaining]; } else { next := map k | k in next && k != key :: next[k]; }
      WriteAttachmentsBlob(next);
      inputDraftAttachments := next;
    }

    method ClearInputDraft(key: string)
      modifies this
      ensures Abs() == Step(old(Abs()), ClearDraft(key))
    {
      if key !in inputDrafts && key !in inputDraftAttachments { return; }
      ghost var s := Abs();
      var nextDrafts, nextAttachments := Drop(inputDrafts, key), Drop(inputDraftAttachments, key);
      WriteDraftsBlob(nextDrafts);
      WriteAttachmentsBlob(nextAttachments);
      inputDrafts, inputDraftAttachments := nextDrafts, nextAttachments;
      assert Abs() == WithUploads(WithDrafts(s, nextDrafts), nextAttachments);
    }

    method MarkDraftRestoreApplied(id: string)
      modifies this
      ensures Abs() == Step(old(Abs()), MarkApplied(id))
    {
      if id in appliedDraftRestoreIds { return; }
      var next := appliedDraftRestoreIds + [id];
      WriteAppliedBlob(next);
      appliedDraftRestoreIds := next;
    }

    method ForgetDraftRestoreApplied(id: string)
      modifies this
      ensures Abs() == Step(old(Abs()), ForgetApplied(id))
    {
      if id !in appliedDraftRestoreIds { return; }
      var next := WithoutId(appliedDraftRestoreIds, id);
      WriteAppliedBlob(next);
      appliedDraftRestoreIds := next;
    }

    method EnqueuePendingSendRestore(restore: Restore)
      modifies this
      ensures Abs() == Step(old(Abs()), EnqueueRestore(restore))
    {
      if restore.sessionId == "" || restore.id == "" { return; }
      var existing := if restore.sessionId in pendingSendRestores then pendingSendRestores[restore.sessionId] else [];
      if exists i :: 0 <= i < |existing| && existing[i].id == restore.id { return; }
      var next := pendingSendRestores[restore.sessionId := existing + [restore]];
      WriteRestoresBlob(next);
      pendingSendRestores := next;
    }

    method DequeuePendingSendRestore(key: string, id: string)
      modifies this
      ensures Abs() == Step(old(Abs()), DequeueRestore(key, id))
    {
      var existing := if key in pendingSendRestores then pendingSendRestores[key] else [];
      if !exists i :: 0 <= i < |existing| && existing[i].id == id { return; }
      var remaining, next := WithoutRestore(existing, id), pendingSendRestores;
      if |remaining| > 0 { next := next[key := remaining]; } else { next := map k | k in next && k != key :: next[k]; }
      WriteRestoresBlob(next);
      pendingSendRestores := next;
    }
  }
}
