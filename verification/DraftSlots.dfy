/** What the slots of the chat store hold after an action (packages/core/chat/store.ts). */
module DraftSlots {
  import opened Lists
  import opened Spaces
  import opened DraftUploads
  import opened ChatStore

  // ---------------------------------------------------------------- presence means content

  /** A slot of uploads or restores is there exactly if it holds something. */
  ghost predicate NoEmptyLists(s: State) {
    (forall k :: k in s.uploads ==> s.uploads[k] != []) && forall k :: k in s.restores ==> s.restores[k] != []
  }

  lemma {:induction false} LoadedHasNoEmptyLists(st: Storage, slug: string)
    ensures NoEmptyLists(Loaded(st, slug))
  {
    var agent := ReadText(st, Key(AgentKey, slug));
    var lists := ReadUploads(st, Key(AttachmentsKey, slug));
    MigratedFolds(lists, agent);
    assert forall k :: k in lists ==> lists[k] != [];
  }

  lemma {:induction false} StepHasNoEmptyLists(s: State, a: Action)
    requires NoEmptyLists(s)
    ensures NoEmptyLists(Step(s, a))
  {
    if a.SwitchWorkspace? || a.Reload? {
      LoadStep(s, a);
      LoadedHasNoEmptyLists(s.storage, Step(s, a).slug);
    } else if OnUploads(a) {
      UploadsHaveNoEmptyLists(s, a);
    } else if a.EnqueueRestore? || a.DequeueRestore? {
      RestoresHaveNoEmptyLists(s, a);
    }
  }

  lemma {:induction false} UploadsHaveNoEmptyLists(s: State, a: Action)
    requires NoEmptyLists(s) && OnUploads(a)
    ensures NoEmptyLists(Step(s, a))
  {
  }

  lemma {:induction false} RestoresHaveNoEmptyLists(s: State, a: Action)
    requires NoEmptyLists(s) && (a.EnqueueRestore? || a.DequeueRestore?)
    ensures NoEmptyLists(Step(s, a))
  {
  }

  /** After every run, key presence means content. */
  lemma {:induction false} RunHasNoEmptyLists(st: Storage, slug: string, actions: seq<Action>)
    ensures NoEmptyLists(Run(Loaded(st, slug), actions))
    decreases |actions|
  {
    if actions == [] {
      LoadedHasNoEmptyLists(st, slug);
    } else {
      RunHasNoEmptyLists(st, slug, actions[..|actions| - 1]);
      StepHasNoEmptyLists(Run(Loaded(st, slug), actions[..|actions| - 1]), actions[|actions| - 1]);
    }
  }

  // ---------------------------------------------------------------- rows

  lemma {:induction false} RowsMember(uploads: seq<Upload>, a: Attachment)
    ensures a in Rows(uploads) <==> exists u :: u in uploads && u.Uploaded? && u.attachment == a
    decreases |uploads|
  {
    if uploads != [] {
      var n := |uploads| - 1;
      assert uploads == uploads[..n] + [uploads[n]];
      RowsMember(uploads[..n], a);
    }
  }

  lemma {:induction false} WithRowLands(before: seq<Upload>, row: Attachment)
    ensures var after := WithRow(before, row);
      && AttachmentToDraftUpload(row) in after
      && (forall i :: 0 <= i < |after| && HoldsRow(after[i], row) ==> after[i] == AttachmentToDraftUpload(row))
      && |before| <= |after| <= |before| + 1
      && forall i :: 0 <= i < |before| && !HoldsRow(before[i], row) ==> after[i] == before[i]
  {
    var after, wrapped := WithRow(before, row), AttachmentToDraftUpload(row);
    if i :| 0 <= i < |before| && HoldsRow(before[i], row) {
      assert after[i] == wrapped;
    } else {
      assert after[|before|] == wrapped;
    }
  }

  /** A row is added or refreshed, without its signed URL; other entries stay, and adding it again changes nothing. */
  lemma {:induction false} AttachmentLands(s: State, k: string, row: Attachment)
    requires row.id != ""
    ensures var a := AddAttachment(k, row);
      var before, after := Slot(s.uploads, k), Slot(Step(s, a).uploads, k);
      && row.(downloadUrl := "") in Rows(after)
      && |before| <= |after| <= |before| + 1
      && (forall i :: 0 <= i < |before| && !HoldsRow(before[i], row) ==> after[i] == before[i])
      && Slot(Step(Step(s, a), a).uploads, k) == after
  {
    var before, a := Slot(s.uploads, k), AddAttachment(k, row);
    WithRowLands(before, row);
    RowsMember(WithRow(before, row), row.(downloadUrl := ""));
    SlotAfterAdding(s, k, row);
    SlotAfterAdding(Step(s, a), k, row);
    WithRowAgain(before, row);
  }

  lemma {:induction false} SlotAfterAdding(s: State, k: string, row: Attachment)
    requires row.id != ""
    ensures Slot(Step(s, AddAttachment(k, row)).uploads, k) == WithRow(Slot(s.uploads, k), row)
  {
  }

  lemma {:induction false} WithRowAgain(before: seq<Upload>, row: Attachment)
    ensures WithRow(WithRow(before, row), row) == WithRow(before, row)
  {
    var after := WithRow(before, row);
    WithRowLands(before, row);
    var i :| 0 <= i < |after| && after[i] == AttachmentToDraftUpload(row);
    assert HoldsRow(after[i], row);
  }

  // ---------------------------------------------------------------- settling

  lemma {:induction false} ReplacedLands(before: seq<Upload>, id: string, row: Upload)
    requires HasUpload(before, id)
    ensures var after := Replaced(before, id, row);
      && row in after && |after| == |before|
      && forall i :: 0 <= i < |before| && before[i].clientUploadId != id ==> after[i] == before[i]
  {
    var i :| 0 <= i < |before| && before[i].clientUploadId == id;
    assert Replaced(before, id, row)[i] == row;
  }

  /** What has settled is loaded again with its slot. */
  lemma {:induction false} SettledIsLoaded(st: Storage, k: Key, m: map<string, seq<Upload>>, key: string, row: Upload)
    requires row in Slot(m, key) && !IsUploading(row)
    ensures row in Slot(ReadUploads(WriteUploads(st, k, m), k), key)
  {
    ReadWrittenUploads(st, k, m);
    SettledMember(m[key], row);
    assert Settled(m[key]) != [];
  }

  /** A settled upload takes the place of its entry, in memory and for the next load; the others stay. */
  lemma {:induction false} SettleLands(s: State, key: string, id: string, a: Attachment)
    requires HasUpload(Slot(s.uploads, key), id)
    ensures var before, t := Slot(s.uploads, key), Step(s, SettleUpload(key, id, a));
      && SettledAs(id, a) in Slot(t.uploads, key)
      && SettledAs(id, a) in Slot(ReadUploads(t.storage, KeyOf(s, AttachmentsKey)), key)
      && |Slot(t.uploads, key)| == |before|
      && forall i :: 0 <= i < |before| && before[i].clientUploadId != id ==> Slot(t.uploads, key)[i] == before[i]
  {
    var before := Slot(s.uploads, key);
    var after := Replaced(before, id, SettledAs(id, a));
    ReplacedLands(before, id, SettledAs(id, a));
    SettledIsLoaded(s.storage, KeyOf(s, AttachmentsKey), s.uploads[key := after], key, SettledAs(id, a));
  }

  // ---------------------------------------------------------------- texts

  lemma {:induction false} TrimEndFacts(s: string)
    ensures TrimEnd(s) <= s && forall i :: |TrimEnd(s)| <= i < |s| ==> IsSpace(s[i])
    ensures TrimEnd(s) != "" ==> !IsSpace(TrimEnd(s)[|TrimEnd(s)| - 1])
    decreases |s|
  {
    if s != "" && IsSpace(s[|s| - 1]) { TrimEndFacts(s[..|s| - 1]); }
  }

  /** Appending keeps the existing text up to trailing space, and ends in the new text, behind a blank line. */
  lemma {:induction false} AppendKeepsText(s: State, k: string, text: string)
    ensures var before, after := Text0(s.drafts, k), Text0(Step(s, AppendToDraft(k, text)).drafts, k);
      exists n: nat :: n <= |before| && (forall i :: n <= i < |before| ==> IsSpace(before[i]))
        && (if n == 0 then after == text else !IsSpace(before[n - 1]) && after == before[..n] + "\n\n" + text)
  {
    var before := Text0(s.drafts, k);
    TrimEndFacts(before);
    assert before[..|TrimEnd(before)|] == TrimEnd(before);
  }

  /** The same restores in the same order, a missing list of attachments read as an empty one. */
  predicate SameRestores(back: seq<Restore>, q: seq<Restore>) {
    |back| == |q| && forall i :: 0 <= i < |q| ==>
      && back[i].id == q[i].id && back[i].content == q[i].content && back[i].sessionId == q[i].sessionId
      && back[i].attachments == (if q[i].attachments.Some? then q[i].attachments else Some([]))
  }

  /** What is written comes back: the same sessions, less empty ones, each with its restores in order, nothing lost. */
  lemma {:induction false} RestoresComeBack(st: Storage, k: Key, m: map<string, seq<Restore>>, session: string)
    ensures var back := ReadRestores(WriteRestores(st, k, m), k);
      && (session in back <==> session in m && m[session] != [])
      && (session in back ==> SameRestores(back[session], m[session]))
  {
    ReadWrittenRestores(st, k, m);
    if session in m { assert |CanonicalQueue(m[session])| == |m[session]|; }
  }
}
