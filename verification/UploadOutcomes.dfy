/** What each outcome does to the draft (packages/core/chat/store.ts, packages/views/editor/use-coordinated-uploads.ts). */
module UploadOutcomes {
  import opened Lists
  import opened DraftUploads
  import opened ChatStore
  import opened DraftSlots
  import opened DraftActions
  import opened UploadSession
  import D = DraftCleanup

  /**
   * While the draft still tracks the request, its result lands there, in memory and for the next
   * load, under the same id, and the other entries of the slot stay.
   */
  lemma {:induction false} OutcomeLands(s: Session, r: nat, a: Attachment)
    requires IsInFlight(s, r) && HasUpload(Slot(s.store.uploads, s.slots[r]), s.requests.started[r])
    ensures var key, id := s.slots[r], s.requests.started[r];
      var before, t := Slot(s.store.uploads, key), React(s, Resolved(r, a)).store;
      && SettledAs(id, a) in Slot(t.uploads, key)
      && SettledAs(id, a) in Slot(ReadUploads(t.storage, KeyOf(s.store, AttachmentsKey)), key)
      && |Slot(t.uploads, key)| == |before|
      && forall i :: 0 <= i < |before| && before[i].clientUploadId != id ==> Slot(t.uploads, key)[i] == before[i]
  {
    SettleLands(s.store, s.slots[r], s.requests.started[r], a);
  }

  /** A picked file is shown at the end of its slot as uploading, and its request runs under the same id. */
  lemma {:induction false} PickShowsPlaceholder(s: Session, e: Event)
    requires e.Pick? && !HasUpload(Slot(s.store.uploads, e.key), e.id)
    ensures var t := React(s, e);
      && Slot(t.store.uploads, e.key)
         == Slot(s.store.uploads, e.key) + [Pending(e.id, e.filename, e.size, e.contentType, Uploading, None)]
      && t.requests.started == s.requests.started + [e.id] && t.slots == s.slots + [e.key]
      && |s.requests.started| in t.requests.inFlight
  {
  }

  /** A failure that is kept marks the placeholder with its error, unless the request was aborted. */
  lemma {:induction false} FailureIsMarked(s: Session, r: nat, error: Option<string>, i: nat)
    requires IsInFlight(s, r) && r !in s.requests.aborted
    requires var list := Slot(s.store.uploads, s.slots[r]);
      && i < |list| && list[i].clientUploadId == s.requests.started[r]
      && forall j :: 0 <= j < i ==> list[j].clientUploadId != s.requests.started[r]
    ensures var u, after := Slot(s.store.uploads, s.slots[r])[i], Slot(React(s, Rejected(r, false, false, error)).store.uploads, s.slots[r]);
      i < |after| && after[i] == Pending(u.clientUploadId, u.filename, u.size, u.contentType, Failed, error)
  {
    FailureIsShown(s.store, s.slots[r], s.requests.started[r], error, i);
  }

  /** A failure leaves nothing behind when the composer drops its placeholder, unless the request was aborted. */
  lemma {:induction false} FailureLeavesNothing(s: Session, r: nat, error: Option<string>)
    requires IsInFlight(s, r)
    ensures var t := React(s, Rejected(r, false, true, error)).store;
      if r in s.requests.aborted then t == s.store
      else !HasUpload(Slot(t.uploads, s.slots[r]), s.requests.started[r])
  {
    WithoutUploadHas(Slot(s.store.uploads, s.slots[r]), s.requests.started[r]);
  }

  lemma {:induction false} WithoutUploadHas(list: seq<Upload>, id: string)
    ensures !HasUpload(WithoutUpload(list, id), id)
  {
    forall u ensures u in WithoutUpload(list, id) ==> u.clientUploadId != id { WithoutUploadMember(list, id, u); }
  }

  /** Removing a placeholder that is still uploading takes the entry away and cancels its request. */
  lemma {:induction false} DismissCancels(s: Session, key: string, id: string)
    requires UploadingAt(s, key, id)
    ensures var t := React(s, Dismiss(key, id));
      && !HasUpload(Slot(t.store.uploads, key), id)
      && (id in s.requests.controllers ==> s.requests.controllers[id] in t.requests.aborted)
      && id !in t.requests.controllers
  {
    WithoutUploadHas(Slot(s.store.uploads, key), id);
  }

  /**
   * What a logout leaves in storage is what is left when, for each workspace, everything registered and the
   * remembered agent have been removed.
   */
  lemma {:induction false} LogoutClearsRegistered(entries: map<string, D.Entry>, st: Storage, slugs: set<string>, k: Key)
    requires D.ChatEntries(entries)
    ensures k in Cleared(st, slugs) <==> k in st && forall w ::
      w in slugs && w != "" ==> !D.Targets(entries, w, KeyText(k)) && KeyText(k) != KeyText(Key(AgentKey, w))
  {
    forall w | w != ""
      ensures D.Targets(entries, w, KeyText(k)) || KeyText(k) == KeyText(Key(AgentKey, w)) <==> k.slug == w
    {
      D.ChatTargets(entries, w, k);
      if KeyText(k) == KeyText(Key(AgentKey, w)) { KeyTextInjective(k, Key(AgentKey, w)); }
      if k.slug == w && k.base.AgentKey? { assert k == Key(AgentKey, w); }
    }
  }
}
