/** The registry of draft stores to clear (packages/core/drafts/cleanup-registry.ts). */
module DraftCleanup {
  import opened Lists
  import opened ChatStore

  /** A registered store: its base key, and whether its real keys carry a workspace slug. */
  datatype Entry = Entry(storageKey: string, workspaceScoped: bool)

  function TargetText(e: Entry, slug: string): string {
    if e.workspaceScoped then e.storageKey + ":" + slug else e.storageKey
  }

  /** The storage keys that clearing `slug` removes. */
  ghost predicate Targets(entries: map<string, Entry>, slug: string, key: string) {
    exists k :: k in entries && TargetText(entries[k], slug) == key
  }

  class Registry {
    var entries: map<string, Entry>

    constructor ()
      ensures entries == map[]
    {
      entries := map[];
    }

    method RegisterDraftCleanup(e: Entry)
      modifies this
      ensures entries == old(entries)[e.storageKey := e]
    {
      entries := entries[e.storageKey := e];
    }

    /** Removes every registered store's blob of one workspace, and every unscoped one. */
    method ClearRegisteredWorkspaceDrafts<V>(adapter: map<string, V>, slug: string) returns (left: map<string, V>)
      ensures forall key :: key in left <==> key in adapter && !Targets(entries, slug, key)
      ensures forall key :: key in left ==> left[key] == adapter[key]
    {
      left := adapter;
      var todo := entries.Keys;
      while todo != {}
        invariant todo <= entries.Keys
        invariant forall key :: key in left <==>
          key in adapter && forall k :: k in entries && k !in todo ==> TargetText(entries[k], slug) != key
        invariant forall key :: key in left ==> left[key] == adapter[key]
        decreases todo
      {
        var k :| k in todo;
        var gone := TargetText(entries[k], slug);
        left := map key | key in left && key != gone :: left[key];
        todo := todo - {k};
      }
    }
  }

  /** A workspace's key is the registered one with the slug behind a colon; a key without workspaces is the registered one. */
  lemma {:induction false} TargetsByName(entries: map<string, Entry>, slug: string, key: string)
    ensures Targets(entries, slug, key) <==> exists k :: k in entries && Names(entries[k], slug, key)
  {
    if k :| k in entries && Names(entries[k], slug, key) { assert TargetText(entries[k], slug) == key; }
  }

  ghost predicate Names(e: Entry, slug: string, key: string) {
    if e.workspaceScoped then key == e.storageKey + ":" + slug else key == e.storageKey
  }

  predicate Registers(b: Base) {
    !b.AgentKey?
  }

  const CHAT_PREFIX := "multica:chat:"

  /** A key that parts from every key of the chat store at some character. */
  ghost predicate PartsFromChat(key: string) {
    exists i :: 0 <= i < |key| && i < |CHAT_PREFIX| && key[i] != CHAT_PREFIX[i]
  }

  /**
   * The chat store has registered its four draft blobs, all kept per workspace; whatever other stores have
   * registered has other names.
   */
  ghost predicate ChatEntries(entries: map<string, Entry>) {
    && (forall b :: Registers(b) ==> BaseText(b) in entries && entries[BaseText(b)] == Entry(BaseText(b), true))
    && forall k :: k in entries ==> IsChatEntry(k, entries[k]) || PartsFromChat(entries[k].storageKey)
  }

  ghost predicate IsChatEntry(k: string, e: Entry) {
    exists b :: Registers(b) && k == BaseText(b) && e == Entry(BaseText(b), true)
  }

  /** The other stores that cleanup makes sure are registered (packages/core/drafts/register-all-drafts.ts). */
  const OTHER_STORES := ["multica_issue_draft", "multica_quick_create", "multica_comment_drafts",
    "multica_project_draft", "multica_feedback_draft", "multica:agents:manual-draft"]

  lemma {:induction false} OtherStoresPart(key: string)
    requires key in OTHER_STORES
    ensures PartsFromChat(key)
  {
    if key[7] == ':' { assert key[8] != CHAT_PREFIX[8]; } else { assert key[7] != CHAT_PREFIX[7]; }
  }

  lemma {:induction false} ChatPrefix(k: Key, i: nat)
    requires i < |CHAT_PREFIX|
    ensures i < |KeyText(k)| && KeyText(k)[i] == CHAT_PREFIX[i]
  {
    assert |BaseText(k.base)| > 13 && BaseText(k.base)[..13] == CHAT_PREFIX;
    assert KeyText(k)[i] == BaseText(k.base)[..13][i];
  }

  lemma {:induction false} PartsApart(e: Entry, slug: string, k: Key)
    requires PartsFromChat(e.storageKey)
    ensures TargetText(e, slug) != KeyText(k)
  {
    var i :| 0 <= i < |e.storageKey| && i < |CHAT_PREFIX| && e.storageKey[i] != CHAT_PREFIX[i];
    ChatPrefix(k, i);
    assert TargetText(e, slug)[i] == e.storageKey[i];
  }

  /**
   * With every store registered, clearing a workspace hits exactly the chat store's draft blobs of that
   * workspace, and no other chat key.
   */
  lemma {:induction false} ChatTargets(entries: map<string, Entry>, slug: string, k: Key)
    requires ChatEntries(entries) && slug != ""
    ensures Targets(entries, slug, KeyText(k)) <==> k.slug == slug && Registers(k.base)
  {
    if k.slug == slug && Registers(k.base) {
      assert TargetText(entries[BaseText(k.base)], slug) == KeyText(k);
    }
    if Targets(entries, slug, KeyText(k)) {
      var t :| t in entries && TargetText(entries[t], slug) == KeyText(k);
      if PartsFromChat(entries[t].storageKey) {
        PartsApart(entries[t], slug, k);
      } else {
        var b :| Registers(b) && t == BaseText(b) && entries[t] == Entry(BaseText(b), true);
        assert KeyText(Key(b, slug)) == KeyText(k);
        KeyTextInjective(Key(b, slug), k);
      }
    }
  }

  /** The registry that holds the chat store's four entries and those of the six other stores. */
  lemma {:induction false} RegisteredStores(entries: map<string, Entry>)
    requires forall b :: Registers(b) ==> BaseText(b) in entries
    requires forall k :: k in entries ==> IsChatEntry(k, entries[k]) || entries[k].storageKey in OTHER_STORES
    requires forall k :: k in entries ==> entries[k].storageKey == k
    ensures ChatEntries(entries)
  {
    forall k | k in entries ensures IsChatEntry(k, entries[k]) || PartsFromChat(entries[k].storageKey) {
      if !IsChatEntry(k, entries[k]) { OtherStoresPart(entries[k].storageKey); }
    }
    forall b | Registers(b) ensures entries[BaseText(b)] == Entry(BaseText(b), true) {
      var k := BaseText(b);
      if !IsChatEntry(k, entries[k]) {
        OtherStoresPart(k);
        var i :| 0 <= i < |k| && i < |CHAT_PREFIX| && k[i] != CHAT_PREFIX[i];
        ChatPrefix(Key(b, ""), i);
      } else {
        var c :| Registers(c) && k == BaseText(c) && entries[k] == Entry(BaseText(c), true);
      }
    }
  }
}
