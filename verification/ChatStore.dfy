/** The chat store's persisted slots (packages/core/chat/store.ts). */
module ChatStore {
  import opened Lists
  import opened Spaces
  import opened DraftUploads

  // ---------------------------------------------------------------- storage

  datatype Base = DraftsKey | AttachmentsKey | AppliedKey | RestoresKey | AgentKey

  /** A base key in a workspace; without a workspace (`slug == ""`) the base key is used as it is. */
  datatype Key = Key(base: Base, slug: string)

  function BaseText(b: Base): string {
    match b
    case DraftsKey => "multica:chat:drafts"
    case AttachmentsKey => "multica:chat:draft-attachments"
    case AppliedKey => "multica:chat:applied-draft-restores"
    case RestoresKey => "multica:chat:pending-send-restores"
    case AgentKey => "multica:chat:selectedAgentId"
  }

  function KeyText(k: Key): string {
    if k.slug == "" then BaseText(k.base) else BaseText(k.base) + ":" + k.slug
  }

  /** Two slots never share a storage key, whatever the workspaces are called. */
  lemma {:induction false} KeyTextInjective(j: Key, k: Key)
    ensures KeyText(j) == KeyText(k) ==> j == k
  {
    BaseTag(j);
    BaseTag(k);
    if KeyText(j) == KeyText(k) {
      assert j.base == k.base;
      if j.slug != "" && k.slug != "" {
        var n := |BaseText(j.base)|;
        assert KeyText(j)[n + 1..] == j.slug && KeyText(k)[n + 1..] == k.slug;
      }
    }
  }

  /** The keys, as they stand in the browser's storage. */
  lemma {:induction false} KeysByName(slug: string)
    ensures KeyText(Key(DraftsKey, "")) == "multica:chat:drafts"
    ensures KeyText(Key(AttachmentsKey, "")) == "multica:chat:draft-attachments"
    ensures KeyText(Key(AppliedKey, "")) == "multica:chat:applied-draft-restores"
    ensures KeyText(Key(RestoresKey, "")) == "multica:chat:pending-send-restores"
    ensures KeyText(Key(AgentKey, "")) == "multica:chat:selectedAgentId"
    ensures slug != "" ==> forall b :: KeyText(Key(b, slug)) == KeyText(Key(b, "")) + (":" + slug)
  {
    if slug != "" {
      forall b ensures KeyText(Key(b, slug)) == KeyText(Key(b, "")) + (":" + slug) {
        ConcatAssoc(BaseText(b), ":", slug);
      }
    }
  }

  /** The base can be read off two characters of the key. */
  lemma {:induction false} BaseTag(k: Key)
    ensures |KeyText(k)| > 18
    ensures KeyText(k)[13] == (match k.base case DraftsKey => 'd' case AttachmentsKey => 'd'
                                           case AppliedKey => 'a' case RestoresKey => 'p' case AgentKey => 's')
    ensures k.base.DraftsKey? ==> KeyText(k)[18] == 's'
    ensures k.base.AttachmentsKey? ==> KeyText(k)[18] == '-'
  {
    assert |BaseText(k.base)| > 18;
    assert KeyText(k)[13] == BaseText(k.base)[13] && KeyText(k)[18] == BaseText(k.base)[18];
  }

  /** A restore without a server copy. */
  datatype Restore = Restore(id: string, content: string, attachments: Option<seq<Attachment>>, sessionId: string)

  /** An element of a stored queue: a restore, or something that is none. */
  datatype RawRestore = Row(restore: Restore) | NoRestore

  /** Stored JSON, by what it parses to; `Corrupt` is whatever reads as nothing. */
  datatype Blob =
    | Text(text: string)
    | Drafts(texts: map<string, string>)
    | Uploads(lists: map<string, seq<Raw>>)
    | Applied(ids: seq<string>)
    | Restores(queues: map<string, seq<RawRestore>>)
    | Corrupt

  type Storage = map<Key, Blob>

  function Kept<V>(m: map<string, V>, keep: V -> bool): map<string, V> {
    map k | k in m && keep(m[k]) :: m[k]
  }

  predicate NonEmptyText(v: string) { v != "" }

  predicate NonEmpty<T(==)>(v: seq<T>) { v != [] }

  function ReadText(st: Storage, k: Key): Option<string> {
    if k in st && st[k].Text? then Some(st[k].text) else None
  }

  function ReadDrafts(st: Storage, k: Key): map<string, string> {
    if k in st && st[k].Drafts? then st[k].texts else map[]
  }

  function NormalizedSlots(lists: map<string, seq<Raw>>): map<string, seq<Upload>> {
    map k | k in lists :: Normalized(lists[k])
  }

  function ReadUploads(st: Storage, k: Key): map<string, seq<Upload>> {
    if k in st && st[k].Uploads? then Kept(NormalizedSlots(st[k].lists), NonEmpty<Upload>) else map[]
  }

  function ReadApplied(st: Storage, k: Key): seq<string> {
    if k in st && st[k].Applied? then st[k].ids else []
  }

  /** A restore as it is read back: a missing attachment list is an empty one. */
  function Canonical(r: Restore): Restore {
    r.(attachments := Some(if r.attachments.Some? then r.attachments.value else []))
  }

  function ReadQueue(raw: seq<RawRestore>): seq<Restore> {
    if raw == [] then []
    else
      var n := |raw| - 1;
      ReadQueue(raw[..n]) + if raw[n].Row? then [Canonical(raw[n].restore)] else []
  }

  function ReadQueues(queues: map<string, seq<RawRestore>>): map<string, seq<Restore>> {
    map k | k in queues :: ReadQueue(queues[k])
  }

  function ReadRestores(st: Storage, k: Key): map<string, seq<Restore>> {
    if k in st && st[k].Restores? then Kept(ReadQueues(st[k].queues), NonEmpty<Restore>) else map[]
  }

  function Put(st: Storage, k: Key, empty: bool, blob: Blob): Storage {
    if empty then map j | j in st && j != k :: st[j] else st[k := blob]
  }

  function WriteDrafts(st: Storage, k: Key, m: map<string, string>): Storage {
    var pruned := Kept(m, NonEmptyText);
    Put(st, k, pruned == map[], Drafts(pruned))
  }

  function StoredSlots(m: map<string, seq<Upload>>): map<string, seq<Raw>> {
    map k | k in m :: Stored(m[k])
  }

  function WriteUploads(st: Storage, k: Key, m: map<string, seq<Upload>>): Storage {
    var pruned := Kept(m, NonEmpty<Upload>);
    Put(st, k, pruned == map[], Uploads(StoredSlots(pruned)))
  }

  function WriteApplied(st: Storage, k: Key, ids: seq<string>): Storage {
    Put(st, k, ids == [], Applied(ids))
  }

  function StoredQueue(q: seq<Restore>): seq<RawRestore> {
    seq(|q|, i requires 0 <= i < |q| => Row(q[i]))
  }

  function StoredQueues(m: map<string, seq<Restore>>): map<string, seq<RawRestore>> {
    map k | k in m :: StoredQueue(m[k])
  }

  function WriteRestores(st: Storage, k: Key, m: map<string, seq<Restore>>): Storage {
    var pruned := Kept(m, NonEmpty<Restore>);
    Put(st, k, pruned == map[], Restores(StoredQueues(pruned)))
  }

  // ---------------------------------------------------------------- the legacy slots

  const NEW_SESSION := "__new__"
  const LEGACY_PREFIX := "__new__:"

  predicate IsLegacy(k: string) {
    LEGACY_PREFIX <= k
  }

  predicate HasLegacy<T>(slots: map<string, T>) {
    exists k :: k in slots && IsLegacy(k)
  }

  function AdoptedKey(agent: Option<string>): string {
    LEGACY_PREFIX + if agent.Some? then agent.value else ""
  }

  /** The legacy per-agent slots folded into the one new-chat slot, and dropped. */
  function Migrated<T>(slots: map<string, T>, agent: Option<string>): map<string, T> {
    var plain := map k | k in slots && !IsLegacy(k) :: slots[k];
    if NEW_SESSION !in slots && AdoptedKey(agent) in slots then plain[NEW_SESSION := slots[AdoptedKey(agent)]]
    else plain
  }

  // ---------------------------------------------------------------- the state and its actions

  datatype State = State(storage: Storage, slug: string, agent: Option<string>,
                         drafts: map<string, string>, uploads: map<string, seq<Upload>>,
                         applied: seq<string>, restores: map<string, seq<Restore>>)

  function KeyOf(s: State, base: Base): Key {
    Key(base, s.slug)
  }

  /** Memory rebuilt from the storage of a workspace; folding legacy slots is written back. */
  function Loaded(st: Storage, slug: string): State {
    var agent := ReadText(st, Key(AgentKey, slug));
    var texts, lists := ReadDrafts(st, Key(DraftsKey, slug)), ReadUploads(st, Key(AttachmentsKey, slug));
    var st' := FoldUploads(FoldDrafts(st, slug, agent), slug, agent);
    State(st', slug, agent, Migrated(texts, agent), Migrated(lists, agent),
          ReadApplied(st', Key(AppliedKey, slug)), ReadRestores(st', Key(RestoresKey, slug)))
  }

  function FoldDrafts(st: Storage, slug: string, agent: Option<string>): Storage {
    var texts := ReadDrafts(st, Key(DraftsKey, slug));
    if HasLegacy(texts) then WriteDrafts(st, Key(DraftsKey, slug), Migrated(texts, agent)) else st
  }

  function FoldUploads(st: Storage, slug: string, agent: Option<string>): Storage {
    var lists := ReadUploads(st, Key(AttachmentsKey, slug));
    if HasLegacy(lists) then WriteUploads(st, Key(AttachmentsKey, slug), Migrated(lists, agent)) else st
  }

  datatype Action =
    | SetDraft(key: string, text: string)
    | AppendToDraft(key: string, text: string)
    | SetUploads(key: string, list: seq<Upload>)
    | AddAttachment(key: string, attachment: Attachment)
    | AddUpload(key: string, upload: Upload)
    | SettleUpload(key: string, id: string, attachment: Attachment)
    | FailUpload(key: string, id: string, error: Option<string>)
    | RemoveUpload(key: string, id: string)
    | ClearDraft(key: string)
    | MarkApplied(id: string)
    | ForgetApplied(id: string)
    | EnqueueRestore(restore: Restore)
    | DequeueRestore(key: string, id: string)
    | SelectAgent(id: string)
    | SwitchWorkspace(slug: string)
    | Reload

  function TrimEnd(s: string): string {
    if s != "" && IsSpace(s[|s| - 1]) then TrimEnd(s[..|s| - 1]) else s
  }

  function Slot<T>(m: map<string, seq<T>>, k: string): seq<T> {
    if k in m then m[k] else []
  }

  function Text0(m: map<string, string>, k: string): string {
    if k in m then m[k] else ""
  }

  function WithDrafts(s: State, m: map<string, string>): State {
    s.(drafts := m, storage := WriteDrafts(s.storage, KeyOf(s, DraftsKey), m))
  }

  function WithUploads(s: State, m: map<string, seq<Upload>>): State {
    s.(uploads := m, storage := WriteUploads(s.storage, KeyOf(s, AttachmentsKey), m))
  }

  function WithApplied(s: State, ids: seq<string>): State {
    s.(applied := ids, storage := WriteApplied(s.storage, KeyOf(s, AppliedKey), ids))
  }

  function WithRestores(s: State, m: map<string, seq<Restore>>): State {
    s.(restores := m, storage := WriteRestores(s.storage, KeyOf(s, RestoresKey), m))
  }

  function Drop<T>(m: map<string, T>, k: string): map<string, T> {
    map j | j in m && j != k :: m[j]
  }

  function SetSlot<T(==)>(m: map<string, seq<T>>, k: string, v: seq<T>): map<string, seq<T>> {
    if v != [] then m[k := v] else Drop(m, k)
  }

  predicate HasUpload(list: seq<Upload>, id: string) {
    exists i :: 0 <= i < |list| && list[i].clientUploadId == id
  }

  function FirstUpload(list: seq<Upload>, id: string): Upload
    requires HasUpload(list, id)
  {
    if list[0].clientUploadId == id then list[0]
    else
      assert HasUpload(list[1..], id) by {
        var i :| 0 <= i < |list| && list[i].clientUploadId == id;
        assert list[1..][i - 1].clientUploadId == id;
      }
      FirstUpload(list[1..], id)
  }

  lemma {:induction false} FirstUploadHas(list: seq<Upload>, id: string)
    ensures HasUpload(list, id) ==> FirstUpload(list, id).clientUploadId == id
  {
    if list != [] && list[0].clientUploadId != id && HasUpload(list, id) {
      var i :| 0 <= i < |list| && list[i].clientUploadId == id;
      assert list[1..][i - 1].clientUploadId == id;
      FirstUploadHas(list[1..], id);
    }
  }

  /** Every entry with this id replaced. */
  function Replaced(list: seq<Upload>, id: string, other: Upload): seq<Upload> {
    seq(|list|, i requires 0 <= i < |list| => if list[i].clientUploadId == id then other else list[i])
  }

  predicate HoldsRow(u: Upload, a: Attachment) {
    u.Uploaded? && u.attachment.id == a.id
  }

  function WithRow(list: seq<Upload>, a: Attachment): seq<Upload> {
    if exists i :: 0 <= i < |list| && HoldsRow(list[i], a)
    then seq(|list|, i requires 0 <= i < |list| => if HoldsRow(list[i], a) then AttachmentToDraftUpload(a) else list[i])
    else list + [AttachmentToDraftUpload(a)]
  }

  function WithoutUpload(list: seq<Upload>, id: string): seq<Upload> {
    if list == [] then []
    else
      var n := |list| - 1;
      WithoutUpload(list[..n], id) + if list[n].clientUploadId == id then [] else [list[n]]
  }

  function WithoutId(ids: seq<string>, id: string): seq<string> {
    if ids == [] then []
    else
      var n := |ids| - 1;
      WithoutId(ids[..n], id) + if ids[n] == id then [] else [ids[n]]
  }

  function WithoutRestore(q: seq<Restore>, id: string): seq<Restore> {
    if q == [] then []
    else
      var n := |q| - 1;
      WithoutRestore(q[..n], id) + if q[n].id == id then [] else [q[n]]
  }

  predicate HasRestore(q: seq<Restore>, id: string) {
    exists i :: 0 <= i < |q| && q[i].id == id
  }

  function SettledAs(id: string, a: Attachment): Upload {
    AttachmentToDraftUpload(a).(clientUploadId := id)
  }

  function FailedAs(u: Upload, error: Option<string>): Upload {
    Pending(u.clientUploadId, u.filename, u.size, u.contentType, Failed, error)
  }

  function Step(s: State, a: Action): State {
    match a
    case SetDraft(k, text) => WithDrafts(s, s.drafts[k := text])
    case AppendToDraft(k, text) =>
      var kept := TrimEnd(Text0(s.drafts, k));
      WithDrafts(s, s.drafts[k := if kept != "" then kept + "\n\n" + text else text])
    case SetUploads(k, list) => WithUploads(s, SetSlot(s.uploads, k, list))
    case AddAttachment(k, row) =>
      if row.id == "" then s else WithUploads(s, s.uploads[k := WithRow(Slot(s.uploads, k), row)])
    case AddUpload(k, u) =>
      if HasUpload(Slot(s.uploads, k), u.clientUploadId) then s
      else WithUploads(s, s.uploads[k := Slot(s.uploads, k) + [u]])
    case SettleUpload(k, id, row) =>
      if !HasUpload(Slot(s.uploads, k), id) then s
      else WithUploads(s, s.uploads[k := Replaced(Slot(s.uploads, k), id, SettledAs(id, row))])
    case FailUpload(k, id, error) =>
      if !HasUpload(Slot(s.uploads, k), id) then s
      else
        var target := FirstUpload(Slot(s.uploads, k), id);
        WithUploads(s, s.uploads[k := Replaced(Slot(s.uploads, k), id, FailedAs(target, error))])
    case RemoveUpload(k, id) =>
      if !HasUpload(Slot(s.uploads, k), id) then s
      else WithUploads(s, SetSlot(s.uploads, k, WithoutUpload(Slot(s.uploads, k), id)))
    case ClearDraft(k) =>
      if k !in s.drafts && k !in s.uploads then s
      else WithUploads(WithDrafts(s, Drop(s.drafts, k)), Drop(s.uploads, k))
    case MarkApplied(id) => if id in s.applied then s else WithApplied(s, s.applied + [id])
    case ForgetApplied(id) => if id !in s.applied then s else WithApplied(s, WithoutId(s.applied, id))
    case EnqueueRestore(r) =>
      if r.sessionId == "" || r.id == "" || HasRestore(Slot(s.restores, r.sessionId), r.id) then s
      else WithRestores(s, s.restores[r.sessionId := Slot(s.restores, r.sessionId) + [r]])
    case DequeueRestore(k, id) =>
      if !HasRestore(Slot(s.restores, k), id) then s
      else WithRestores(s, SetSlot(s.restores, k, WithoutRestore(Slot(s.restores, k), id)))
    case SelectAgent(id) => s.(agent := Some(id), storage := s.storage[KeyOf(s, AgentKey) := Text(id)])
    case SwitchWorkspace(slug) => if slug == s.slug then s else Loaded(s.storage, slug)
    case Reload => Loaded(s.storage, s.slug)
  }

  function Run(s: State, actions: seq<Action>): State {
    if actions == [] then s else Step(Run(s, actions[..|actions| - 1]), actions[|actions| - 1])
  }

  // ---------------------------------------------------------------- memory and storage agree

  function SettledSlots(m: map<string, seq<Upload>>): map<string, seq<Upload>> {
    map k | k in m :: Settled(m[k])
  }

  /** Uploads without those in flight, and without slots that are then empty. */
  function LastingUploads(m: map<string, seq<Upload>>): map<string, seq<Upload>> {
    Kept(SettledSlots(m), NonEmpty<Upload>)
  }

  function CanonicalQueue(q: seq<Restore>): seq<Restore> {
    seq(|q|, i requires 0 <= i < |q| => Canonical(q[i]))
  }

  function CanonicalQueues(m: map<string, seq<Restore>>): map<string, seq<Restore>> {
    map k | k in m :: CanonicalQueue(m[k])
  }

  function LastingRestores(m: map<string, seq<Restore>>): map<string, seq<Restore>> {
    Kept(CanonicalQueues(m), NonEmpty<Restore>)
  }

  /** What the current workspace's storage holds is what memory holds, less empty texts and uploads in flight. */
  ghost predicate Mirrors(s: State) {
    && MirrorsAt(s, DraftsKey) && MirrorsAt(s, AttachmentsKey) && MirrorsAt(s, AppliedKey)
    && MirrorsAt(s, RestoresKey) && MirrorsAt(s, AgentKey)
  }

  ghost predicate MirrorsAt(s: State, b: Base) {
    match b
    case DraftsKey => Kept(ReadDrafts(s.storage, KeyOf(s, DraftsKey)), NonEmptyText) == Kept(s.drafts, NonEmptyText)
    case AttachmentsKey => ReadUploads(s.storage, KeyOf(s, AttachmentsKey)) == LastingUploads(s.uploads)
    case AppliedKey => ReadApplied(s.storage, KeyOf(s, AppliedKey)) == s.applied
    case RestoresKey => ReadRestores(s.storage, KeyOf(s, RestoresKey)) == LastingRestores(s.restores)
    case AgentKey => ReadText(s.storage, KeyOf(s, AgentKey)) == s.agent
  }

  lemma {:induction false} ReadWrittenUploads(st: Storage, k: Key, m: map<string, seq<Upload>>)
    ensures ReadUploads(WriteUploads(st, k, m), k) == LastingUploads(m)
  {
    var pruned := Kept(m, NonEmpty<Upload>);
    forall j | j in m ensures Normalized(Stored(m[j])) == Settled(m[j]) { LoadStored(m[j]); }
    var read := Kept(NormalizedSlots(StoredSlots(pruned)), NonEmpty<Upload>);
    assert read == LastingUploads(m);
  }

  lemma {:induction false} ReadStoredQueue(q: seq<Restore>)
    ensures ReadQueue(StoredQueue(q)) == CanonicalQueue(q)
    decreases |q|
  {
    if q != [] {
      var n := |q| - 1;
      assert StoredQueue(q)[..n] == StoredQueue(q[..n]);
      ReadStoredQueue(q[..n]);
      assert CanonicalQueue(q) == CanonicalQueue(q[..n]) + [Canonical(q[n])];
    }
  }

  lemma {:induction false} ReadWrittenRestores(st: Storage, k: Key, m: map<string, seq<Restore>>)
    ensures ReadRestores(WriteRestores(st, k, m), k) == LastingRestores(m)
  {
    var pruned := Kept(m, NonEmpty<Restore>);
    forall j | j in m ensures ReadQueue(StoredQueue(m[j])) == CanonicalQueue(m[j]) { ReadStoredQueue(m[j]); }
    assert Kept(ReadQueues(StoredQueues(pruned)), NonEmpty<Restore>) == LastingRestores(m);
  }

  lemma {:induction false} ReadIsLasting(st: Storage, k: Key)
    ensures LastingUploads(ReadUploads(st, k)) == ReadUploads(st, k)
    ensures LastingRestores(ReadRestores(st, k)) == ReadRestores(st, k)
  {
    if k in st && st[k].Uploads? {
      forall j | j in st[k].lists ensures Settled(Normalized(st[k].lists[j])) == Normalized(st[k].lists[j]) {
        NormalizedIsCanonical(st[k].lists[j]);
      }
    }
    if k in st && st[k].Restores? {
      forall j | j in st[k].queues ensures CanonicalQueue(ReadQueue(st[k].queues[j])) == ReadQueue(st[k].queues[j]) {
        ReadQueueIsCanonical(st[k].queues[j]);
      }
    }
  }

  lemma {:induction false} ReadQueueIsCanonical(raw: seq<RawRestore>)
    ensures CanonicalQueue(ReadQueue(raw)) == ReadQueue(raw)
    decreases |raw|
  {
    if raw != [] { ReadQueueIsCanonical(raw[..|raw| - 1]); }
  }

  lemma {:induction false} ReadsSame(st: Storage, st': Storage, k: Key)
    requires SameAt(st, st', k)
    ensures ReadDrafts(st, k) == ReadDrafts(st', k) && ReadUploads(st, k) == ReadUploads(st', k)
    ensures ReadApplied(st, k) == ReadApplied(st', k) && ReadRestores(st, k) == ReadRestores(st', k)
    ensures ReadText(st, k) == ReadText(st', k)
  {
  }

  lemma {:induction false} PutFrame(st: Storage, k: Key, empty: bool, blob: Blob)
    ensures SameBut(st, Put(st, k, empty, blob), k)
  {
  }

  /** Where neither the blob nor the memory changes, they still agree. */
  lemma {:induction false} MirrorsStays(s: State, t: State, b: Base)
    requires MirrorsAt(s, b) && t.slug == s.slug && SameAt(s.storage, t.storage, KeyOf(s, b))
    requires match b
      case DraftsKey => t.drafts == s.drafts case AttachmentsKey => t.uploads == s.uploads
      case AppliedKey => t.applied == s.applied case RestoresKey => t.restores == s.restores
      case AgentKey => t.agent == s.agent
    ensures MirrorsAt(t, b)
  {
    ReadsSame(s.storage, t.storage, KeyOf(s, b));
  }

  lemma {:induction false} WithDraftsMirrors(s: State, m: map<string, string>)
    requires Mirrors(s)
    ensures Mirrors(WithDrafts(s, m))
  {
    var t := WithDrafts(s, m);
    ReadWrittenDrafts(s.storage, KeyOf(s, DraftsKey), m);
    PutFrame(s.storage, KeyOf(s, DraftsKey), Kept(m, NonEmptyText) == map[], Drafts(Kept(m, NonEmptyText)));
    MirrorsStays(s, t, AttachmentsKey);
    MirrorsStays(s, t, AppliedKey);
    MirrorsStays(s, t, RestoresKey);
    MirrorsStays(s, t, AgentKey);
  }

  lemma {:induction false} ReadWrittenDrafts(st: Storage, k: Key, m: map<string, string>)
    ensures ReadDrafts(WriteDrafts(st, k, m), k) == Kept(m, NonEmptyText)
    ensures Kept(Kept(m, NonEmptyText), NonEmptyText) == Kept(m, NonEmptyText)
  {
  }

  lemma {:induction false} WithUploadsMirrors(s: State, m: map<string, seq<Upload>>)
    requires Mirrors(s)
    ensures Mirrors(WithUploads(s, m))
  {
    var t, pruned := WithUploads(s, m), Kept(m, NonEmpty<Upload>);
    ReadWrittenUploads(s.storage, KeyOf(s, AttachmentsKey), m);
    PutFrame(s.storage, KeyOf(s, AttachmentsKey), pruned == map[], Uploads(StoredSlots(pruned)));
    MirrorsStays(s, t, DraftsKey);
    MirrorsStays(s, t, AppliedKey);
    MirrorsStays(s, t, RestoresKey);
    MirrorsStays(s, t, AgentKey);
  }

  lemma {:induction false} WithRestoresMirrors(s: State, m: map<string, seq<Restore>>)
    requires Mirrors(s)
    ensures Mirrors(WithRestores(s, m))
  {
    var t, pruned := WithRestores(s, m), Kept(m, NonEmpty<Restore>);
    ReadWrittenRestores(s.storage, KeyOf(s, RestoresKey), m);
    PutFrame(s.storage, KeyOf(s, RestoresKey), pruned == map[], Restores(StoredQueues(pruned)));
    MirrorsStays(s, t, DraftsKey);
    MirrorsStays(s, t, AttachmentsKey);
    MirrorsStays(s, t, AppliedKey);
    MirrorsStays(s, t, AgentKey);
  }

  lemma {:induction false} WithAppliedMirrors(s: State, ids: seq<string>)
    requires Mirrors(s)
    ensures Mirrors(WithApplied(s, ids))
  {
    var t := WithApplied(s, ids);
    PutFrame(s.storage, KeyOf(s, AppliedKey), ids == [], Applied(ids));
    MirrorsStays(s, t, DraftsKey);
    MirrorsStays(s, t, AttachmentsKey);
    MirrorsStays(s, t, RestoresKey);
    MirrorsStays(s, t, AgentKey);
  }

  lemma {:induction false} FoldDraftsFacts(st: Storage, slug: string, agent: Option<string>)
    ensures var k := Key(DraftsKey, slug);
      && Kept(ReadDrafts(FoldDrafts(st, slug, agent), k), NonEmptyText)
         == Kept(Migrated(ReadDrafts(st, k), agent), NonEmptyText)
      && !HasLegacy(ReadDrafts(FoldDrafts(st, slug, agent), k))
      && SameBut(st, FoldDrafts(st, slug, agent), k)
  {
    var k := Key(DraftsKey, slug);
    var texts := ReadDrafts(st, k);
    MigratedFolds(texts, agent);
    if !HasLegacy(texts) { MigratedKeeps(texts, agent); }
  }

  lemma {:induction false} FoldUploadsFacts(st: Storage, slug: string, agent: Option<string>)
    ensures ReadUploads(FoldUploads(st, slug, agent), Key(AttachmentsKey, slug))
         == Migrated(ReadUploads(st, Key(AttachmentsKey, slug)), agent)
    ensures LastingUploads(Migrated(ReadUploads(st, Key(AttachmentsKey, slug)), agent))
         == Migrated(ReadUploads(st, Key(AttachmentsKey, slug)), agent)
  {
    var k := Key(AttachmentsKey, slug);
    var lists := ReadUploads(st, k);
    assert LastingUploads(Migrated(lists, agent)) == Migrated(lists, agent) by {
      ReadIsLasting(st, k);
    }
    if HasLegacy(lists) {
      ReadWrittenUploads(st, k, Migrated(lists, agent));
    } else {
      MigratedKeeps(lists, agent);
    }
  }

  lemma {:induction false} FoldUploadsFrame(st: Storage, slug: string, agent: Option<string>)
    ensures SameBut(st, FoldUploads(st, slug, agent), Key(AttachmentsKey, slug))
  {
  }

  /** Only the blob at `k` may differ. */
  ghost predicate SameBut(st: Storage, st': Storage, k: Key) {
    forall j :: j != k ==> SameAt(st, st', j)
  }

  ghost predicate SameAt(st: Storage, st': Storage, j: Key) {
    (j in st <==> j in st') && (j in st ==> st[j] == st'[j])
  }

  lemma {:induction false} LoadedMirrors(st: Storage, slug: string)
    ensures Mirrors(Loaded(st, slug))
  {
    var agent := ReadText(st, Key(AgentKey, slug));
    var st1 := FoldDrafts(st, slug, agent);
    var st2 := FoldUploads(st1, slug, agent);
    FoldDraftsFacts(st, slug, agent);
    FoldUploadsFacts(st1, slug, agent);
    FoldUploadsFrame(st1, slug, agent);
    assert SameAt(st, st1, Key(AttachmentsKey, slug)) && SameAt(st1, st2, Key(DraftsKey, slug));
    assert SameAt(st, st1, Key(AgentKey, slug)) && SameAt(st1, st2, Key(AgentKey, slug));
    ReadIsLasting(st2, Key(RestoresKey, slug));
  }

  /** Folding changes nothing once no legacy slot is left. */
  lemma {:induction false} MigratedKeeps<T>(slots: map<string, T>, agent: Option<string>)
    requires !HasLegacy(slots)
    ensures Migrated(slots, agent) == slots
  {
    assert IsLegacy(AdoptedKey(agent));
  }

  predicate OnUploads(a: Action) {
    a.SetUploads? || a.AddAttachment? || a.AddUpload? || a.SettleUpload? || a.FailUpload? || a.RemoveUpload?
  }

  lemma {:induction false} UploadStep(s: State, a: Action)
    requires OnUploads(a)
    ensures Step(s, a) == s || Step(s, a) == WithUploads(s, Step(s, a).uploads)
  {
  }

  lemma {:induction false} AppliedStep(s: State, a: Action)
    requires a.MarkApplied? || a.ForgetApplied?
    ensures Step(s, a) == s || Step(s, a) == WithApplied(s, Step(s, a).applied)
  {
  }

  lemma {:induction false} RestoreStep(s: State, a: Action)
    requires a.EnqueueRestore? || a.DequeueRestore?
    ensures Step(s, a) == s || Step(s, a) == WithRestores(s, Step(s, a).restores)
  {
  }

  lemma {:induction false} DraftStep(s: State, a: Action)
    requires a.SetDraft? || a.AppendToDraft?
    ensures Step(s, a) == WithDrafts(s, Step(s, a).drafts)
  {
  }

  lemma {:induction false} ClearStep(s: State, k: string)
    ensures Step(s, ClearDraft(k)) == s
         || Step(s, ClearDraft(k)) == WithUploads(WithDrafts(s, Drop(s.drafts, k)), Drop(s.uploads, k))
  {
  }

  lemma {:induction false} LoadStep(s: State, a: Action)
    requires a.SwitchWorkspace? || a.Reload?
    ensures Step(s, a) == s || Step(s, a) == Loaded(s.storage, Step(s, a).slug)
  {
  }

  lemma {:induction false} StepMirrors(s: State, a: Action)
    requires Mirrors(s)
    ensures Mirrors(Step(s, a))
  {
    var t := Step(s, a);
    if OnUploads(a) {
      UploadStep(s, a);
      WithUploadsMirrors(s, t.uploads);
    } else if a.SetDraft? || a.AppendToDraft? {
      DraftStep(s, a);
      WithDraftsMirrors(s, t.drafts);
    } else if a.EnqueueRestore? || a.DequeueRestore? {
      RestoreStep(s, a);
      WithRestoresMirrors(s, t.restores);
    } else if a.MarkApplied? || a.ForgetApplied? {
      AppliedStep(s, a);
      WithAppliedMirrors(s, t.applied);
    } else if a.ClearDraft? {
      ClearMirrors(s, a.key);
    } else if a.SelectAgent? {
      SelectMirrors(s, a.id);
    } else {
      LoadStep(s, a);
      LoadedMirrors(s.storage, t.slug);
    }
  }

  lemma {:induction false} ClearMirrors(s: State, k: string)
    requires Mirrors(s)
    ensures Mirrors(Step(s, ClearDraft(k)))
  {
    ClearStep(s, k);
    WithDraftsMirrors(s, Drop(s.drafts, k));
    WithUploadsMirrors(WithDrafts(s, Drop(s.drafts, k)), Drop(s.uploads, k));
  }

  lemma {:induction false} SelectMirrors(s: State, id: string)
    requires Mirrors(s)
    ensures Mirrors(Step(s, SelectAgent(id)))
  {
    var t := Step(s, SelectAgent(id));
    PutFrame(s.storage, KeyOf(s, AgentKey), false, Text(id));
    MirrorsStays(s, t, DraftsKey);
    MirrorsStays(s, t, AttachmentsKey);
    MirrorsStays(s, t, AppliedKey);
    MirrorsStays(s, t, RestoresKey);
  }

  /** After any run from any loaded state, memory and storage agree. */
  lemma {:induction false} RunMirrors(st: Storage, slug: string, actions: seq<Action>)
    ensures Mirrors(Run(Loaded(st, slug), actions))
    decreases |actions|
  {
    LoadedMirrors(st, slug);
    if actions != [] {
      RunMirrors(st, slug, actions[..|actions| - 1]);
      StepMirrors(Run(Loaded(st, slug), actions[..|actions| - 1]), actions[|actions| - 1]);
    }
  }

  // ---------------------------------------------------------------- folding legacy slots

  /** No legacy slot is left; the unified slot keeps what it had, or adopts the selected agent's; all else stays. */
  lemma {:induction false} MigratedFolds<T>(slots: map<string, T>, agent: Option<string>)
    ensures var m := Migrated(slots, agent);
      && !HasLegacy(m)
      && (forall k :: !IsLegacy(k) && k != NEW_SESSION ==> (k in m <==> k in slots) && (k in m ==> m[k] == slots[k]))
      && (NEW_SESSION in slots ==> NEW_SESSION in m && m[NEW_SESSION] == slots[NEW_SESSION])
      && (NEW_SESSION !in slots && AdoptedKey(agent) in slots ==>
            NEW_SESSION in m && m[NEW_SESSION] == slots[AdoptedKey(agent)])
      && (NEW_SESSION !in slots && AdoptedKey(agent) !in slots ==> NEW_SESSION !in m)
      && Migrated(m, agent) == m
  {
    assert !IsLegacy(NEW_SESSION);
    MigratedKeeps(Migrated(slots, agent), agent);
  }

  /** The slots by name: those of earlier builds are `__new__:` and an agent's id, or nothing if none is selected. */
  lemma {:induction false} LegacySlotsByName(texts: map<string, string>, agent: Option<string>, k: string)
    ensures var m := Migrated(texts, agent);
      var legacy := "__new__:" + if agent.Some? then agent.value else "";
      && ("__new__:" <= k ==> k !in m)
      && (!("__new__:" <= k) && k != "__new__" ==> (k in m <==> k in texts) && (k in m ==> m[k] == texts[k]))
      && ("__new__" in m <==> "__new__" in texts || legacy in texts)
      && ("__new__" in m ==> m["__new__"] == if "__new__" in texts then texts["__new__"] else texts[legacy])
  {
    MigratedFolds(texts, agent);
    assert IsLegacy(k) <==> "__new__:" <= k;
  }

  lemma {:induction false} LoadedHasNoLegacy(st: Storage, slug: string)
    ensures !HasLegacy(Loaded(st, slug).drafts) && !HasLegacy(Loaded(st, slug).uploads)
  {
    var agent := ReadText(st, Key(AgentKey, slug));
    MigratedFolds(ReadDrafts(st, Key(DraftsKey, slug)), agent);
    MigratedFolds(ReadUploads(st, Key(AttachmentsKey, slug)), agent);
  }

  /** Each slot holding its own name. */
  function Named<T>(slots: map<string, T>): map<string, string> {
    map k | k in slots :: k
  }

  /** The slot from which folding takes the new-chat slot, followed by folding the slots' names. */
  function Origin<T>(slots: map<string, T>, agent: Option<string>): Option<string> {
    var m := Migrated(Named(slots), agent);
    if NEW_SESSION in m then Some(m[NEW_SESSION]) else None
  }

  lemma {:induction false} OriginIs<T>(slots: map<string, T>, agent: Option<string>)
    ensures NEW_SESSION in Migrated(slots, agent) <==> Origin(slots, agent).Some?
    ensures Origin(slots, agent).Some? ==>
      var k := Origin(slots, agent).value; k in slots && Migrated(slots, agent)[NEW_SESSION] == slots[k]
    ensures Origin(slots, agent) == (if NEW_SESSION in slots then Some(NEW_SESSION)
                                     else if AdoptedKey(agent) in slots then Some(AdoptedKey(agent)) else None)
  {
    MigratedFolds(slots, agent);
    MigratedFolds(Named(slots), agent);
  }

  /** One of text and uploads has a unified slot and the other only the selected agent's legacy one. */
  predicate HalfUnified(st: Storage, slug: string) {
    var agent := ReadText(st, Key(AgentKey, slug));
    var texts, lists := ReadDrafts(st, Key(DraftsKey, slug)), ReadUploads(st, Key(AttachmentsKey, slug));
    || (NEW_SESSION in texts && NEW_SESSION !in lists && AdoptedKey(agent) in lists)
    || (NEW_SESSION in lists && NEW_SESSION !in texts && AdoptedKey(agent) in texts)
  }

  /**
   * The text and the uploads that meet in the new-chat slot come from different drafts exactly if only one of
   * them had been unified. They never come from two agents.
   */
  lemma {:induction false} OriginsDifferIff(st: Storage, slug: string)
    ensures var agent := ReadText(st, Key(AgentKey, slug));
      var texts, lists := ReadDrafts(st, Key(DraftsKey, slug)), ReadUploads(st, Key(AttachmentsKey, slug));
      var s, from, with := Loaded(st, slug), Origin(texts, agent), Origin(lists, agent);
      && (NEW_SESSION in s.drafts <==> from.Some?) && (NEW_SESSION in s.uploads <==> with.Some?)
      && (from.Some? ==> from.value in texts && s.drafts[NEW_SESSION] == texts[from.value])
      && (with.Some? ==> with.value in lists && s.uploads[NEW_SESSION] == lists[with.value])
      && (from.Some? && with.Some? && from != with <==> HalfUnified(st, slug))
      && (from.Some? && with.Some? && IsLegacy(from.value) && IsLegacy(with.value) ==> from == with)
  {
    var agent := ReadText(st, Key(AgentKey, slug));
    OriginIs(ReadDrafts(st, Key(DraftsKey, slug)), agent);
    OriginIs(ReadUploads(st, Key(AttachmentsKey, slug)), agent);
    assert |AdoptedKey(agent)| > |NEW_SESSION|;
  }

  /** A text typed since the slots were unified is shown with the files of an old per-agent draft. */
  lemma {:induction false} UnifiedTextMeetsOldFiles(agent: string, mine: string, stale: string, file: Upload)
    requires !IsUploading(file)
    ensures var legacy := AdoptedKey(Some(agent));
      var st: Storage := map[Key(AgentKey, "") := Text(agent),
                             Key(DraftsKey, "") := Drafts(map[NEW_SESSION := mine, legacy := stale]),
                             Key(AttachmentsKey, "") := Uploads(map[legacy := [Shaped(file)]])];
      Loaded(st, "").drafts == map[NEW_SESSION := mine] && Loaded(st, "").uploads == map[NEW_SESSION := [file]]
  {
    var legacy := AdoptedKey(Some(agent));
    var texts, lists: map<string, seq<Raw>> := map[NEW_SESSION := mine, legacy := stale], map[legacy := [Shaped(file)]];
    assert |legacy| > |NEW_SESSION| && IsLegacy(legacy) && !IsLegacy(NEW_SESSION);
    assert [Shaped(file)][..0] == [];
    assert Normalized([Shaped(file)]) == [file];
    assert Kept(NormalizedSlots(lists), NonEmpty<Upload>) == map[legacy := [file]];
    assert Migrated(texts, Some(agent)) == map[NEW_SESSION := mine];
    assert Migrated(map[legacy := [file]], Some(agent)) == map[NEW_SESSION := [file]];
  }

  // ---------------------------------------------------------------- a reload

  /** The action does not create a legacy slot. */
  predicate Modern(a: Action) {
    match a
    case SetDraft(k, _) => !IsLegacy(k)
    case AppendToDraft(k, _) => !IsLegacy(k)
    case SetUploads(k, _) => !IsLegacy(k)
    case AddAttachment(k, _) => !IsLegacy(k)
    case AddUpload(k, _) => !IsLegacy(k)
    case _ => true
  }

  lemma {:induction false} StepStaysModern(s: State, a: Action)
    requires !HasLegacy(s.drafts) && !HasLegacy(s.uploads) && Modern(a)
    ensures !HasLegacy(Step(s, a).drafts) && !HasLegacy(Step(s, a).uploads)
  {
    match a
    case SwitchWorkspace(slug) => LoadedHasNoLegacy(s.storage, slug);
    case Reload => LoadedHasNoLegacy(s.storage, s.slug);
    case _ =>
  }

  lemma {:induction false} RunStaysModern(st: Storage, slug: string, actions: seq<Action>)
    requires forall i :: 0 <= i < |actions| ==> Modern(actions[i])
    ensures var s := Run(Loaded(st, slug), actions); !HasLegacy(s.drafts) && !HasLegacy(s.uploads)
    decreases |actions|
  {
    LoadedHasNoLegacy(st, slug);
    if actions != [] {
      RunStaysModern(st, slug, actions[..|actions| - 1]);
      StepStaysModern(Run(Loaded(st, slug), actions[..|actions| - 1]), actions[|actions| - 1]);
    }
  }

  /** The same texts, less empty ones; the same uploads, less those in flight; the same ledger, queues and agent. */
  ghost predicate SameDrafts(s: State, t: State) {
    && Kept(s.drafts, NonEmptyText) == Kept(t.drafts, NonEmptyText)
    && LastingUploads(s.uploads) == t.uploads
    && s.applied == t.applied
    && LastingRestores(s.restores) == t.restores
    && s.agent == t.agent
  }

  /** Reloading after any run rebuilds the memory of that run; a second reload writes nothing and rebuilds it again. */
  lemma {:induction false} ReloadRebuilds(st: Storage, slug: string, actions: seq<Action>)
    requires forall i :: 0 <= i < |actions| ==> Modern(actions[i])
    ensures var s := Run(Loaded(st, slug), actions);
      && SameDrafts(s, Step(s, Reload))
      && Step(Step(s, Reload), Reload).storage == Step(s, Reload).storage
      && SameDrafts(Step(s, Reload), Step(Step(s, Reload), Reload))
  {
    RunMirrors(st, slug, actions);
    RunStaysModern(st, slug, actions);
    ReloadTwice(Run(Loaded(st, slug), actions));
  }

  lemma {:induction false} ReloadTwice(s: State)
    requires Mirrors(s) && !HasLegacy(s.drafts) && !HasLegacy(s.uploads)
    ensures SameDrafts(s, Step(s, Reload))
    ensures Step(Step(s, Reload), Reload).storage == Step(s, Reload).storage
    ensures SameDrafts(Step(s, Reload), Step(Step(s, Reload), Reload))
  {
    ReloadOf(s);
    LoadIsIdempotent(s.storage, s.slug);
  }

  lemma {:induction false} ReloadOf(s: State)
    requires Mirrors(s) && !HasLegacy(s.drafts) && !HasLegacy(s.uploads)
    ensures SameDrafts(s, Loaded(s.storage, s.slug))
  {
    var agent := ReadText(s.storage, KeyOf(s, AgentKey));
    LastingIsModern(s.uploads);
    MigratedKeeps(ReadUploads(s.storage, KeyOf(s, AttachmentsKey)), agent);
    MigratedText(ReadDrafts(s.storage, KeyOf(s, DraftsKey)), s.drafts, agent);
    LoadReadsOthers(s.storage, s.slug);
  }

  lemma {:induction false} LastingIsModern(uploads: map<string, seq<Upload>>)
    requires !HasLegacy(uploads)
    ensures !HasLegacy(LastingUploads(uploads))
  {
  }

  /** Folding leaves the ledger and the queues alone. */
  lemma {:induction false} LoadReadsOthers(st: Storage, slug: string)
    ensures Loaded(st, slug).applied == ReadApplied(st, Key(AppliedKey, slug))
    ensures Loaded(st, slug).restores == ReadRestores(st, Key(RestoresKey, slug))
  {
    var agent := ReadText(st, Key(AgentKey, slug));
    var st1 := FoldDrafts(st, slug, agent);
    var st2 := FoldUploads(st1, slug, agent);
    FoldDraftsFacts(st, slug, agent);
    FoldUploadsFrame(st1, slug, agent);
    FoldsRead(st, st1, st2, Key(AppliedKey, slug));
    FoldsRead(st, st1, st2, Key(RestoresKey, slug));
  }

  lemma {:induction false} FoldsRead(st: Storage, st1: Storage, st2: Storage, k: Key)
    requires SameAt(st, st1, k) && SameAt(st1, st2, k)
    ensures ReadApplied(st2, k) == ReadApplied(st, k) && ReadRestores(st2, k) == ReadRestores(st, k)
  {
    ReadsSame(st, st2, k);
  }

  /** Legacy slots that hold no text cannot be adopted as text. */
  lemma {:induction false} MigratedText(texts: map<string, string>, drafts: map<string, string>, agent: Option<string>)
    requires Kept(texts, NonEmptyText) == Kept(drafts, NonEmptyText) && !HasLegacy(drafts)
    ensures Kept(Migrated(texts, agent), NonEmptyText) == Kept(drafts, NonEmptyText)
  {
    var m := Migrated(texts, agent);
    MigratedFolds(texts, agent);
    forall k | k in texts && IsLegacy(k) ensures texts[k] == "" { assert k !in Kept(drafts, NonEmptyText); }
    assert IsLegacy(AdoptedKey(agent)) && !IsLegacy(NEW_SESSION);
    assert forall k :: k in Kept(m, NonEmptyText) <==> k in Kept(texts, NonEmptyText);
    assert forall k :: k in Kept(m, NonEmptyText) ==> m[k] == texts[k];
  }

  /**
   * Loading a second time writes nothing and gives the same drafts. Memory is the very same if no stored text
   * was empty, which holds of every blob the store wrote itself.
   */
  lemma {:induction false} LoadIsIdempotent(st: Storage, slug: string)
    ensures var s := Loaded(st, slug); var t := Loaded(s.storage, slug);
      && t.storage == s.storage && SameDrafts(s, t)
      && (Kept(ReadDrafts(st, Key(DraftsKey, slug)), NonEmptyText) == ReadDrafts(st, Key(DraftsKey, slug)) ==> t == s)
  {
    var s := Loaded(st, slug);
    var texts := ReadDrafts(st, Key(DraftsKey, slug));
    LoadedMirrors(st, slug);
    LoadedHasNoLegacy(st, slug);
    LoadedPieces(st, slug);
    ReloadOf(s);
    MigratedKeeps(ReadDrafts(s.storage, KeyOf(s, DraftsKey)), s.agent);
    MigratedKeeps(ReadUploads(s.storage, KeyOf(s, AttachmentsKey)), s.agent);
    if Kept(texts, NonEmptyText) == texts { MigratedKeepsText(texts, s.agent); }
  }

  lemma {:induction false} MigratedKeepsText(texts: map<string, string>, agent: Option<string>)
    requires Kept(texts, NonEmptyText) == texts
    ensures Kept(Migrated(texts, agent), NonEmptyText) == Migrated(texts, agent)
  {
    forall k | k in texts ensures texts[k] != "" { assert k in Kept(texts, NonEmptyText); }
  }

  lemma {:induction false} LoadedPieces(st: Storage, slug: string)
    ensures var s := Loaded(st, slug);
      && !HasLegacy(ReadDrafts(s.storage, KeyOf(s, DraftsKey)))
      && (ReadDrafts(s.storage, KeyOf(s, DraftsKey)) == s.drafts
          || ReadDrafts(s.storage, KeyOf(s, DraftsKey)) == Kept(s.drafts, NonEmptyText))
      && ReadUploads(s.storage, KeyOf(s, AttachmentsKey)) == s.uploads
      && ReadText(s.storage, KeyOf(s, AgentKey)) == s.agent
  {
    var agent := ReadText(st, Key(AgentKey, slug));
    var st1 := FoldDrafts(st, slug, agent);
    var st2 := FoldUploads(st1, slug, agent);
    FoldDraftsFacts(st, slug, agent);
    FoldUploadsFacts(st1, slug, agent);
    FoldUploadsFrame(st1, slug, agent);
    assert SameAt(st, st1, Key(AttachmentsKey, slug)) && SameAt(st1, st2, Key(DraftsKey, slug));
    assert SameAt(st, st1, Key(AgentKey, slug)) && SameAt(st1, st2, Key(AgentKey, slug));
    var texts := ReadDrafts(st, Key(DraftsKey, slug));
    if !HasLegacy(texts) { MigratedKeeps(texts, agent); }
  }

  // ---------------------------------------------------------------- other workspaces

  /** Every stored slot of another workspace is the same in both. */
  ghost predicate OthersSame(st: Storage, st': Storage, slug: string) {
    forall j: Key :: j.slug != slug ==> SameAt(st, st', j)
  }

  lemma {:induction false} PutLeavesOthers(st: Storage, k: Key, empty: bool, blob: Blob)
    ensures OthersSame(st, Put(st, k, empty, blob), k.slug)
  {
  }

  lemma {:induction false} OthersChain(a: Storage, b: Storage, c: Storage, slug: string)
    requires OthersSame(a, b, slug) && OthersSame(b, c, slug)
    ensures OthersSame(a, c, slug)
  {
    forall j: Key | j.slug != slug ensures SameAt(a, c, j) { assert SameAt(a, b, j) && SameAt(b, c, j); }
  }

  lemma {:induction false} WritesLeaveOthers(st: Storage, slug: string, d: map<string, string>, u: map<string, seq<Upload>>,
                                             ids: seq<string>, q: map<string, seq<Restore>>)
    ensures OthersSame(st, WriteDrafts(st, Key(DraftsKey, slug), d), slug)
    ensures OthersSame(st, WriteUploads(st, Key(AttachmentsKey, slug), u), slug)
    ensures OthersSame(st, WriteApplied(st, Key(AppliedKey, slug), ids), slug)
    ensures OthersSame(st, WriteRestores(st, Key(RestoresKey, slug), q), slug)
  {
    PutLeavesOthers(st, Key(DraftsKey, slug), Kept(d, NonEmptyText) == map[], Drafts(Kept(d, NonEmptyText)));
    PutLeavesOthers(st, Key(AttachmentsKey, slug), Kept(u, NonEmpty<Upload>) == map[],
                    Uploads(StoredSlots(Kept(u, NonEmpty<Upload>))));
    PutLeavesOthers(st, Key(AppliedKey, slug), ids == [], Applied(ids));
    PutLeavesOthers(st, Key(RestoresKey, slug), Kept(q, NonEmpty<Restore>) == map[],
                    Restores(StoredQueues(Kept(q, NonEmpty<Restore>))));
  }

  lemma {:induction false} LoadLeavesOthers(st: Storage, slug: string)
    ensures OthersSame(st, Loaded(st, slug).storage, slug)
  {
    var agent := ReadText(st, Key(AgentKey, slug));
    var st1 := FoldDrafts(st, slug, agent);
    FoldDraftsFacts(st, slug, agent);
    FoldUploadsFrame(st1, slug, agent);
    assert OthersSame(st, st1, slug) && OthersSame(st1, FoldUploads(st1, slug, agent), slug);
    OthersChain(st, st1, FoldUploads(st1, slug, agent), slug);
  }

  /** An action, or loading a workspace, writes nothing that belongs to another one. */
  lemma {:induction false} OthersUntouched(s: State, a: Action)
    ensures OthersSame(s.storage, Step(s, a).storage, Step(s, a).slug)
  {
    var t := Step(s, a);
    WritesLeaveOthers(s.storage, s.slug, t.drafts, t.uploads, t.applied, t.restores);
    if OnUploads(a) {
      UploadStep(s, a);
    } else if a.SetDraft? || a.AppendToDraft? {
      DraftStep(s, a);
    } else if a.EnqueueRestore? || a.DequeueRestore? {
      RestoreStep(s, a);
    } else if a.MarkApplied? || a.ForgetApplied? {
      AppliedStep(s, a);
    } else if a.ClearDraft? {
      ClearLeavesOthers(s, a.key);
    } else if a.SelectAgent? {
      PutLeavesOthers(s.storage, KeyOf(s, AgentKey), false, Text(a.id));
    } else {
      LoadStep(s, a);
      LoadLeavesOthers(s.storage, t.slug);
    }
  }

  lemma {:induction false} ClearLeavesOthers(s: State, k: string)
    ensures OthersSame(s.storage, Step(s, ClearDraft(k)).storage, s.slug)
  {
    var s1 := WithDrafts(s, Drop(s.drafts, k));
    var s2 := WithUploads(s1, Drop(s.uploads, k));
    ClearStep(s, k);
    WritesLeaveOthers(s.storage, s.slug, s1.drafts, s.uploads, s.applied, s.restores);
    WritesLeaveOthers(s1.storage, s.slug, s1.drafts, s2.uploads, s.applied, s.restores);
    OthersChain(s.storage, s1.storage, s2.storage, s.slug);
  }

  /** A run inside one workspace leaves every other workspace's slots as they were. */
  lemma {:induction false} RunLeavesOthers(s: State, actions: seq<Action>)
    requires forall i :: 0 <= i < |actions| ==> !actions[i].SwitchWorkspace?
    ensures Run(s, actions).slug == s.slug && OthersSame(s.storage, Run(s, actions).storage, s.slug)
    decreases |actions|
  {
    if actions != [] {
      var t, a := Run(s, actions[..|actions| - 1]), actions[|actions| - 1];
      RunLeavesOthers(s, actions[..|actions| - 1]);
      OthersUntouched(t, a);
      StaysInWorkspace(t, a);
      OthersChain(s.storage, t.storage, Step(t, a).storage, s.slug);
    }
  }

  lemma {:induction false} StaysInWorkspace(s: State, a: Action)
    ensures Step(s, a).slug == if a.SwitchWorkspace? then a.slug else s.slug
  {
  }
}
