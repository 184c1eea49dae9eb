/** Reply threads folded into rows (apps/mobile/lib/timeline-thread.ts). */
module TimelineThread {
  import opened Lists

  datatype Kind = Activity | Comment

  /** `parentId` is absent, null or a string; the empty string counts as absent, as it does in the source. */
  datatype Entry = Entry(kind: Kind, id: string, parentId: Option<string>, createdAt: string, content: string)

  datatype Row = Row(entry: Entry, replies: seq<Entry>)

  function CommentIds(entries: seq<Entry>): set<string> {
    set e | e in entries && e.kind.Comment? :: e.id
  }

  /** A comment whose parent is a loaded comment. Everything else is top level, orphaned replies included. */
  predicate IsReply(entries: seq<Entry>, e: Entry) {
    e.kind.Comment? && e.parentId.Some? && e.parentId.value != "" && e.parentId.value in CommentIds(entries)
  }

  ghost predicate UniqueCommentIds(entries: seq<Entry>) {
    forall i, j :: 0 <= i < j < |entries| && entries[i].kind.Comment? && entries[j].kind.Comment?
      ==> entries[i].id != entries[j].id
  }

  predicate IsKid(entries: seq<Entry>, e: Entry, id: string) {
    IsReply(entries, e) && e.parentId.value == id
  }

  /** The direct replies to `id` among `s`, in the order of `s`. */
  function Kids(entries: seq<Entry>, s: seq<Entry>, id: string): seq<Entry> {
    if s == [] then []
    else
      var n := |s| - 1;
      Kids(entries, s[..n], id) + if IsKid(entries, s[n], id) then [s[n]] else []
  }

  function TopLevel(entries: seq<Entry>, s: seq<Entry>): seq<Entry> {
    if s == [] then []
    else
      var n := |s| - 1;
      TopLevel(entries, s[..n]) + if IsReply(entries, s[n]) then [] else [s[n]]
  }

  function Ids(s: seq<Entry>): seq<string> {
    seq(|s|, i requires 0 <= i < |s| => s[i].id)
  }

  function ConcatKids(entries: seq<Entry>, ids: seq<string>): seq<Entry> {
    if ids == [] then []
    else ConcatKids(entries, ids[..|ids| - 1]) + Kids(entries, entries, ids[|ids| - 1])
  }

  // ---------------------------------------------------------------- the search, turn by turn

  function KidIds(entries: seq<Entry>, id: string): seq<string> {
    Ids(Kids(entries, entries, id))
  }

  /** The queue of the search after `n` turns of its loop, from the queue it starts with. */
  ghost function QueueAfter(entries: seq<Entry>, queue: seq<string>, n: nat): seq<string>
    decreases n
  {
    if n == 0 || queue == [] then queue
    else QueueAfter(entries, queue[1..] + KidIds(entries, queue[0]), n - 1)
  }

  /** The entries listed in these turns. */
  ghost function ListedAfter(entries: seq<Entry>, queue: seq<string>, n: nat): seq<Entry>
    decreases n
  {
    if n == 0 || queue == [] then []
    else Kids(entries, entries, queue[0]) + ListedAfter(entries, queue[1..] + KidIds(entries, queue[0]), n - 1)
  }

  ghost predicate EndsAfter(entries: seq<Entry>, queue: seq<string>, n: nat) {
    QueueAfter(entries, queue, n) == []
  }

  ghost predicate Ends(entries: seq<Entry>, queue: seq<string>) {
    exists n: nat :: EndsAfter(entries, queue, n)
  }

  // ---------------------------------------------------------------- ancestry

  /** The loaded comment with this id. */
  function Find(entries: seq<Entry>, id: string): Entry
    requires id in CommentIds(entries)
  {
    if entries[0].kind.Comment? && entries[0].id == id then entries[0] else Find(entries[1..], id)
  }

  function Parent(entries: seq<Entry>, e: Entry): Option<Entry> {
    if IsReply(entries, e) then Some(Find(entries, e.parentId.value)) else None
  }

  /** The entry reached by following `k` parent links. */
  function Ancestor(entries: seq<Entry>, e: Entry, k: nat): Option<Entry>
    decreases k
  {
    if k == 0 then Some(e)
    else match Parent(entries, e)
      case None => None
      case Some(p) => Ancestor(entries, p, k - 1)
  }

  /** `e` is a reply, direct or indirect, to `root`, at distance `depth`. */
  ghost predicate RepliesTo(entries: seq<Entry>, e: Entry, root: Entry, depth: nat) {
    depth > 0 && Ancestor(entries, e, depth) == Some(root)
  }

  /** No comment is a reply to itself, however indirectly. */
  ghost predicate Acyclic(entries: seq<Entry>) {
    forall e, k: nat :: e in entries ==> !RepliesTo(entries, e, e, k)
  }

  /** A thread root: a comment that starts a row. */
  ghost predicate IsRoot(entries: seq<Entry>, e: Entry) {
    e in entries && e.kind.Comment? && !IsReply(entries, e)
  }

  // ---------------------------------------------------------------- what a row promises

  /**
   * Breadth-first order below `rootId`: the list is the replies to the root, then the replies to the
   * first listed entry, then to the second, and so on; each entry is listed once, after its parent.
   */
  ghost predicate BreadthFirst(entries: seq<Entry>, rootId: string, out: seq<Entry>) {
    && out == ConcatKids(entries, [rootId] + Ids(out))
    && Distinct([rootId] + Ids(out))
    && ParentsFirst(entries, rootId, out)
  }

  ghost predicate ParentsFirst(entries: seq<Entry>, rootId: string, out: seq<Entry>) {
    forall i :: 0 <= i < |out| ==> HasEarlierParent(entries, rootId, out, i)
  }

  ghost predicate HasEarlierParent(entries: seq<Entry>, rootId: string, out: seq<Entry>, i: nat)
    requires i < |out|
  {
    out[i] in entries && IsReply(entries, out[i]) && out[i].parentId.value in ([rootId] + Ids(out))[..i + 1]
  }

  ghost predicate RowsOf(entries: seq<Entry>, rows: seq<Row>) {
    && |rows| == |TopLevel(entries, entries)|
    && forall i :: 0 <= i < |rows| ==> RowOf(entries, TopLevel(entries, entries)[i], rows[i])
  }

  ghost predicate RowOf(entries: seq<Entry>, e: Entry, row: Row) {
    row.entry == e && if e.kind.Comment? then BreadthFirst(entries, e.id, row.replies) else row.replies == []
  }

  // ---------------------------------------------------------------- the program

  method BuildTimelineRows(entries: seq<Entry>) returns (rows: seq<Row>)
    requires forall e :: IsRoot(entries, e) ==> Ends(entries, [e.id])
    ensures SearchedRows(entries, rows)
    ensures UniqueCommentIds(entries) ==> RowsOf(entries, rows)
  {
    var topLevel, childrenByParent := Partition(entries);
    rows := [];
    for i := 0 to |topLevel|
      invariant |rows| == i
      invariant forall j :: 0 <= j < i ==> SearchedRow(entries, topLevel[j], rows[j])
    {
      TopLevelMember(entries, entries, topLevel[i]);
      var row := RowFor(topLevel[i], childrenByParent, entries);
      rows := rows + [row];
    }
    if UniqueCommentIds(entries) { UniqueRows(entries, rows); }
  }

  method RowFor(entry: Entry, childrenByParent: map<string, seq<Entry>>, ghost entries: seq<Entry>)
    returns (row: Row)
    requires IndexesKids(entries, entries, childrenByParent)
    requires entry.kind.Comment? ==> Ends(entries, [entry.id])
    ensures SearchedRow(entries, entry, row)
  {
    var replies := [];
    if entry.kind.Comment? {
      ghost var turns: nat :| EndsAfter(entries, [entry.id], turns);
      replies := CollectDescendants(childrenByParent, entry.id, entries, turns);
    }
    row := Row(entry, replies);
  }

  /** One row per top-level entry, with what the search lists before it ends. */
  ghost predicate SearchedRows(entries: seq<Entry>, rows: seq<Row>) {
    && |rows| == |TopLevel(entries, entries)|
    && forall i :: 0 <= i < |rows| ==> SearchedRow(entries, TopLevel(entries, entries)[i], rows[i])
  }

  ghost predicate SearchedRow(entries: seq<Entry>, e: Entry, row: Row) {
    && row.entry == e
    && if e.kind.Comment? then Finds(entries, e.id, row.replies) else row.replies == []
  }

  ghost predicate Finds(entries: seq<Entry>, id: string, out: seq<Entry>) {
    exists n: nat :: EndsAfter(entries, [id], n) && out == ListedAfter(entries, [id], n)
  }

  /** The two scans that precede the search: comment ids, then top-level entries and children by parent. */
  method Partition(entries: seq<Entry>)
    returns (topLevel: seq<Entry>, childrenByParent: map<string, seq<Entry>>)
    ensures topLevel == TopLevel(entries, entries)
    ensures IndexesKids(entries, entries, childrenByParent)
  {
    var commentIds := {};
    for i := 0 to |entries|
      invariant commentIds == CommentIds(entries[..i])
    {
      assert entries[..i + 1] == entries[..i] + [entries[i]];
      CommentIdsNext(entries[..i], entries[i]);
      if entries[i].kind.Comment? { commentIds := commentIds + {entries[i].id}; }
    }
    assert entries[..|entries|] == entries && commentIds == CommentIds(entries);

    topLevel, childrenByParent := [], map[];
    for i := 0 to |entries|
      invariant topLevel == TopLevel(entries, entries[..i])
      invariant IndexesKids(entries, entries[..i], childrenByParent)
    {
      var e := entries[i];
      assert entries[..i + 1] == entries[..i] + [e];
      TopLevelNext(entries, entries[..i], e);
      if e.kind.Comment? && e.parentId.Some? && e.parentId.value != "" && e.parentId.value in commentIds {
        var p := e.parentId.value;
        var list := if p in childrenByParent then childrenByParent[p] else [];
        IndexStep(entries, entries[..i], e, childrenByParent, childrenByParent[p := list + [e]]);
        childrenByParent := childrenByParent[p := list + [e]];
      } else {
        IndexStep(entries, entries[..i], e, childrenByParent, childrenByParent);
        topLevel := topLevel + [e];
      }
    }
  }

  lemma {:induction false} CommentIdsNext(s: seq<Entry>, e: Entry)
    ensures CommentIds(s + [e]) == CommentIds(s) + if e.kind.Comment? then {e.id} else {}
  {
  }

  lemma {:induction false} TopLevelNext(entries: seq<Entry>, s: seq<Entry>, e: Entry)
    ensures TopLevel(entries, s + [e]) == TopLevel(entries, s) + if IsReply(entries, e) then [] else [e]
  {
    assert (s + [e])[..|s|] == s;
  }

  ghost predicate IndexesKids(entries: seq<Entry>, s: seq<Entry>, m: map<string, seq<Entry>>) {
    forall id :: Kids(entries, s, id) == Lookup(m, id)
  }

  function Lookup(m: map<string, seq<Entry>>, id: string): seq<Entry> {
    if id in m then m[id] else []
  }

  lemma {:induction false} IndexStep(entries: seq<Entry>, s: seq<Entry>, e: Entry,
                                     m: map<string, seq<Entry>>, m': map<string, seq<Entry>>)
    requires IndexesKids(entries, s, m)
    requires if IsReply(entries, e)
      then var p := e.parentId.value; m' == m[p := Lookup(m, p) + [e]]
      else m' == m
    ensures IndexesKids(entries, s + [e], m')
  {
    assert (s + [e])[..|s|] == s;
    forall id ensures Kids(entries, s + [e], id) == Lookup(m', id) {
      assert Kids(entries, s, id) == Lookup(m, id);
    }
  }

  method CollectDescendants(childrenByParent: map<string, seq<Entry>>, parentId: string,
                            ghost entries: seq<Entry>, ghost turns: nat)
    returns (out: seq<Entry>)
    requires IndexesKids(entries, entries, childrenByParent)
    requires EndsAfter(entries, [parentId], turns)
    ensures out == ListedAfter(entries, [parentId], turns)
  {
    out := [];
    var queue := [parentId];
    ghost var all, left := ListedAfter(entries, [parentId], turns), turns;
    assert [] + all == all;
    while |queue| > 0
      invariant EndsAfter(entries, queue, left)
      invariant out + ListedAfter(entries, queue, left) == all
      decreases left
    {
      var pid, rest := queue[0], queue[1..];
      TurnListed(entries, out, queue, pid, rest, left);
      var kids := if pid in childrenByParent then childrenByParent[pid] else [];
      assert kids == Lookup(childrenByParent, pid) == Kids(entries, entries, pid);
      out, queue := ListKids(kids, out, rest);
      left := left - 1;
    }
    assert out + [] == out;
  }

  /** The inner loop: every reply is listed, and its id queued. */
  method ListKids(kids: seq<Entry>, listed: seq<Entry>, queued: seq<string>)
    returns (out: seq<Entry>, queue: seq<string>)
    ensures out == listed + kids && queue == queued + Ids(kids)
  {
    out, queue := listed, queued;
    for k := 0 to |kids|
      invariant out == listed + kids[..k]
      invariant queue == queued + Ids(kids[..k])
    {
      out := out + [kids[k]];
      queue := queue + [kids[k].id];
    }
    assert kids[..|kids|] == kids;
  }

  /** One turn of the search. */
  lemma {:induction false} TurnListed(entries: seq<Entry>, out: seq<Entry>, queue: seq<string>,
                                      pid: string, rest: seq<string>, n: nat)
    requires queue != [] && queue[0] == pid && queue[1..] == rest && EndsAfter(entries, queue, n)
    ensures var kids := Kids(entries, entries, pid);
      && n > 0 && EndsAfter(entries, rest + Ids(kids), n - 1)
      && (out + kids) + ListedAfter(entries, rest + Ids(kids), n - 1) == out + ListedAfter(entries, queue, n)
  {
    var kids := Kids(entries, entries, pid);
    ConcatAssoc(out, kids, ListedAfter(entries, rest + Ids(kids), n - 1));
  }

  lemma {:induction false} UniqueRows(entries: seq<Entry>, rows: seq<Row>)
    requires UniqueCommentIds(entries) && SearchedRows(entries, rows)
    ensures RowsOf(entries, rows)
  {
    var top := TopLevel(entries, entries);
    forall i | 0 <= i < |rows| ensures RowOf(entries, top[i], rows[i]) {
      assert SearchedRow(entries, top[i], rows[i]);
      if top[i].kind.Comment? {
        TopLevelMember(entries, entries, top[i]);
        var n: nat :| EndsAfter(entries, [top[i].id], n) && rows[i].replies == ListedAfter(entries, [top[i].id], n);
        ListedIsBreadthFirst(entries, top[i], n);
      }
    }
  }

  /** With unique ids the search lists the replies breadth first, each once. */
  lemma {:induction false} ListedIsBreadthFirst(entries: seq<Entry>, root: Entry, n: nat)
    requires UniqueCommentIds(entries) && IsRoot(entries, root) && EndsAfter(entries, [root.id], n)
    ensures BreadthFirst(entries, root.id, ListedAfter(entries, [root.id], n))
  {
    SearchGoesOn(entries, root, [], [], [root.id], n);
    assert [] + ListedAfter(entries, [root.id], n) == ListedAfter(entries, [root.id], n);
  }

  lemma {:induction false} SearchGoesOn(entries: seq<Entry>, root: Entry, out: seq<Entry>,
                                        done: seq<string>, queue: seq<string>, n: nat)
    requires UniqueCommentIds(entries) && IsRoot(entries, root)
    requires Searching(entries, root.id, out, done, queue) && EndsAfter(entries, queue, n)
    ensures BreadthFirst(entries, root.id, out + ListedAfter(entries, queue, n))
    decreases n
  {
    if queue == [] {
      SearchEnds(entries, root.id, out, done);
      assert out + [] == out;
    } else {
      var pid, rest := queue[0], queue[1..];
      var kids := Kids(entries, entries, pid);
      assert queue == [pid] + rest;
      Visit(entries, root, out, done, pid, rest);
      SearchGoesOn(entries, root, out + kids, done + [pid], rest + Ids(kids), n - 1);
      ConcatAssoc(out, kids, ListedAfter(entries, rest + Ids(kids), n - 1));
    }
  }

  /** `done` has been taken off the queue, `queue` has not; together they are the root and all listed replies. */
  ghost predicate Searching(entries: seq<Entry>, rootId: string, out: seq<Entry>, done: seq<string>, queue: seq<string>) {
    && [rootId] + Ids(out) == done + queue
    && out == ConcatKids(entries, done)
    && Distinct(done + queue)
    && ParentsFirst(entries, rootId, out)
  }

  lemma {:induction false} SearchEnds(entries: seq<Entry>, rootId: string, out: seq<Entry>, done: seq<string>)
    requires Searching(entries, rootId, out, done, [])
    ensures BreadthFirst(entries, rootId, out)
  {
    assert done + [] == done;
  }

  // ---------------------------------------------------------------- members of the index

  lemma {:induction false} KidsMember(entries: seq<Entry>, s: seq<Entry>, id: string, e: Entry)
    ensures e in Kids(entries, s, id) <==> e in s && IsKid(entries, e, id)
    decreases |s|
  {
    if s != [] {
      var n := |s| - 1;
      assert s == s[..n] + [s[n]];
      KidsMember(entries, s[..n], id, e);
    }
  }

  lemma {:induction false} TopLevelMember(entries: seq<Entry>, s: seq<Entry>, e: Entry)
    ensures e in TopLevel(entries, s) <==> e in s && !IsReply(entries, e)
    decreases |s|
  {
    if s != [] {
      var n := |s| - 1;
      assert s == s[..n] + [s[n]];
      TopLevelMember(entries, s[..n], e);
    }
  }

  /**
   * What starts a row: an activity, a comment without a parent, and one whose parent is not among the comments
   * loaded. Rows start in the order of the timeline.
   */
  lemma {:induction false} RowsStart(entries: seq<Entry>, e: Entry)
    ensures e in TopLevel(entries, entries) <==> (e in entries
      && (e.kind == Activity || e.parentId == None || e.parentId == Some("")
          || forall c :: c in entries && c.kind == Comment ==> e.parentId != Some(c.id)))
    ensures forall i, j :: 0 <= i < j < |TopLevel(entries, entries)| ==>
      InOrderIn(entries, TopLevel(entries, entries)[i], TopLevel(entries, entries)[j])
  {
    TopLevelMember(entries, entries, e);
    forall i, j | 0 <= i < j < |TopLevel(entries, entries)|
      ensures InOrderIn(entries, TopLevel(entries, entries)[i], TopLevel(entries, entries)[j])
    {
      TopLevelOrder(entries, entries, i, j);
    }
  }

  /** One stands before the other in the list. */
  ghost predicate InOrderIn(s: seq<Entry>, x: Entry, y: Entry) {
    exists a, b :: 0 <= a < b < |s| && s[a] == x && s[b] == y
  }

  lemma {:induction false} TopLevelOrder(entries: seq<Entry>, s: seq<Entry>, i: nat, j: nat)
    requires i < j < |TopLevel(entries, s)|
    ensures InOrderIn(s, TopLevel(entries, s)[i], TopLevel(entries, s)[j])
    decreases |s|
  {
    var n := |s| - 1;
    var top := TopLevel(entries, s[..n]);
    if j < |top| {
      TopLevelOrder(entries, s[..n], i, j);
      var a, b :| 0 <= a < b < n && s[..n][a] == top[i] && s[..n][b] == top[j];
      assert s[a] == top[i] && s[b] == top[j];
    } else {
      TopLevelMember(entries, s[..n], top[i]);
      var a :| 0 <= a < n && s[..n][a] == top[i];
      assert s[a] == top[i] && s[n] == TopLevel(entries, s)[j];
    }
  }

  lemma {:induction false} ConcatKidsMember(entries: seq<Entry>, ids: seq<string>, e: Entry)
    ensures e in ConcatKids(entries, ids) <==> e in entries && IsReply(entries, e) && e.parentId.value in ids
    decreases |ids|
  {
    if ids != [] {
      var n := |ids| - 1;
      assert ids == ids[..n] + [ids[n]];
      ConcatKidsMember(entries, ids[..n], e);
      KidsMember(entries, entries, ids[n], e);
    }
  }

  lemma {:induction false} SameIdSameComment(entries: seq<Entry>, a: Entry, b: Entry)
    requires UniqueCommentIds(entries)
    requires a in entries && b in entries && a.kind.Comment? && b.kind.Comment? && a.id == b.id
    ensures a == b
  {
    var i :| 0 <= i < |entries| && entries[i] == a;
    var j :| 0 <= j < |entries| && entries[j] == b;
    assert i == j;
  }

  /** Siblings keep the order and the distinctness they have in the input. */
  lemma {:induction false} KidsOrder(entries: seq<Entry>, s: seq<Entry>, id: string, i: nat, j: nat)
    requires UniqueCommentIds(s)
    requires i < j < |Kids(entries, s, id)|
    ensures Kids(entries, s, id)[i].id != Kids(entries, s, id)[j].id
    ensures exists a, b :: 0 <= a < b < |s| && s[a] == Kids(entries, s, id)[i] && s[b] == Kids(entries, s, id)[j]
    decreases |s|
  {
    var n := |s| - 1;
    var kids := Kids(entries, s[..n], id);
    if j < |kids| {
      KidsOrder(entries, s[..n], id, i, j);
      var a, b :| 0 <= a < b < n && s[..n][a] == kids[i] && s[..n][b] == kids[j];
      assert s[a] == kids[i] && s[b] == kids[j];
    } else {
      KidsMember(entries, s[..n], id, kids[i]);
      var a :| 0 <= a < n && s[..n][a] == kids[i];
      assert s[a] == kids[i] && s[n] == Kids(entries, s, id)[j];
    }
  }

  // ---------------------------------------------------------------- the search

  /** One turn of the search: `pid` leaves the queue, its replies are listed and queued. */
  lemma {:induction false} Visit(entries: seq<Entry>, root: Entry, out: seq<Entry>,
                                 done: seq<string>, pid: string, rest: seq<string>)
    requires UniqueCommentIds(entries) && IsRoot(entries, root)
    requires Searching(entries, root.id, out, done, [pid] + rest)
    ensures var kids := Kids(entries, entries, pid);
      && Searching(entries, root.id, out + kids, done + [pid], rest + Ids(kids))
      && |out + kids| <= |entries|
  {
    var kids := Kids(entries, entries, pid);
    VisitAccounts(root.id, out, kids, done, pid, rest);
    VisitKeepsDistinct(entries, root, out, done, pid, rest);
    VisitKeepsParentsFirst(entries, root, out, done, pid, rest);
    ListedFits(entries, root.id, out + kids);
    assert (done + [pid])[..|done|] == done;
  }

  lemma {:induction false} VisitAccounts(rootId: string, out: seq<Entry>, kids: seq<Entry>,
                                         done: seq<string>, pid: string, rest: seq<string>)
    requires [rootId] + Ids(out) == done + ([pid] + rest)
    ensures [rootId] + Ids(out + kids) == (done + [pid]) + (rest + Ids(kids))
  {
    assert Ids(out + kids) == Ids(out) + Ids(kids);
    assert [rootId] + Ids(out + kids) == (done + ([pid] + rest)) + Ids(kids);
  }

  /** What replies to an id not searched before is not listed yet. */
  lemma {:induction false} KidIsNew(entries: seq<Entry>, root: Entry, out: seq<Entry>, done: seq<string>, pid: string, kid: Entry)
    requires UniqueCommentIds(entries) && IsRoot(entries, root)
    requires out == ConcatKids(entries, done) && pid !in done && kid in Kids(entries, entries, pid)
    ensures kid.id != root.id && kid.id !in Ids(out)
  {
    KidsMember(entries, entries, pid, kid);
    if kid.id == root.id { SameIdSameComment(entries, kid, root); }
    forall i | 0 <= i < |out| ensures Ids(out)[i] != kid.id {
      ConcatKidsMember(entries, done, out[i]);
      assert kid.parentId != out[i].parentId;
    }
  }

  lemma {:induction false} VisitKeepsDistinct(entries: seq<Entry>, root: Entry, out: seq<Entry>,
                                              done: seq<string>, pid: string, rest: seq<string>)
    requires UniqueCommentIds(entries) && IsRoot(entries, root)
    requires [root.id] + Ids(out) == done + ([pid] + rest)
    requires out == ConcatKids(entries, done)
    requires Distinct(done + ([pid] + rest))
    ensures Distinct([root.id] + Ids(out + Kids(entries, entries, pid)))
  {
    var kids := Kids(entries, entries, pid);
    var seen := [root.id] + Ids(out);
    assert pid == seen[|done|] && forall d :: 0 <= d < |done| ==> done[d] == seen[d];
    assert pid !in done;
    assert [root.id] + Ids(out + kids) == seen + Ids(kids);
    forall i, j | 0 <= i < j < |Ids(kids)| ensures Ids(kids)[i] != Ids(kids)[j] { KidsOrder(entries, entries, pid, i, j); }
    forall x | x in seen ensures x !in Ids(kids) {
      forall k | 0 <= k < |kids| ensures Ids(kids)[k] != x { KidIsNew(entries, root, out, done, pid, kids[k]); }
    }
    DistinctConcat(seen, Ids(kids));
  }

  lemma {:induction false} VisitKeepsParentsFirst(entries: seq<Entry>, root: Entry, out: seq<Entry>,
                                                  done: seq<string>, pid: string, rest: seq<string>)
    requires [root.id] + Ids(out) == done + ([pid] + rest)
    requires ParentsFirst(entries, root.id, out)
    ensures ParentsFirst(entries, root.id, out + Kids(entries, entries, pid))
  {
    var kids := Kids(entries, entries, pid);
    var all := out + kids;
    var seen := [root.id] + Ids(out);
    forall i | 0 <= i < |all| ensures HasEarlierParent(entries, root.id, all, i) {
      if i < |out| {
        assert HasEarlierParent(entries, root.id, out, i);
        assert ([root.id] + Ids(all))[..i + 1] == seen[..i + 1];
      } else {
        assert all[i] == kids[i - |out|];
        KidsMember(entries, entries, pid, all[i]);
        assert ([root.id] + Ids(all))[|done|] == seen[|done|] == pid;
        assert ([root.id] + Ids(all))[..i + 1][|done|] == pid;
      }
    }
  }

  lemma {:induction false} ListedFits(entries: seq<Entry>, rootId: string, out: seq<Entry>)
    requires Distinct([rootId] + Ids(out)) && ParentsFirst(entries, rootId, out)
    ensures Distinct(out) && |out| <= |entries|
  {
    var ids := [rootId] + Ids(out);
    forall i, j | 0 <= i < j < |out| ensures out[i] != out[j] {
      assert ids[i + 1] != ids[j + 1];
    }
    forall x | x in out ensures x in entries {
      var i :| 0 <= i < |out| && out[i] == x;
      assert HasEarlierParent(entries, rootId, out, i);
    }
    DistinctFits(out, entries);
  }

  // ---------------------------------------------------------------- ancestry, continued

  lemma {:induction false} FindFinds(entries: seq<Entry>, id: string)
    requires id in CommentIds(entries)
    ensures Find(entries, id) in entries && Find(entries, id).kind.Comment? && Find(entries, id).id == id
  {
    if !(entries[0].kind.Comment? && entries[0].id == id) {
      var e :| e in entries && e.kind.Comment? && e.id == id;
      assert entries == [entries[0]] + entries[1..];
      assert e in entries[1..];
      FindFinds(entries[1..], id);
    }
  }

  lemma {:induction false} ParentIs(entries: seq<Entry>, e: Entry, p: Entry)
    requires UniqueCommentIds(entries)
    requires p in entries && p.kind.Comment? && IsReply(entries, e) && e.parentId.value == p.id
    ensures Parent(entries, e) == Some(p)
  {
    FindFinds(entries, p.id);
    SameIdSameComment(entries, Find(entries, p.id), p);
  }

  lemma {:induction false} AncestorAdds(entries: seq<Entry>, e: Entry, j: nat, k: nat)
    ensures Ancestor(entries, e, j + k)
         == match Ancestor(entries, e, j) case None => None case Some(a) => Ancestor(entries, a, k)
    decreases j
  {
    if j > 0 && Parent(entries, e).Some? {
      AncestorAdds(entries, Parent(entries, e).value, j - 1, k);
    }
  }

  lemma {:induction false} AncestorLoaded(entries: seq<Entry>, e: Entry, k: nat)
    requires e in entries && k > 0 && Ancestor(entries, e, k).Some?
    ensures Ancestor(entries, e, k).value in entries && Ancestor(entries, e, k).value.kind.Comment?
    decreases k
  {
    FindFinds(entries, e.parentId.value);
    if k > 1 { AncestorLoaded(entries, Parent(entries, e).value, k - 1); }
  }

  /** A chain ends at its root: an entry replies to at most one root, at one distance. */
  lemma {:induction false} RootIsUnique(entries: seq<Entry>, e: Entry, r: Entry, j: nat, s: Entry, k: nat)
    requires RepliesTo(entries, e, r, j) && RepliesTo(entries, e, s, k)
    requires !IsReply(entries, r) && !IsReply(entries, s)
    ensures r == s && j == k
  {
    if j < k {
      AncestorAdds(entries, e, j, k - j);
    } else if k < j {
      AncestorAdds(entries, e, k, j - k);
    }
  }

  // ---------------------------------------------------------------- what a thread holds

  lemma {:induction false} ListedReplies(entries: seq<Entry>, root: Entry, out: seq<Entry>, i: nat) returns (depth: nat)
    requires UniqueCommentIds(entries) && IsRoot(entries, root) && BreadthFirst(entries, root.id, out)
    requires i < |out|
    ensures RepliesTo(entries, out[i], root, depth)
    decreases i
  {
    var ids := [root.id] + Ids(out);
    assert HasEarlierParent(entries, root.id, out, i);
    var p :| 0 <= p < i + 1 && ids[p] == out[i].parentId.value;
    if p == 0 {
      ParentIs(entries, out[i], root);
      depth := 1;
      assert Ancestor(entries, root, 0) == Some(root);
      assert Ancestor(entries, out[i], 1) == Some(root);
    } else {
      var d := ListedReplies(entries, root, out, p - 1);
      assert HasEarlierParent(entries, root.id, out, p - 1);
      ParentIs(entries, out[i], out[p - 1]);
      depth := d + 1;
    }
  }

  lemma {:induction false} RepliesListed(entries: seq<Entry>, root: Entry, out: seq<Entry>, e: Entry, depth: nat)
    requires UniqueCommentIds(entries) && IsRoot(entries, root) && BreadthFirst(entries, root.id, out)
    requires e in entries && RepliesTo(entries, e, root, depth)
    ensures e in out
    decreases depth
  {
    var ids := [root.id] + Ids(out);
    FindFinds(entries, e.parentId.value);
    var p := Parent(entries, e).value;
    if depth == 1 {
      assert Ancestor(entries, p, 0) == Some(root);
      assert ids[0] == e.parentId.value;
    } else {
      RepliesListed(entries, root, out, p, depth - 1);
      var i :| 0 <= i < |out| && out[i] == p;
      assert ids[i + 1] == e.parentId.value;
    }
    ConcatKidsMember(entries, ids, e);
  }

  /** A row's replies are exactly the direct and indirect replies to its entry, each once. */
  lemma {:induction false} RepliesAreDescendants(entries: seq<Entry>, root: Entry, out: seq<Entry>, e: Entry)
    requires UniqueCommentIds(entries) && IsRoot(entries, root) && BreadthFirst(entries, root.id, out)
    ensures e in out <==> e in entries && exists depth: nat :: RepliesTo(entries, e, root, depth)
    ensures multiset(out)[e] <= 1
  {
    ListedFits(entries, root.id, out);
    DistinctCount(out, e);
    if e in out {
      var i :| 0 <= i < |out| && out[i] == e;
      assert HasEarlierParent(entries, root.id, out, i);
      var depth := ListedReplies(entries, root, out, i);
      assert RepliesTo(entries, e, root, depth);
    } else if e in entries && exists depth: nat :: RepliesTo(entries, e, root, depth) {
      var depth: nat :| RepliesTo(entries, e, root, depth);
      RepliesListed(entries, root, out, e, depth);
    }
  }

  // ---------------------------------------------------------------- the order inside a thread

  /** The position, in the list of parents, of the parent whose block holds index `i`. */
  ghost function Owner(entries: seq<Entry>, ids: seq<string>, i: nat): nat
    requires i < |ConcatKids(entries, ids)|
    decreases |ids|
  {
    var n := |ids| - 1;
    if i < |ConcatKids(entries, ids[..n])| then Owner(entries, ids[..n], i) else n
  }

  lemma {:induction false} OwnerIsParent(entries: seq<Entry>, ids: seq<string>, i: nat)
    requires i < |ConcatKids(entries, ids)|
    ensures Owner(entries, ids, i) < |ids|
    ensures IsReply(entries, ConcatKids(entries, ids)[i])
    ensures ConcatKids(entries, ids)[i].parentId.value == ids[Owner(entries, ids, i)]
    decreases |ids|
  {
    var n := |ids| - 1;
    var before := ConcatKids(entries, ids[..n]);
    if i < |before| {
      OwnerIsParent(entries, ids[..n], i);
    } else {
      KidsMember(entries, entries, ids[n], Kids(entries, entries, ids[n])[i - |before|]);
    }
  }

  lemma {:induction false} OwnersAscend(entries: seq<Entry>, ids: seq<string>, i: nat, j: nat)
    requires i < j < |ConcatKids(entries, ids)|
    ensures Owner(entries, ids, i) <= Owner(entries, ids, j)
    decreases |ids|
  {
    var n := |ids| - 1;
    if j < |ConcatKids(entries, ids[..n])| {
      OwnersAscend(entries, ids[..n], i, j);
    } else {
      OwnerIsParent(entries, ids, i);
    }
  }

  lemma {:induction false} BlockKeepsInputOrder(entries: seq<Entry>, ids: seq<string>, i: nat, j: nat)
    requires UniqueCommentIds(entries)
    requires i < j < |ConcatKids(entries, ids)|
    requires Owner(entries, ids, i) == Owner(entries, ids, j)
    ensures exists a, b :: (0 <= a < b < |entries|
      && entries[a] == ConcatKids(entries, ids)[i] && entries[b] == ConcatKids(entries, ids)[j])
    decreases |ids|
  {
    var n := |ids| - 1;
    var before := ConcatKids(entries, ids[..n]);
    if j < |before| {
      BlockKeepsInputOrder(entries, ids[..n], i, j);
    } else {
      if i < |before| { OwnerIsParent(entries, ids[..n], i); }
      KidsOrder(entries, entries, ids[n], i - |before|, j - |before|);
    }
  }

  lemma {:induction false} DirectReply(entries: seq<Entry>, root: Entry, e: Entry, depth: nat)
    requires UniqueCommentIds(entries) && IsRoot(entries, root) && RepliesTo(entries, e, root, depth)
    requires IsReply(entries, e) && e.parentId.value == root.id
    ensures depth == 1 && Parent(entries, e) == Some(root)
  {
    ParentIs(entries, e, root);
    assert Ancestor(entries, e, 1) == Ancestor(entries, root, 0) == Some(root);
    RootIsUnique(entries, e, root, depth, root, 1);
  }

  lemma {:induction false} OwnerPrecedes(entries: seq<Entry>, rootId: string, out: seq<Entry>, i: nat)
    requires BreadthFirst(entries, rootId, out) && i < |out|
    ensures Owner(entries, [rootId] + Ids(out), i) <= i
  {
    var ids := [rootId] + Ids(out);
    OwnerIsParent(entries, ids, i);
    assert HasEarlierParent(entries, rootId, out, i);
    var p :| 0 <= p < i + 1 && ids[p] == out[i].parentId.value;
    assert p == Owner(entries, ids, i);
  }

  lemma {:induction false} ParentOfListed(entries: seq<Entry>, root: Entry, out: seq<Entry>, i: nat, depth: nat)
    requires UniqueCommentIds(entries) && IsRoot(entries, root) && BreadthFirst(entries, root.id, out)
    requires i < |out| && RepliesTo(entries, out[i], root, depth)
    requires Owner(entries, [root.id] + Ids(out), i) > 0
    ensures Owner(entries, [root.id] + Ids(out), i) <= i
    ensures depth > 1
    ensures RepliesTo(entries, out[Owner(entries, [root.id] + Ids(out), i) - 1], root, depth - 1)
  {
    var ids := [root.id] + Ids(out);
    var p := Owner(entries, ids, i);
    OwnerIsParent(entries, ids, i);
    OwnerPrecedes(entries, root.id, out, i);
    assert HasEarlierParent(entries, root.id, out, p - 1);
    assert ids[p] == out[p - 1].id && ids[p] != ids[0];
    ParentIs(entries, out[i], out[p - 1]);
    assert Ancestor(entries, out[i], depth) == Ancestor(entries, out[p - 1], depth - 1);
  }

  ghost predicate IsThread(entries: seq<Entry>, root: Entry, out: seq<Entry>) {
    UniqueCommentIds(entries) && IsRoot(entries, root) && BreadthFirst(entries, root.id, out)
  }

  ghost function OwnerOf(entries: seq<Entry>, root: Entry, out: seq<Entry>, i: nat): nat
    requires IsThread(entries, root, out) && i < |out|
  {
    Owner(entries, [root.id] + Ids(out), i)
  }

  lemma {:induction false} Listed(entries: seq<Entry>, root: Entry, out: seq<Entry>, i: nat)
    requires IsThread(entries, root, out) && i < |out|
    ensures out[i] in entries && IsReply(entries, out[i])
  {
    assert HasEarlierParent(entries, root.id, out, i);
  }

  lemma {:induction false} OwnedByRoot(entries: seq<Entry>, root: Entry, out: seq<Entry>, i: nat, d: nat)
    requires IsThread(entries, root, out) && i < |out| && RepliesTo(entries, out[i], root, d)
    requires OwnerOf(entries, root, out, i) == 0
    ensures d == 1 && Parent(entries, out[i]) == Some(root)
  {
    OwnerIsParent(entries, [root.id] + Ids(out), i);
    DirectReply(entries, root, out[i], d);
  }

  lemma {:induction false} OwnedByListed(entries: seq<Entry>, root: Entry, out: seq<Entry>, i: nat, d: nat)
    requires IsThread(entries, root, out) && i < |out| && RepliesTo(entries, out[i], root, d)
    requires OwnerOf(entries, root, out, i) > 0
    ensures var p := OwnerOf(entries, root, out, i);
      p <= i && d > 1 && Parent(entries, out[i]) == Some(out[p - 1]) && RepliesTo(entries, out[p - 1], root, d - 1)
  {
    var p := OwnerOf(entries, root, out, i);
    OwnerIsParent(entries, [root.id] + Ids(out), i);
    ParentOfListed(entries, root, out, i, d);
    Listed(entries, root, out, p - 1);
    ParentIs(entries, out[i], out[p - 1]);
  }

  /** The parent of a listed reply is the root, at distance one, or listed earlier. */
  lemma {:induction false} OwnerIs(entries: seq<Entry>, root: Entry, out: seq<Entry>, i: nat, d: nat)
    requires IsThread(entries, root, out) && i < |out| && RepliesTo(entries, out[i], root, d)
    ensures var p := OwnerOf(entries, root, out, i);
      && p <= i
      && (if p == 0 then d == 1 && Parent(entries, out[i]) == Some(root)
          else d > 1 && Parent(entries, out[i]) == Some(out[p - 1]) && RepliesTo(entries, out[p - 1], root, d - 1))
  {
    if OwnerOf(entries, root, out, i) == 0 {
      OwnedByRoot(entries, root, out, i, d);
    } else {
      OwnedByListed(entries, root, out, i, d);
    }
  }

  lemma {:induction false} OwnersInOrder(entries: seq<Entry>, root: Entry, out: seq<Entry>, i: nat, j: nat)
    requires IsThread(entries, root, out) && i < j < |out|
    ensures OwnerOf(entries, root, out, i) <= OwnerOf(entries, root, out, j)
    ensures OwnerOf(entries, root, out, i) == OwnerOf(entries, root, out, j) ==> out[i].parentId == out[j].parentId
  {
    var ids := [root.id] + Ids(out);
    OwnersAscend(entries, ids, i, j);
    OwnerIsParent(entries, ids, i);
    OwnerIsParent(entries, ids, j);
  }

  /** The parents of two listed replies: the root, or listed earlier, in the same order. */
  lemma {:induction false} Owners(entries: seq<Entry>, root: Entry, out: seq<Entry>, i: nat, di: nat, j: nat, dj: nat)
    returns (p: nat, q: nat)
    requires IsThread(entries, root, out) && i < j < |out|
    requires RepliesTo(entries, out[i], root, di) && RepliesTo(entries, out[j], root, dj)
    ensures p <= q <= j && p <= i && (p == 0 ==> di == 1) && dj >= 1
    ensures p > 0 ==> di > 1 && RepliesTo(entries, out[p - 1], root, di - 1)
    ensures q > 0 ==> dj > 1 && RepliesTo(entries, out[q - 1], root, dj - 1)
  {
    p, q := OwnerOf(entries, root, out, i), OwnerOf(entries, root, out, j);
    OwnersInOrder(entries, root, out, i, j);
    OwnerIs(entries, root, out, i, di);
    OwnerIs(entries, root, out, j, dj);
  }

  /** Shallower replies come first: distance from the root never decreases along a row. */
  lemma {:induction false} ShallowFirst(entries: seq<Entry>, root: Entry, out: seq<Entry>,
                                        i: nat, di: nat, j: nat, dj: nat)
    requires UniqueCommentIds(entries) && IsRoot(entries, root) && BreadthFirst(entries, root.id, out)
    requires i < j < |out|
    requires RepliesTo(entries, out[i], root, di) && RepliesTo(entries, out[j], root, dj)
    ensures di <= dj
    decreases j
  {
    var p, q := Owners(entries, root, out, i, di, j, dj);
    if 0 < p == q {
      RootIsUnique(entries, out[p - 1], root, di - 1, root, dj - 1);
    } else if 0 < p {
      ShallowFirst(entries, root, out, p - 1, di - 1, q - 1, dj - 1);
    }
  }

  /** Replies to the same comment keep the order of the timeline. */
  lemma {:induction false} SiblingsKeepInputOrder(entries: seq<Entry>, root: Entry, out: seq<Entry>, i: nat, j: nat)
    requires UniqueCommentIds(entries) && IsRoot(entries, root) && BreadthFirst(entries, root.id, out)
    requires i < j < |out| && out[i].parentId == out[j].parentId
    ensures exists a, b :: 0 <= a < b < |entries| && entries[a] == out[i] && entries[b] == out[j]
  {
    var ids := [root.id] + Ids(out);
    OwnerIsParent(entries, ids, i);
    OwnerIsParent(entries, ids, j);
    assert ids[Owner(entries, ids, i)] == ids[Owner(entries, ids, j)];
    BlockKeepsInputOrder(entries, ids, i, j);
  }

  // ---------------------------------------------------------------- cycles

  /** Every reply hangs, at some distance, below a row's entry. */
  ghost predicate AllRooted(entries: seq<Entry>) {
    forall e :: e in entries && IsReply(entries, e) ==> HasRoot(entries, e)
  }

  ghost predicate HasRoot(entries: seq<Entry>, e: Entry) {
    exists r, k: nat :: IsRoot(entries, r) && RepliesTo(entries, e, r, k)
  }

  lemma {:induction false} RootedIffAcyclic(entries: seq<Entry>)
    ensures AllRooted(entries) <==> Acyclic(entries)
  {
    if AllRooted(entries) {
      forall e, k: nat | e in entries ensures !RepliesTo(entries, e, e, k) {
        if RepliesTo(entries, e, e, k) {
          assert IsReply(entries, e);
          var r, d: nat :| IsRoot(entries, r) && RepliesTo(entries, e, r, d);
          assert k * d - d == (k - 1) * d >= 0;
          Laps(entries, e, k, d);
          AncestorAdds(entries, e, d, k * d - d);
        }
      }
    }
    if Acyclic(entries) {
      forall e | e in entries && IsReply(entries, e) ensures HasRoot(entries, e) {
        if !HasRoot(entries, e) { ChainRepeats(entries, e); }
      }
    }
  }

  lemma {:induction false} Laps(entries: seq<Entry>, e: Entry, k: nat, laps: nat)
    requires RepliesTo(entries, e, e, k)
    ensures Ancestor(entries, e, k * laps) == Some(e)
    decreases laps
  {
    if laps > 0 {
      Laps(entries, e, k, laps - 1);
      AncestorAdds(entries, e, k * (laps - 1), k);
      assert k * (laps - 1) + k == k * laps;
    }
  }

  /** A chain without a root never ends. */
  lemma {:induction false} ChainGoesOn(entries: seq<Entry>, e: Entry, k: nat)
    requires e in entries && IsReply(entries, e) && !HasRoot(entries, e)
    ensures Ancestor(entries, e, k).Some?
    decreases k
  {
    if k > 0 {
      ChainGoesOn(entries, e, k - 1);
      AncestorAdds(entries, e, k - 1, 1);
      if k > 1 {
        AncestorLoaded(entries, e, k - 1);
        var a := Ancestor(entries, e, k - 1).value;
        assert RepliesTo(entries, e, a, k - 1);
        assert IsReply(entries, a);
      }
      var a := Ancestor(entries, e, k - 1).value;
      assert Ancestor(entries, a, 1) == Ancestor(entries, Parent(entries, a).value, 0);
    }
  }

  /** Among more ancestors than there are entries, one repeats: the chain has a cycle. */
  lemma {:induction false} ChainRepeats(entries: seq<Entry>, e: Entry)
    requires e in entries && IsReply(entries, e) && !HasRoot(entries, e)
    ensures !Acyclic(entries)
  {
    var n := |entries| + 1;
    forall k: nat ensures Ancestor(entries, e, k).Some? { ChainGoesOn(entries, e, k); }
    var chain := seq(n, i requires 0 <= i < n => Ancestor(entries, e, i + 1).value);
    forall x | x in chain ensures x in entries {
      var i :| 0 <= i < n && chain[i] == x;
      AncestorLoaded(entries, e, i + 1);
    }
    if Distinct(chain) { DistinctFits(chain, entries); }
    var i, j :| 0 <= i < j < n && chain[i] == chain[j];
    AncestorAdds(entries, e, i + 1, j - i);
    assert RepliesTo(entries, chain[i], chain[i], j - i);
  }
}
