/** Whether the rows show the timeline, nothing lost or repeated (apps/mobile/lib/timeline-thread.ts). */
module ThreadCounts {
  import opened Lists
  import opened TimelineThread
  import opened ThreadSearch

  /** Everything the rows show: each entry followed by its replies. */
  ghost function Shown(rows: seq<Row>): seq<Entry> {
    if rows == [] then []
    else var n := |rows| - 1; Shown(rows[..n]) + ([rows[n].entry] + rows[n].replies)
  }

  /** How many comments have this id. */
  function CountIds(s: seq<Entry>, id: string): nat {
    if s == [] then 0
    else var n := |s| - 1; CountIds(s[..n], id) + (if s[n].kind.Comment? && s[n].id == id then 1 else 0)
  }

  /** Every id that a reply names as its parent belongs to exactly one comment. */
  ghost predicate NamedOnce(entries: seq<Entry>) {
    forall e :: e in entries && IsReply(entries, e) ==> CountIds(entries, e.parentId.value) == 1
  }

  // ---------------------------------------------------------------- counting ids

  lemma {:induction false} CountConcat(s: seq<Entry>, t: seq<Entry>, id: string)
    ensures CountIds(s + t, id) == CountIds(s, id) + CountIds(t, id)
    decreases |t|
  {
    if t == [] {
      assert s + t == s;
    } else {
      var n := |t| - 1;
      assert (s + t)[..|s + t| - 1] == s + t[..n] && (s + t)[|s + t| - 1] == t[n];
      CountConcat(s, t[..n], id);
    }
  }

  lemma {:induction false} CountOne(e: Entry, id: string)
    ensures CountIds([e], id) == if e.kind.Comment? && e.id == id then 1 else 0
  {
    assert [e][..0] == [];
  }

  lemma {:induction false} CountWithout(before: seq<Entry>, x: Entry, after: seq<Entry>, id: string)
    ensures CountIds(before + ([x] + after), id) == CountIds(before + after, id) + CountIds([x], id)
  {
    CountConcat(before, [x] + after, id);
    CountConcat([x], after, id);
    CountConcat(before, after, id);
  }

  lemma {:induction false} SamePermutation(s: seq<Entry>, x: Entry, t: seq<Entry>, u: seq<Entry>)
    requires multiset(s + [x]) == multiset(t) && multiset(t) == multiset{x} + multiset(u)
    ensures multiset(s) == multiset(u)
  {
    assert multiset(s + [x]) == multiset{x} + multiset(s);
    MultisetCancel(multiset{x}, multiset(s), multiset(u));
  }

  lemma {:induction false} CountPermutes(s: seq<Entry>, t: seq<Entry>, id: string)
    requires multiset(s) == multiset(t)
    ensures CountIds(s, id) == CountIds(t, id)
    decreases |s|
  {
    if s == [] {
      assert |multiset(t)| == 0;
    } else {
      var n := |s| - 1;
      var x := s[n];
      assert s == s[..n] + [x] && x in multiset(t);
      var before, after := TakeOut(t, x);
      SamePermutation(s[..n], x, t, before + after);
      CountPermutes(s[..n], before + after, id);
      CountWithout(before, x, after, id);
      CountConcat(s[..n], [x], id);
    }
  }

  /** If `c` is the only comment of this id, counting the id is counting `c`. */
  lemma {:induction false} CountOnly(s: seq<Entry>, id: string, c: Entry)
    requires c.kind.Comment? && c.id == id
    requires forall e :: e in s && e.kind.Comment? && e.id == id ==> e == c
    ensures CountIds(s, id) == multiset(s)[c]
    decreases |s|
  {
    if s != [] {
      var n := |s| - 1;
      assert s == s[..n] + [s[n]];
      CountOnly(s[..n], id, c);
    }
  }

  lemma {:induction false} CountFinds(s: seq<Entry>, id: string, e: Entry)
    requires e in s && e.kind.Comment? && e.id == id
    ensures CountIds(s, id) > 0
    decreases |s|
  {
    var n := |s| - 1;
    if e != s[n] {
      assert s == s[..n] + [s[n]];
      CountFinds(s[..n], id, e);
    }
  }

  lemma {:induction false} OnlyComment(s: seq<Entry>, id: string, a: Entry, b: Entry)
    requires CountIds(s, id) == 1
    requires a in s && b in s && a.kind.Comment? && b.kind.Comment? && a.id == b.id == id
    ensures a == b
    decreases |s|
  {
    var n := |s| - 1;
    assert s == s[..n] + [s[n]];
    if a in s[..n] { CountFinds(s[..n], id, a); }
    if b in s[..n] { CountFinds(s[..n], id, b); }
    if a in s[..n] && b in s[..n] { OnlyComment(s[..n], id, a, b); }
  }

  lemma {:induction false} UniqueCounts(s: seq<Entry>, e: Entry)
    requires UniqueCommentIds(s) && e in s && e.kind.Comment?
    ensures CountIds(s, e.id) == 1
  {
    var i :| 0 <= i < |s| && s[i] == e;
    forall x | x in s && x.kind.Comment? && x.id == e.id ensures x == e { SameIdSameComment(s, x, e); }
    CountOnly(s, e.id, e);
    var before, after := s[..i], s[i + 1..];
    assert s == before + ([e] + after);
    assert e !in before && e !in after;
  }

  // ---------------------------------------------------------------- what one search lists

  lemma {:induction false} KidsCount(entries: seq<Entry>, s: seq<Entry>, id: string, e: Entry)
    ensures multiset(Kids(entries, s, id))[e] == if IsKid(entries, e, id) then multiset(s)[e] else 0
    decreases |s|
  {
    if s != [] {
      var n := |s| - 1;
      assert s == s[..n] + [s[n]];
      KidsCount(entries, s[..n], id, e);
    }
  }

  lemma {:induction false} IdsCount(s: seq<Entry>, id: string)
    requires forall e :: e in s ==> e.kind.Comment?
    ensures multiset(Ids(s))[id] == CountIds(s, id)
    decreases |s|
  {
    if s != [] {
      var n := |s| - 1;
      assert s[n] in s && forall e :: e in s[..n] ==> e in s;
      IdsCount(s[..n], id);
      assert Ids(s) == Ids(s[..n]) + [s[n].id];
    }
  }

  /** How often the timeline holds `e` as a reply. */
  function AsReply(entries: seq<Entry>, e: Entry): nat {
    if IsReply(entries, e) then multiset(entries)[e] else 0
  }

  /** `c` times `m`. */
  function Copies(c: nat, m: nat): nat {
    if c == 0 then 0 else Copies(c - 1, m) + m
  }

  lemma {:induction false} CopiesAdd(c: nat, d: nat, m: nat)
    ensures Copies(c + d, m) == Copies(c, m) + Copies(d, m)
    decreases d
  {
    if d > 0 { CopiesAdd(c, d - 1, m); }
  }

  lemma {:induction false} CopiesGrow(c: nat, m: nat)
    ensures m == 0 ==> Copies(c, m) == 0
    ensures c == 1 ==> Copies(c, m) == m
    ensures m > 0 ==> Copies(c, m) >= c
    ensures c > 1 && m > 0 ==> Copies(c, m) > m
    decreases c
  {
    if c > 0 { CopiesGrow(c - 1, m); }
  }

  /** The id under which `e` is filed. */
  function Named(e: Entry): string {
    if e.parentId.Some? then e.parentId.value else ""
  }

  lemma {:induction false} KidsAreCopies(entries: seq<Entry>, id: string, e: Entry)
    ensures multiset(Kids(entries, entries, id))[e] == Copies(multiset([id])[Named(e)], AsReply(entries, e))
  {
    KidsCount(entries, entries, id, e);
    if Named(e) == id { assert multiset([id])[Named(e)] == 1; } else { assert multiset([id])[Named(e)] == 0; }
  }

  /** Turning to the next id: what was queued and what is listed add up to the same as before. */
  lemma {:induction false} TurnKeepsCount(entries: seq<Entry>, queue: seq<string>, later: seq<Entry>, p: string)
    requires queue != []
    ensures var kids := Kids(entries, entries, queue[0]);
      multiset(queue)[p] + CountIds(kids + later, p)
      == multiset([queue[0]])[p] + (multiset(queue[1..] + Ids(kids))[p] + CountIds(later, p))
  {
    var kids := Kids(entries, entries, queue[0]);
    forall k | k in kids ensures k.kind.Comment? { KidsMember(entries, entries, queue[0], k); }
    IdsCount(kids, p);
    CountConcat(kids, later, p);
    assert queue == [queue[0]] + queue[1..];
    CountsAdd([queue[0]], queue[1..], p);
    CountsAdd(queue[1..], Ids(kids), p);
  }

  /** `out` holds `e` `m` times for each time its parent's id is in `queue` or that of an entry of `out`. */
  ghost predicate Counted(queue: seq<string>, out: seq<Entry>, e: Entry, m: nat) {
    multiset(out)[e] == Copies(multiset(queue)[Named(e)] + CountIds(out, Named(e)), m)
  }

  lemma {:induction false} CopiesSum(now: nat, first: nat, later: nat, m: nat)
    requires now == first + later
    ensures Copies(now, m) == Copies(first, m) + Copies(later, m)
  {
    CopiesAdd(first, later, m);
  }

  lemma {:induction false} CountedSum(queue: seq<string>, next: seq<string>, kids: seq<Entry>, later: seq<Entry>,
      e: Entry, head: nat, m: nat)
    requires multiset(queue)[Named(e)] + CountIds(kids + later, Named(e))
      == head + (multiset(next)[Named(e)] + CountIds(later, Named(e)))
    requires multiset(kids)[e] == Copies(head, m) && Counted(next, later, e, m)
    ensures Counted(queue, kids + later, e, m)
  {
    CountsAdd(kids, later, e);
    var p := Named(e);
    CopiesSum(multiset(queue)[p] + CountIds(kids + later, p), head, multiset(next)[p] + CountIds(later, p), m);
  }

  lemma {:induction false} TurnKeepsCounted(entries: seq<Entry>, queue: seq<string>, later: seq<Entry>, e: Entry)
    requires queue != [] && Counted(queue[1..] + KidIds(entries, queue[0]), later, e, AsReply(entries, e))
    ensures Counted(queue, Kids(entries, entries, queue[0]) + later, e, AsReply(entries, e))
  {
    var p := Named(e);
    var kids := Kids(entries, entries, queue[0]);
    KidsAreCopies(entries, queue[0], e);
    TurnKeepsCount(entries, queue, later, p);
    CountedSum(queue, queue[1..] + Ids(kids), kids, later, e, multiset([queue[0]])[p], AsReply(entries, e));
  }

  lemma {:induction false} SearchCount(entries: seq<Entry>, queue: seq<string>, n: nat, e: Entry)
    requires EndsAfter(entries, queue, n)
    ensures Counted(queue, ListedAfter(entries, queue, n), e, AsReply(entries, e))
    decreases n
  {
    if queue != [] {
      var next := queue[1..] + KidIds(entries, queue[0]);
      SearchCount(entries, next, n - 1, e);
      TurnKeepsCounted(entries, queue, ListedAfter(entries, next, n - 1), e);
    }
  }

  // ---------------------------------------------------------------- what the rows show

  lemma {:induction false} TopCount(entries: seq<Entry>, s: seq<Entry>, e: Entry)
    ensures multiset(TopLevel(entries, s))[e] == if IsReply(entries, e) then 0 else multiset(s)[e]
    decreases |s|
  {
    if s != [] {
      var n := |s| - 1;
      assert s == s[..n] + [s[n]];
      TopCount(entries, s[..n], e);
    }
  }

  ghost predicate RowCounted(row: Row, e: Entry, m: nat) {
    multiset(row.replies)[e] == Copies(CountIds([row.entry] + row.replies, Named(e)), m)
  }

  lemma {:induction false} RowCount(entries: seq<Entry>, row: Row, e: Entry)
    requires SearchedRow(entries, row.entry, row)
    ensures RowCounted(row, e, AsReply(entries, e))
  {
    var root, p := row.entry, Named(e);
    CountConcat([root], row.replies, p);
    CountOne(root, p);
    if root.kind.Comment? {
      var n: nat :| EndsAfter(entries, [root.id], n) && row.replies == ListedAfter(entries, [root.id], n);
      SearchCount(entries, [root.id], n, e);
      if root.id == p { assert multiset([root.id])[p] == 1; } else { assert multiset([root.id])[p] == 0; }
    }
  }

  /** Entries `top` start rows that show `shown`: replies are there once for each of their parents. */
  ghost predicate AllCounted(top: seq<Entry>, shown: seq<Entry>, e: Entry, m: nat) {
    multiset(shown)[e] == multiset(top)[e] + Copies(CountIds(shown, Named(e)), m)
  }

  lemma {:induction false} AllCountedSum(top: seq<Entry>, before: seq<Entry>, root: Entry, replies: seq<Entry>,
      e: Entry, m: nat)
    requires AllCounted(top, before, e, m)
    requires multiset(replies)[e] == Copies(CountIds([root] + replies, Named(e)), m)
    ensures AllCounted(top + [root], before + ([root] + replies), e, m)
  {
    var p, last := Named(e), [root] + replies;
    CountsAdd(top, [root], e);
    CountsAdd([root], replies, e);
    CountsAdd(before, last, e);
    CountConcat(before, last, p);
    CopiesSum(CountIds(before + last, p), CountIds(before, p), CountIds(last, p), m);
  }

  lemma {:induction false} ShownSnoc(rows: seq<Row>, row: Row)
    ensures Shown(rows + [row]) == Shown(rows) + ([row.entry] + row.replies)
  {
    assert (rows + [row])[..|rows|] == rows;
  }

  lemma {:induction false} NextRowCount(before: seq<Row>, row: Row, rows: seq<Row>, topBefore: seq<Entry>,
      top: seq<Entry>, e: Entry, m: nat)
    requires AllCounted(topBefore, Shown(before), e, m)
    requires RowCounted(row, e, m)
    requires rows == before + [row] && top == topBefore + [row.entry]
    ensures AllCounted(top, Shown(rows), e, m)
  {
    AllCountedSum(topBefore, Shown(before), row.entry, row.replies, e, m);
    ShownSnoc(before, row);
  }

  lemma {:induction false} RowsCount(rows: seq<Row>, top: seq<Entry>, e: Entry, m: nat)
    requires |rows| == |top|
    requires forall i :: 0 <= i < |rows| ==> rows[i].entry == top[i] && RowCounted(rows[i], e, m)
    ensures AllCounted(top, Shown(rows), e, m)
    decreases |rows|
  {
    if rows == [] {
      assert top == [];
    } else {
      var n := |rows| - 1;
      RowsCount(rows[..n], top[..n], e, m);
      assert rows == rows[..n] + [rows[n]] && top == top[..n] + [top[n]];
      NextRowCount(rows[..n], rows[n], rows, top[..n], top, e, m);
    }
  }

  /** A reply is shown once for each time a comment with its parent's id is; everything else is shown as it is. */
  lemma {:induction false} ShownCount(entries: seq<Entry>, rows: seq<Row>, e: Entry)
    requires SearchedRows(entries, rows)
    ensures multiset(Shown(rows))[e] == if IsReply(entries, e)
      then Copies(CountIds(Shown(rows), e.parentId.value), multiset(entries)[e]) else multiset(entries)[e]
  {
    var top := TopLevel(entries, entries);
    forall i | 0 <= i < |rows| ensures rows[i].entry == top[i] && RowCounted(rows[i], e, AsReply(entries, e)) {
      assert SearchedRow(entries, top[i], rows[i]);
      RowCount(entries, rows[i], e);
    }
    RowsCount(rows, top, e, AsReply(entries, e));
    TopCount(entries, entries, e);
    CopiesGrow(CountIds(Shown(rows), Named(e)), 0);
  }

  // ---------------------------------------------------------------- what is listed has a root

  /** Some comment with this id is the root or a reply to it. */
  ghost predicate Below(entries: seq<Entry>, root: Entry, id: string) {
    exists c, d: nat :: IsBelow(entries, root, id, c, d)
  }

  ghost predicate IsBelow(entries: seq<Entry>, root: Entry, id: string, c: Entry, d: nat) {
    c in entries && c.kind.Comment? && c.id == id && Ancestor(entries, c, d) == Some(root)
  }

  lemma {:induction false} KidBelow(entries: seq<Entry>, root: Entry, id: string, kid: Entry) returns (depth: nat)
    requires NamedOnce(entries) && Below(entries, root, id) && kid in Kids(entries, entries, id)
    ensures RepliesTo(entries, kid, root, depth) && Below(entries, root, kid.id)
  {
    var c, d: nat :| IsBelow(entries, root, id, c, d);
    KidsMember(entries, entries, id, kid);
    FindFinds(entries, id);
    OnlyComment(entries, id, c, Find(entries, id));
    depth := d + 1;
    assert Ancestor(entries, kid, depth) == Ancestor(entries, c, d);
    assert IsBelow(entries, root, kid.id, kid, depth);
  }

  lemma {:induction false} ListedBelow(entries: seq<Entry>, root: Entry, queue: seq<string>, n: nat, e: Entry)
    requires NamedOnce(entries) && forall id :: id in queue ==> Below(entries, root, id)
    requires e in ListedAfter(entries, queue, n)
    ensures exists d: nat :: RepliesTo(entries, e, root, d)
    decreases n
  {
    var rest, kids := queue[1..], Kids(entries, entries, queue[0]);
    if e in kids {
      var d := KidBelow(entries, root, queue[0], e);
    } else {
      forall id | id in rest + Ids(kids) ensures Below(entries, root, id) {
        if id !in rest {
          var k :| 0 <= k < |kids| && kids[k].id == id;
          var d := KidBelow(entries, root, queue[0], kids[k]);
        }
      }
      ListedBelow(entries, root, rest + Ids(kids), n - 1, e);
    }
  }

  lemma {:induction false} InSomeRow(rows: seq<Row>, e: Entry) returns (i: nat)
    requires e in Shown(rows)
    ensures i < |rows| && (e == rows[i].entry || e in rows[i].replies)
    decreases |rows|
  {
    var n := |rows| - 1;
    if e in [rows[n].entry] + rows[n].replies { i := n; } else { i := InSomeRow(rows[..n], e); }
  }

  lemma {:induction false} ShownHasRoot(entries: seq<Entry>, rows: seq<Row>, e: Entry)
    requires SearchedRows(entries, rows) && NamedOnce(entries)
    requires e in Shown(rows) && IsReply(entries, e)
    ensures HasRoot(entries, e)
  {
    var i := InSomeRow(rows, e);
    var top := TopLevel(entries, entries);
    assert SearchedRow(entries, top[i], rows[i]);
    TopLevelMember(entries, entries, top[i]);
    var root := top[i];
    var n: nat :| EndsAfter(entries, [root.id], n) && rows[i].replies == ListedAfter(entries, [root.id], n);
    assert Ancestor(entries, root, 0) == Some(root);
    assert IsBelow(entries, root, root.id, root, 0);
    ListedBelow(entries, root, [root.id], n, e);
  }

  // ---------------------------------------------------------------- what has a root is shown once

  lemma {:induction false} ShownIsLoaded(entries: seq<Entry>, rows: seq<Row>, e: Entry)
    requires SearchedRows(entries, rows) && e in Shown(rows)
    ensures e in entries
  {
    ShownCount(entries, rows, e);
    var shown, loaded := multiset(Shown(rows))[e], multiset(entries)[e];
    assert shown > 0;
    if IsReply(entries, e) { CopiesGrow(CountIds(Shown(rows), e.parentId.value), loaded); }
    assert loaded > 0;
  }

  lemma {:induction false} ParentShownOnce(entries: seq<Entry>, rows: seq<Row>, e: Entry, root: Entry, d: nat)
    requires SearchedRows(entries, rows) && NamedOnce(entries)
    requires e in entries && IsRoot(entries, root) && RepliesTo(entries, e, root, d)
    ensures CountIds(Shown(rows), e.parentId.value) == 1
    decreases d
  {
    var c := Find(entries, e.parentId.value);
    FindFinds(entries, e.parentId.value);
    NamedShown(entries, rows, c, e.parentId.value);
    ShownCount(entries, rows, c);
    if IsReply(entries, c) {
      ParentReplies(entries, e, c, root, d);
      ParentShownOnce(entries, rows, c, root, d - 1);
      CopiesGrow(1, 1);
    }
  }

  /** The one comment of an id is the only one shown under it. */
  lemma {:induction false} NamedShown(entries: seq<Entry>, rows: seq<Row>, c: Entry, id: string)
    requires SearchedRows(entries, rows) && CountIds(entries, id) == 1
    requires c in entries && c.kind.Comment? && c.id == id
    ensures CountIds(Shown(rows), id) == multiset(Shown(rows))[c] && multiset(entries)[c] == 1
  {
    forall x | x in entries && x.kind.Comment? && x.id == id ensures x == c { OnlyComment(entries, id, x, c); }
    forall x | x in Shown(rows) ensures x in entries { ShownIsLoaded(entries, rows, x); }
    CountOnly(entries, id, c);
    CountOnly(Shown(rows), id, c);
  }

  lemma {:induction false} ParentReplies(entries: seq<Entry>, e: Entry, c: Entry, root: Entry, d: nat)
    requires IsRoot(entries, root) && RepliesTo(entries, e, root, d) && Parent(entries, e) == Some(c) && IsReply(entries, c)
    ensures d > 1 && RepliesTo(entries, c, root, d - 1)
  {
  }

  lemma {:induction false} RootedIsShownOnce(entries: seq<Entry>, rows: seq<Row>, e: Entry)
    requires SearchedRows(entries, rows) && NamedOnce(entries) && AllRooted(entries)
    ensures multiset(Shown(rows))[e] == multiset(entries)[e]
  {
    ShownCount(entries, rows, e);
    if e in entries && IsReply(entries, e) {
      var r, d: nat :| IsRoot(entries, r) && RepliesTo(entries, e, r, d);
      ParentShownOnce(entries, rows, e, r, d);
      CopiesGrow(1, multiset(entries)[e]);
    } else if IsReply(entries, e) {
      CopiesGrow(CountIds(Shown(rows), e.parentId.value), 0);
    }
  }

  // ---------------------------------------------------------------- counts agree

  lemma {:induction false} AgreementNamesOnce(entries: seq<Entry>, rows: seq<Row>, e: Entry)
    requires SearchedRows(entries, rows) && multiset(Shown(rows)) == multiset(entries)
    requires e in entries && IsReply(entries, e)
    ensures CountIds(entries, e.parentId.value) == 1
  {
    ShownCount(entries, rows, e);
    var m, k := multiset(entries)[e], CountIds(Shown(rows), e.parentId.value);
    assert m > 0 && m == Copies(k, m);
    CopiesGrow(k, m);
    assert Copies(0, m) == 0;
    CountPermutes(Shown(rows), entries, e.parentId.value);
  }

  /**
   * The rows show exactly the timeline, nothing lost or repeated, if and only if no comment replies to itself and
   * every id that a reply names as its parent belongs to exactly one comment.
   */
  lemma {:induction false} CountsAgreeIff(entries: seq<Entry>, rows: seq<Row>)
    requires SearchedRows(entries, rows)
    ensures multiset(Shown(rows)) == multiset(entries) <==> Acyclic(entries) && NamedOnce(entries)
  {
    RootedIffAcyclic(entries);
    if multiset(Shown(rows)) == multiset(entries) {
      forall e | e in entries && IsReply(entries, e) ensures CountIds(entries, e.parentId.value) == 1 {
        AgreementNamesOnce(entries, rows, e);
      }
      forall e | e in entries && IsReply(entries, e) ensures HasRoot(entries, e) {
        assert e in multiset(entries);
        ShownHasRoot(entries, rows, e);
      }
    }
    if Acyclic(entries) && NamedOnce(entries) {
      forall e ensures multiset(Shown(rows))[e] == multiset(entries)[e] { RootedIsShownOnce(entries, rows, e); }
    }
  }

  /** With unique ids, if and only if no comment replies to itself. */
  lemma {:induction false} CountsAgree(entries: seq<Entry>, rows: seq<Row>)
    requires UniqueCommentIds(entries) && SearchedRows(entries, rows)
    ensures multiset(Shown(rows)) == multiset(entries) <==> Acyclic(entries)
  {
    forall e | e in entries && IsReply(entries, e) ensures CountIds(entries, e.parentId.value) == 1 {
      FindFinds(entries, e.parentId.value);
      UniqueCounts(entries, Find(entries, e.parentId.value));
    }
    CountsAgreeIff(entries, rows);
  }

  // ---------------------------------------------------------------- two ways to disagree

  /** Two comments that reply to each other are lost. */
  lemma {:induction false} CircleIsLost(rows: seq<Row>)
    requires RowsOf([Entry(Comment, "a", Some("b"), "1", ""), Entry(Comment, "b", Some("a"), "2", "")], rows)
    ensures rows == []
  {
    var a, b := Entry(Comment, "a", Some("b"), "1", ""), Entry(Comment, "b", Some("a"), "2", "");
    var entries := [a, b];
    assert entries[0] == a && entries[1] == b && a.id in CommentIds(entries) && b.id in CommentIds(entries);
    forall e ensures e !in TopLevel(entries, entries) { TopLevelMember(entries, entries, e); }
    assert TopLevel(entries, entries) == [];
  }

  /** Two top-level comments `c` and `d` of one id, and a reply to that id. */
  ghost predicate SharedParent(e: seq<Entry>) {
    && |e| == 3 && (forall i :: 0 <= i < 3 ==> e[i].kind.Comment?)
    && e[0].id == e[1].id && e[0].id != "" && e[2].id != e[0].id
    && e[0].parentId == None && e[1].parentId == None && e[2].parentId == Some(e[0].id)
  }

  lemma {:induction false} SharedParentRooted(e: seq<Entry>)
    requires SharedParent(e)
    ensures e[0].id in CommentIds(e) && Acyclic(e)
  {
    var p := e[0].id;
    assert e[0] in e && e[2] in e && p in CommentIds(e);
    FindFinds(e, p);
    assert Ancestor(e, e[0], 0) == Some(e[0]) && RepliesTo(e, e[2], e[0], 1);
    assert IsRoot(e, e[0]) && HasRoot(e, e[2]);
    RootedIffAcyclic(e);
  }

  lemma {:induction false} SharedParentEnds(e: seq<Entry>, root: Entry)
    requires SharedParent(e) && IsRoot(e, root)
    ensures Ends(e, [root.id])
  {
    assert e[0] in e;
    forall w | IsChain(e, w) && w[0] == root.id ensures Distinct(w) {
      if |w| > 1 {
        assert w[0 + 1] in KidIds(e, w[0]);
        var x := KidOf(e, w[1], w[0]);
        if |w| > 2 {
          assert w[1 + 1] in KidIds(e, w[1]);
          var y := KidOf(e, w[2], w[1]);
        }
      }
    }
    SearchEndsIff(e, root.id);
  }

  /** If `a` and `b` are the only comments of this id, counting the id is counting them. */
  lemma {:induction false} CountBoth(s: seq<Entry>, id: string, a: Entry, b: Entry)
    requires a.kind.Comment? && b.kind.Comment? && a.id == b.id == id
    requires forall e :: e in s && e.kind.Comment? && e.id == id ==> e == a || e == b
    ensures CountIds(s, id) == multiset(s)[a] + if a == b then 0 else multiset(s)[b]
    decreases |s|
  {
    if s != [] {
      var n := |s| - 1;
      assert s == s[..n] + [s[n]];
      CountBoth(s[..n], id, a, b);
    }
  }

  lemma {:induction false} SameTwo(s: seq<Entry>, t: seq<Entry>, id: string, a: Entry, b: Entry)
    requires a.kind.Comment? && b.kind.Comment? && a.id == b.id == id
    requires forall e :: e in s && e.kind.Comment? && e.id == id ==> e == a || e == b
    requires forall e :: e in t && e.kind.Comment? && e.id == id ==> e == a || e == b
    requires multiset(s)[a] == multiset(t)[a] && multiset(s)[b] == multiset(t)[b]
    ensures CountIds(s, id) == CountIds(t, id)
  {
    CountBoth(s, id, a, b);
    CountBoth(t, id, a, b);
  }

  lemma {:induction false} SharedTwice(e: seq<Entry>)
    requires SharedParent(e)
    ensures CountIds(e, e[0].id) == 2
    ensures multiset(e)[e[2]] == 1
  {
    assert e == [e[0]] + ([e[1]] + [e[2]]);
    CountTwo(e[0], e[1], e[2], e[0].id);
    CountsAdd([e[0]], [e[1]] + [e[2]], e[2]);
    CountsAdd([e[1]], [e[2]], e[2]);
  }

  lemma {:induction false} OnlyFirstTwo(e: seq<Entry>, x: Entry)
    requires SharedParent(e) && x in e && x.kind.Comment? && x.id == e[0].id
    ensures x == e[0] || x == e[1]
  {
    var i :| 0 <= i < |e| && e[i] == x;
  }

  lemma {:induction false} TopIsShown(entries: seq<Entry>, rows: seq<Row>, x: Entry)
    requires SearchedRows(entries, rows) && x.parentId == None
    ensures multiset(Shown(rows))[x] == multiset(entries)[x]
  {
    ShownCount(entries, rows, x);
  }

  lemma {:induction false} SharedParentShown(e: seq<Entry>, rows: seq<Row>)
    requires SharedParent(e) && SearchedRows(e, rows)
    ensures CountIds(Shown(rows), e[0].id) == CountIds(e, e[0].id)
  {
    var id := e[0].id;
    forall x | x in Shown(rows) && x.kind.Comment? && x.id == id ensures x == e[0] || x == e[1] {
      ShownIsLoaded(e, rows, x);
      OnlyFirstTwo(e, x);
    }
    forall x | x in e && x.kind.Comment? && x.id == id ensures x == e[0] || x == e[1] { OnlyFirstTwo(e, x); }
    TopIsShown(e, rows, e[0]);
    TopIsShown(e, rows, e[1]);
    SameTwo(Shown(rows), e, id, e[0], e[1]);
  }

  lemma {:induction false} CountTwo(a: Entry, b: Entry, c: Entry, id: string)
    requires a.kind.Comment? && b.kind.Comment? && a.id == b.id == id && c.id != id
    ensures CountIds([a] + ([b] + [c]), id) == 2
  {
    CountConcat([a], [b] + [c], id);
    CountConcat([b], [c], id);
    CountOne(a, id);
    CountOne(b, id);
    CountOne(c, id);
  }

  /** Every search ends and no comment replies to itself, but the reply is shown below both. */
  lemma {:induction false} SharedParentRepeats(e: seq<Entry>, rows: seq<Row>)
    requires SharedParent(e) && SearchedRows(e, rows)
    ensures Acyclic(e) && (forall root :: IsRoot(e, root) ==> Ends(e, [root.id]))
    ensures multiset(Shown(rows))[e[2]] == 2 && multiset(e)[e[2]] == 1
  {
    forall root | IsRoot(e, root) ensures Ends(e, [root.id]) { SharedParentEnds(e, root); }
    SharedParentRooted(e);
    SharedParentShown(e, rows);
    SharedTwice(e);
    ShownCount(e, rows, e[2]);
    CopiesAdd(1, 1, 1);
    CopiesGrow(1, 1);
  }
}
