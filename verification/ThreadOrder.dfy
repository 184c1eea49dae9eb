/** When a row's replies are in chronological order (apps/mobile/lib/timeline-thread.ts). */
module ThreadOrder {
  import opened Lists
  import opened TimelineThread

  /** `x` stands before `y` in the timeline, which is in order of time. */
  ghost predicate Before(entries: seq<Entry>, x: Entry, y: Entry) {
    exists a, b :: 0 <= a < b < |entries| && entries[a] == x && entries[b] == y
  }

  ghost predicate Chronological(entries: seq<Entry>, out: seq<Entry>) {
    forall i, j :: 0 <= i < j < |out| ==> Before(entries, out[i], out[j])
  }

  /** An earlier reply is nearer to the root; or as near, below the same or an earlier parent. */
  ghost predicate InStep(entries: seq<Entry>, x: Entry, dx: nat, y: Entry, dy: nat) {
    dx < dy || (dx == dy && (Parent(entries, x) == Parent(entries, y)
      || (Parent(entries, x).Some? && Parent(entries, y).Some?
          && Before(entries, Parent(entries, x).value, Parent(entries, y).value))))
  }

  ghost predicate DepthFollowsTime(entries: seq<Entry>, root: Entry) {
    forall x, y, dx: nat, dy: nat ::
      RepliesTo(entries, x, root, dx) && RepliesTo(entries, y, root, dy) && Before(entries, x, y)
      ==> InStep(entries, x, dx, y, dy)
  }

  // ---------------------------------------------------------------- the timeline is an order

  lemma {:induction false} BeforeIsStrict(entries: seq<Entry>, x: Entry, y: Entry)
    requires UniqueCommentIds(entries) && x.kind.Comment? && y.kind.Comment?
    ensures !(Before(entries, x, y) && Before(entries, y, x))
  {
  }

  lemma {:induction false} BeforeIsTotal(entries: seq<Entry>, x: Entry, y: Entry)
    requires x in entries && y in entries && x != y
    ensures Before(entries, x, y) || Before(entries, y, x)
  {
    var a :| 0 <= a < |entries| && entries[a] == x;
    var b :| 0 <= b < |entries| && entries[b] == y;
    assert a != b;
  }

  // ---------------------------------------------------------------- parents of listed replies

  /** At the same distance, parents are listed in the order of their replies. */
  lemma {:induction false} ParentsAscend(entries: seq<Entry>, root: Entry, out: seq<Entry>, i: nat, j: nat, d: nat)
    returns (p: nat, q: nat)
    requires IsThread(entries, root, out) && i < j < |out|
    requires RepliesTo(entries, out[i], root, d) && RepliesTo(entries, out[j], root, d)
    ensures p <= q <= j
    ensures p == q ==> out[i].parentId == out[j].parentId && Parent(entries, out[i]) == Parent(entries, out[j])
    ensures p < q ==> p > 0 && Parent(entries, out[i]) == Some(out[p - 1]) && Parent(entries, out[j]) == Some(out[q - 1])
  {
    p, q := OwnerOf(entries, root, out, i), OwnerOf(entries, root, out, j);
    OwnersInOrder(entries, root, out, i, j);
    OwnerIs(entries, root, out, i, d);
    OwnerIs(entries, root, out, j, d);
  }

  lemma {:induction false} Positions(entries: seq<Entry>, root: Entry, out: seq<Entry>, x: Entry, d: nat) returns (i: nat)
    requires IsThread(entries, root, out) && x in entries && RepliesTo(entries, x, root, d)
    ensures i < |out| && out[i] == x
  {
    RepliesAreDescendants(entries, root, out, x);
    i :| 0 <= i < |out| && out[i] == x;
  }

  // ---------------------------------------------------------------- chronological lists are in step

  lemma {:induction false} ListedInStep(entries: seq<Entry>, root: Entry, out: seq<Entry>,
                                        i: nat, di: nat, j: nat, dj: nat)
    requires IsThread(entries, root, out) && Chronological(entries, out) && i < j < |out|
    requires RepliesTo(entries, out[i], root, di) && RepliesTo(entries, out[j], root, dj)
    ensures InStep(entries, out[i], di, out[j], dj)
  {
    ShallowFirst(entries, root, out, i, di, j, dj);
    if di == dj {
      var p, q := ParentsAscend(entries, root, out, i, j, di);
      if p < q { assert Before(entries, out[p - 1], out[q - 1]); }
    }
  }

  lemma {:induction false} ChronologicalIsInStep(entries: seq<Entry>, root: Entry, out: seq<Entry>)
    requires IsThread(entries, root, out) && Chronological(entries, out)
    ensures DepthFollowsTime(entries, root)
  {
    forall x, y, dx: nat, dy: nat |
      RepliesTo(entries, x, root, dx) && RepliesTo(entries, y, root, dy) && Before(entries, x, y)
      ensures InStep(entries, x, dx, y, dy)
    {
      var i := Positions(entries, root, out, x, dx);
      var j := Positions(entries, root, out, y, dy);
      Listed(entries, root, out, i);
      Listed(entries, root, out, j);
      BeforeIsStrict(entries, x, y);
      assert i <= j;
      if i == j { BeforeIsStrict(entries, x, x); } else { ListedInStep(entries, root, out, i, dx, j, dy); }
    }
  }

  // ---------------------------------------------------------------- lists in step are chronological

  lemma {:induction false} InStepIsChronological(entries: seq<Entry>, root: Entry, out: seq<Entry>, i: nat, j: nat)
    requires IsThread(entries, root, out) && DepthFollowsTime(entries, root) && i < j < |out|
    ensures Before(entries, out[i], out[j])
    decreases j
  {
    Listed(entries, root, out, i);
    Listed(entries, root, out, j);
    ListedFits(entries, root.id, out);
    BeforeIsTotal(entries, out[i], out[j]);
    if Before(entries, out[j], out[i]) {
      var di := ListedReplies(entries, root, out, i);
      var dj := ListedReplies(entries, root, out, j);
      assert InStep(entries, out[j], dj, out[i], di);
      ShallowFirst(entries, root, out, i, di, j, dj);
      NoStepBack(entries, root, out, i, di, j, dj);
    }
  }

  lemma {:induction false} NoStepBack(entries: seq<Entry>, root: Entry, out: seq<Entry>,
                                      i: nat, di: nat, j: nat, dj: nat)
    requires IsThread(entries, root, out) && DepthFollowsTime(entries, root) && i < j < |out|
    requires RepliesTo(entries, out[i], root, di) && RepliesTo(entries, out[j], root, dj) && di == dj
    requires Before(entries, out[j], out[i])
    ensures !InStep(entries, out[j], dj, out[i], di)
    decreases j, 0
  {
    var p, q := ParentsAscend(entries, root, out, i, j, di);
    Listed(entries, root, out, i);
    Listed(entries, root, out, j);
    if p == q {
      SiblingsKeepInputOrder(entries, root, out, i, j);
    } else {
      Listed(entries, root, out, p - 1);
      Listed(entries, root, out, q - 1);
      InStepIsChronological(entries, root, out, p - 1, q - 1);
      BeforeIsStrict(entries, out[p - 1], out[q - 1]);
      BeforeIsStrict(entries, out[q - 1], out[q - 1]);
    }
  }

  /** A row's replies are in chronological order if and only if depth follows time below its entry. */
  lemma {:induction false} ChronologicalIff(entries: seq<Entry>, root: Entry, out: seq<Entry>)
    requires UniqueCommentIds(entries) && IsRoot(entries, root) && BreadthFirst(entries, root.id, out)
    ensures Chronological(entries, out) <==> DepthFollowsTime(entries, root)
  {
    if Chronological(entries, out) {
      ChronologicalIsInStep(entries, root, out);
    } else if DepthFollowsTime(entries, root) {
      var i, j :| 0 <= i < j < |out| && !Before(entries, out[i], out[j]);
      InStepIsChronological(entries, root, out, i, j);
    }
  }

  // ---------------------------------------------------------------- a late direct reply

  /** `c` replies to the reply `a`, and then `b` replies to the root. */
  ghost predicate LateReply(e: seq<Entry>) {
    && |e| == 4 && UniqueCommentIds(e)
    && (forall i :: 0 <= i < 4 ==> e[i].kind.Comment? && e[i].id != "")
    && e[0].parentId == None && e[1].parentId == Some(e[0].id)
    && e[2].parentId == Some(e[1].id) && e[3].parentId == Some(e[0].id)
  }

  lemma {:induction false} LateReplyParents(e: seq<Entry>)
    requires LateReply(e)
    ensures IsRoot(e, e[0]) && Parent(e, e[1]) == Some(e[0]) && Parent(e, e[2]) == Some(e[1]) && Parent(e, e[3]) == Some(e[0])
  {
    assert forall i :: 0 <= i < 4 ==> e[i] in e && e[i].id in CommentIds(e);
    ParentIs(e, e[1], e[0]);
    ParentIs(e, e[2], e[1]);
    ParentIs(e, e[3], e[0]);
  }

  lemma {:induction false} LateReplyDepths(e: seq<Entry>)
    requires LateReply(e)
    ensures RepliesTo(e, e[1], e[0], 1) && RepliesTo(e, e[2], e[0], 2) && RepliesTo(e, e[3], e[0], 1)
  {
    LateReplyParents(e);
    assert Ancestor(e, e[0], 0) == Some(e[0]) && Ancestor(e, e[1], 1) == Some(e[0]);
  }

  /** A direct reply that comes after a nested one is listed before it. */
  lemma {:induction false} LateReplyComesFirst(e: seq<Entry>, out: seq<Entry>)
    requires LateReply(e) && BreadthFirst(e, e[0].id, out)
    ensures Acyclic(e) && !Chronological(e, out)
  {
    LateReplyParents(e);
    LateReplyDepths(e);
    assert HasRoot(e, e[1]) && HasRoot(e, e[2]) && HasRoot(e, e[3]);
    RootedIffAcyclic(e);
    assert Before(e, e[2], e[3]) && !InStep(e, e[2], 2, e[3], 1);
    ChronologicalIff(e, e[0], out);
  }

  /** There is such a timeline, in order of time. */
  lemma {:induction false} LateReplyExample()
    ensures LateReply([Entry(Comment, "r", None, "1", ""), Entry(Comment, "a", Some("r"), "2", ""),
                       Entry(Comment, "c", Some("a"), "3", ""), Entry(Comment, "b", Some("r"), "4", "")])
  {
  }
}
