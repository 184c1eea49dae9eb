/** When the search for replies ends (apps/mobile/lib/timeline-thread.ts). */
module ThreadSearch {
  import opened Lists
  import opened TimelineThread

  /** A chain of replies: each id is that of a reply to the one before it. */
  ghost predicate IsChain(entries: seq<Entry>, w: seq<string>) {
    w != [] && forall i :: 0 <= i < |w| - 1 ==> w[i + 1] in KidIds(entries, w[i])
  }

  /** No chain of replies below the id comes twice by the same id. */
  ghost predicate NoChainRepeats(entries: seq<Entry>, id: string) {
    forall w :: IsChain(entries, w) && w[0] == id ==> Distinct(w)
  }

  // ---------------------------------------------------------------- short chains let it end

  /** The ids queued while the whole of `queue` is taken off. */
  ghost function Level(entries: seq<Entry>, queue: seq<string>): seq<string> {
    if queue == [] then [] else KidIds(entries, queue[0]) + Level(entries, queue[1..])
  }

  lemma {:induction false} LevelMember(entries: seq<Entry>, queue: seq<string>, y: string) returns (x: string)
    requires y in Level(entries, queue)
    ensures x in queue && y in KidIds(entries, x)
  {
    if y in KidIds(entries, queue[0]) {
      x := queue[0];
    } else {
      x := LevelMember(entries, queue[1..], y);
    }
  }

  lemma {:induction false} WholeQueue(entries: seq<Entry>, queue: seq<string>, rest: seq<string>)
    ensures QueueAfter(entries, queue + rest, |queue|) == rest + Level(entries, queue)
    decreases |queue|
  {
    if queue == [] {
      assert queue + rest == rest && rest + [] == rest;
    } else {
      var kids, later := KidIds(entries, queue[0]), queue[1..];
      assert (queue + rest)[1..] == later + rest;
      ConcatAssoc(later, rest, kids);
      WholeQueue(entries, later, rest + kids);
      ConcatAssoc(rest, kids, Level(entries, later));
    }
  }

  lemma {:induction false} TurnsAdd(entries: seq<Entry>, queue: seq<string>, a: nat, b: nat)
    ensures QueueAfter(entries, queue, a + b) == QueueAfter(entries, QueueAfter(entries, queue, a), b)
    decreases a
  {
    if a > 0 && queue != [] { TurnsAdd(entries, queue[1..] + KidIds(entries, queue[0]), a - 1, b); }
  }

  ghost predicate ChainsFit(entries: seq<Entry>, queue: seq<string>, d: nat) {
    forall w :: IsChain(entries, w) && w[0] in queue ==> |w| <= d
  }

  lemma {:induction false} LevelFits(entries: seq<Entry>, queue: seq<string>, d: nat)
    requires d > 0 && ChainsFit(entries, queue, d)
    ensures ChainsFit(entries, Level(entries, queue), d - 1)
  {
    forall w | IsChain(entries, w) && w[0] in Level(entries, queue) ensures |w| <= d - 1 {
      var x := LevelMember(entries, queue, w[0]);
      assert IsChain(entries, [x] + w);
    }
  }

  lemma {:induction false} EndsWithin(entries: seq<Entry>, queue: seq<string>, d: nat)
    requires ChainsFit(entries, queue, d)
    ensures Ends(entries, queue)
    decreases d
  {
    if queue == [] {
      assert EndsAfter(entries, queue, 0);
    } else {
      assert IsChain(entries, [queue[0]]);
      LevelFits(entries, queue, d);
      EndsWithin(entries, Level(entries, queue), d - 1);
      var n: nat :| EndsAfter(entries, Level(entries, queue), n);
      assert queue + [] == queue && [] + Level(entries, queue) == Level(entries, queue);
      WholeQueue(entries, queue, []);
      TurnsAdd(entries, queue, |queue|, n);
      assert EndsAfter(entries, queue, |queue| + n);
    }
  }

  lemma {:induction false} DistinctChainFits(entries: seq<Entry>, w: seq<string>)
    requires IsChain(entries, w) && Distinct(w)
    ensures |w| <= |entries| + 1
  {
    var tail := w[1..];
    forall x | x in tail ensures x in Ids(entries) {
      var i :| 0 <= i < |tail| && tail[i] == x;
      assert w[i + 1] in KidIds(entries, w[i]);
      var kids := Kids(entries, entries, w[i]);
      var k :| 0 <= k < |kids| && kids[k].id == x;
      KidsMember(entries, entries, w[i], kids[k]);
      var e :| 0 <= e < |entries| && entries[e] == kids[k];
      assert Ids(entries)[e] == x;
    }
    DistinctFits(tail, Ids(entries));
  }

  // ---------------------------------------------------------------- an ending bounds the chains

  lemma {:induction false} ChainFitsTurns(entries: seq<Entry>, queue: seq<string>, n: nat, w: seq<string>)
    requires EndsAfter(entries, queue, n) && IsChain(entries, w) && w[0] in queue
    ensures |w| <= n
    decreases n
  {
    var later := queue[1..] + KidIds(entries, queue[0]);
    assert queue == [queue[0]] + queue[1..];
    if w[0] in queue[1..] {
      ChainFitsTurns(entries, later, n - 1, w);
    } else if |w| > 1 {
      assert w[0 + 1] in KidIds(entries, w[0]);
      assert IsChain(entries, w[1..]);
      ChainFitsTurns(entries, later, n - 1, w[1..]);
    }
  }

  /** A chain that comes back to one of its ids can go round again. */
  lemma {:induction false} GoesRound(entries: seq<Entry>, w: seq<string>, i: nat, n: nat) returns (long: seq<string>)
    requires IsChain(entries, w) && i < |w| - 1 && w[i] == w[|w| - 1]
    ensures IsChain(entries, long) && long[0] == w[0] && |long| > n
    decreases n - |w|
  {
    if |w| > n {
      long := w;
    } else {
      var round := w[i + 1..];
      var next := w + round;
      forall k | 0 <= k < |next| - 1 ensures next[k + 1] in KidIds(entries, next[k]) {
        if k >= |w| - 1 {
          var j := k - |w| + 1 + i;
          assert next[k] == w[j] && next[k + 1] == w[j + 1];
        }
      }
      long := GoesRound(entries, next, |w| - 1, n);
    }
  }

  lemma {:induction false} EndingForbidsRepeats(entries: seq<Entry>, id: string)
    requires Ends(entries, [id])
    ensures NoChainRepeats(entries, id)
  {
    var n: nat :| EndsAfter(entries, [id], n);
    forall w | IsChain(entries, w) && w[0] == id ensures Distinct(w) {
      if i, j :| 0 <= i < j < |w| && w[i] == w[j] {
        var long := GoesRound(entries, w[..j + 1], i, n);
        ChainFitsTurns(entries, [id], n, long);
      }
    }
  }

  /** The search below an id ends if and only if no chain of replies below it comes twice by the same id. */
  lemma {:induction false} SearchEndsIff(entries: seq<Entry>, id: string)
    ensures Ends(entries, [id]) <==> NoChainRepeats(entries, id)
  {
    if NoChainRepeats(entries, id) {
      forall w | IsChain(entries, w) && w[0] in [id] ensures |w| <= |entries| + 1 { DistinctChainFits(entries, w); }
      EndsWithin(entries, [id], |entries| + 1);
    } else if Ends(entries, [id]) {
      EndingForbidsRepeats(entries, id);
    }
  }

  // ---------------------------------------------------------------- unique ids, and one that repeats

  lemma {:induction false} KidOf(entries: seq<Entry>, id: string, parent: string) returns (e: Entry)
    requires id in KidIds(entries, parent)
    ensures e in entries && IsKid(entries, e, parent) && e.id == id
  {
    var kids := Kids(entries, entries, parent);
    var k :| 0 <= k < |kids| && kids[k].id == id;
    e := kids[k];
    KidsMember(entries, entries, parent, e);
  }

  lemma {:induction false} ChainBelowRoot(entries: seq<Entry>, root: Entry, w: seq<string>, i: nat, j: nat)
    requires UniqueCommentIds(entries) && IsRoot(entries, root)
    requires IsChain(entries, w) && w[0] == root.id && i < j < |w|
    ensures w[i] != w[j]
    decreases i
  {
    assert w[j - 1 + 1] in KidIds(entries, w[j - 1]);
    var y := KidOf(entries, w[j], w[j - 1]);
    if w[i] == w[j] {
      if i == 0 {
        SameIdSameComment(entries, root, y);
      } else {
        assert w[i - 1 + 1] in KidIds(entries, w[i - 1]);
        var x := KidOf(entries, w[i], w[i - 1]);
        SameIdSameComment(entries, x, y);
        ChainBelowRoot(entries, root, w, i - 1, j - 1);
      }
    }
  }

  /** Unique ids suffice: the search below a row's entry then ends, cycles elsewhere or not. */
  lemma {:induction false} UniqueIdsEnd(entries: seq<Entry>, root: Entry)
    requires UniqueCommentIds(entries) && IsRoot(entries, root)
    ensures Ends(entries, [root.id])
  {
    forall w | IsChain(entries, w) && w[0] == root.id ensures Distinct(w) {
      forall i, j | 0 <= i < j < |w| ensures w[i] != w[j] { ChainBelowRoot(entries, root, w, i, j); }
    }
    SearchEndsIff(entries, root.id);
  }

  /** A comment and a reply to it under the same id keep the search busy for ever. */
  lemma {:induction false} RepeatedIdNeverEnds(n: nat)
    ensures var root := Entry(Comment, "c", None, "", "");
      var entries := [root, Entry(Comment, "c", Some("c"), "", "")];
      IsRoot(entries, root) && QueueAfter(entries, ["c"], n) == ["c"]
    decreases n
  {
    var root, reply := Entry(Comment, "c", None, "", ""), Entry(Comment, "c", Some("c"), "", "");
    var entries := [root, reply];
    assert entries[0] == root && entries[1] == reply;
    assert root.id in CommentIds(entries);
    assert entries[..1] == [root] && [root][..0] == [];
    assert Kids(entries, [root], "c") == [];
    assert Kids(entries, entries, "c") == [reply];
    assert ["c"][1..] + Ids([reply]) == ["c"];
    if n > 0 { RepeatedIdNeverEnds(n - 1); }
  }

  /** Two comments may share an id, and the search still ends. */
  lemma {:induction false} SharedIdEnds()
    ensures var root := Entry(Comment, "c", None, "", "");
      !UniqueCommentIds([root, root]) && IsRoot([root, root], root) && Ends([root, root], ["c"])
  {
    var root := Entry(Comment, "c", None, "", "");
    var entries := [root, root];
    assert entries[0].id == entries[1].id && root == entries[0];
    forall w | IsChain(entries, w) && w[0] == "c" ensures Distinct(w) {
      if |w| > 1 {
        assert w[0 + 1] in KidIds(entries, w[0]);
        var e := KidOf(entries, w[1], w[0]);
      }
    }
    SearchEndsIff(entries, "c");
  }
}
