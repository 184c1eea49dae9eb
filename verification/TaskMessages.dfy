/** Task messages from two channels, merged by sequence number (packages/core/chat/queries.ts). */
module TaskMessages {
  import opened Lists

  datatype Message = Message(number: int, content: string)

  predicate NotAfter(a: Message, b: Message) {
    a.number <= b.number
  }

  predicate HasNumber(s: seq<Message>, n: int) {
    exists i :: 0 <= i < |s| && s[i].number == n
  }

  /** The incoming messages whose number is not known yet. */
  function FreshOf(existing: seq<Message>, incoming: seq<Message>): seq<Message> {
    if incoming == [] then []
    else
      var n := |incoming| - 1;
      FreshOf(existing, incoming[..n]) + if HasNumber(existing, incoming[n].number) then [] else [incoming[n]]
  }

  function Merge(existing: seq<Message>, incoming: seq<Message>): seq<Message> {
    if incoming == [] then existing
    else
      var more := FreshOf(existing, incoming);
      if more == [] then existing else Sort(existing + more, NotAfter)
  }

  function MergeAll(batches: seq<seq<Message>>): seq<Message> {
    if batches == [] then [] else Merge(MergeAll(batches[..|batches| - 1]), batches[|batches| - 1])
  }

  ghost predicate DistinctNumbers(s: seq<Message>) {
    forall i, j :: 0 <= i < j < |s| ==> s[i].number != s[j].number
  }

  ghost predicate Strict(s: seq<Message>) {
    forall i, j :: 0 <= i < j < |s| ==> s[i].number < s[j].number
  }

  /** One of the batches brought this message. */
  ghost predicate Seen(batches: seq<seq<Message>>, m: Message) {
    exists i :: 0 <= i < |batches| && m in batches[i]
  }

  /** All batches mean the same message by a number. */
  ghost predicate Agree(batches: seq<seq<Message>>) {
    forall a, b :: Seen(batches, a) && Seen(batches, b) && a.number == b.number ==> a == b
  }

  lemma {:induction false} FreshMember(existing: seq<Message>, incoming: seq<Message>, m: Message)
    ensures m in FreshOf(existing, incoming) <==> m in incoming && !HasNumber(existing, m.number)
    decreases |incoming|
  {
    if incoming != [] {
      var n := |incoming| - 1;
      assert incoming == incoming[..n] + [incoming[n]];
      FreshMember(existing, incoming[..n], m);
    }
  }

  lemma {:induction false} FreshDistinct(existing: seq<Message>, incoming: seq<Message>)
    requires DistinctNumbers(incoming)
    ensures DistinctNumbers(FreshOf(existing, incoming))
    decreases |incoming|
  {
    if incoming != [] {
      var n := |incoming| - 1;
      FreshDistinct(existing, incoming[..n]);
      var r := FreshOf(existing, incoming[..n]);
      forall i | 0 <= i < |r| ensures r[i].number != incoming[n].number {
        FreshMember(existing, incoming[..n], r[i]);
        var j :| 0 <= j < n && incoming[..n][j] == r[i];
        assert incoming[j] == r[i];
      }
    }
  }

  /** Numbers repeat after sorting exactly when they repeat before. */
  lemma {:induction false} SortKeepsNumbers(s: seq<Message>)
    ensures DistinctNumbers(Sort(s, NotAfter)) <==> DistinctNumbers(s)
  {
    SortPermutes(s, NotAfter);
    var r := Sort(s, NotAfter);
    if DistinctNumbers(s) { NumbersPermuted(s, r); }
    if DistinctNumbers(r) { NumbersPermuted(r, s); }
  }

  lemma {:induction false} NumbersPermuted(s: seq<Message>, r: seq<Message>)
    requires DistinctNumbers(s) && multiset(r) == multiset(s)
    ensures DistinctNumbers(r)
  {
    assert Distinct(s) by { forall i, j | 0 <= i < j < |s| ensures s[i] != s[j] { assert s[i].number != s[j].number; } }
    forall x ensures multiset(r)[x] <= 1 { DistinctCount(s, x); }
    OnceEach(r);
    forall i, j | 0 <= i < j < |r| ensures r[i].number != r[j].number {
      assert r[i] in multiset(s) && r[j] in multiset(s) && r[i] != r[j];
      var a :| 0 <= a < |s| && s[a] == r[i];
      var b :| 0 <= b < |s| && s[b] == r[j];
      assert a != b;
    }
  }

  /** What was there stays, message for message. */
  lemma {:induction false} ExistingWins(existing: seq<Message>, incoming: seq<Message>, m: Message)
    ensures m in Merge(existing, incoming) <==> m in existing || (m in incoming && !HasNumber(existing, m.number))
  {
    var more := FreshOf(existing, incoming);
    FreshMember(existing, incoming, m);
    SortMember(existing + more, NotAfter, m);
  }

  /** A batch that brings no new number returns the very list it was given. */
  lemma {:induction false} NothingNewIsIdentity(existing: seq<Message>, incoming: seq<Message>)
    requires forall m :: m in incoming ==> HasNumber(existing, m.number)
    ensures Merge(existing, incoming) == existing
  {
    var more := FreshOf(existing, incoming);
    if more != [] { FreshMember(existing, incoming, more[0]); }
  }

  lemma {:induction false} ConcatNumbers(existing: seq<Message>, incoming: seq<Message>)
    requires DistinctNumbers(existing)
    ensures DistinctNumbers(existing + FreshOf(existing, incoming)) <==> DistinctNumbers(FreshOf(existing, incoming))
  {
    var more := FreshOf(existing, incoming);
    var all := existing + more;
    forall i, j | 0 <= i < |existing| <= j < |all| ensures all[i].number != all[j].number {
      FreshMember(existing, incoming, more[j - |existing|]);
    }
    if DistinctNumbers(all) {
      forall i, j | 0 <= i < j < |more| ensures more[i].number != more[j].number {
        assert all[|existing| + i].number != all[|existing| + j].number;
      }
    }
  }

  /**
   * The merged list is strictly ordered by number if and only if the new part of the batch repeats no number:
   * nothing removes a repetition inside one batch.
   */
  lemma {:induction false} StrictIff(existing: seq<Message>, incoming: seq<Message>)
    requires Strict(existing)
    ensures Strict(Merge(existing, incoming)) <==> DistinctNumbers(FreshOf(existing, incoming))
  {
    var more := FreshOf(existing, incoming);
    assert DistinctNumbers(existing);
    if more != [] {
      ConcatNumbers(existing, incoming);
      SortKeepsNumbers(existing + more);
      SortSorts(existing + more, NotAfter);
    }
  }

  /** A batch that repeats a number: both messages come out under it. */
  lemma {:induction false} RepeatedNumberStays(n: int, first: string, second: string)
    ensures var batch := [Message(n, first), Message(n, second)];
      !Strict(Merge([], batch)) && batch[0] in Merge([], batch) && batch[1] in Merge([], batch)
  {
    var batch := [Message(n, first), Message(n, second)];
    assert batch[..1] == [batch[0]] && [batch[0]][..0] == [];
    assert FreshOf([], [batch[0]]) == [batch[0]] && FreshOf([], batch) == batch;
    assert !DistinctNumbers(batch) by { assert batch[0].number == batch[1].number; }
    StrictIff([], batch);
    ExistingWins([], batch, batch[0]);
    ExistingWins([], batch, batch[1]);
  }

  /** The fold of well-formed batches is strictly ordered and holds exactly the messages seen. */
  lemma {:induction false} FoldHoldsSeen(batches: seq<seq<Message>>)
    requires Agree(batches) && forall i :: 0 <= i < |batches| ==> DistinctNumbers(batches[i])
    ensures Strict(MergeAll(batches))
    ensures forall m :: m in MergeAll(batches) <==> Seen(batches, m)
    decreases |batches|
  {
    if batches != [] {
      var n := |batches| - 1;
      var before, last := batches[..n], batches[n];
      forall m ensures Seen(batches, m) <==> Seen(before, m) || m in last { }
      FoldHoldsSeen(before);
      var existing := MergeAll(before);
      FreshDistinct(existing, last);
      StrictIff(existing, last);
      forall m ensures m in Merge(existing, last) <==> Seen(batches, m) {
        ExistingWins(existing, last, m);
        if m in last && HasNumber(existing, m.number) {
          var i :| 0 <= i < |existing| && existing[i].number == m.number;
          assert existing[i] in existing && Seen(before, existing[i]);
        }
      }
    }
  }

  /** Batches merged in any order, with any repetitions, give the same list. */
  lemma {:induction false} MergeIsConfluent(one: seq<seq<Message>>, other: seq<seq<Message>>)
    requires Agree(one) && forall i :: 0 <= i < |one| ==> DistinctNumbers(one[i])
    requires forall i :: 0 <= i < |other| ==> DistinctNumbers(other[i])
    requires forall m :: Seen(one, m) <==> Seen(other, m)
    ensures MergeAll(one) == MergeAll(other)
  {
    FoldHoldsSeen(one);
    FoldHoldsSeen(other);
    SortedIsUnique(MergeAll(one), MergeAll(other), NotAfter);
  }

}
