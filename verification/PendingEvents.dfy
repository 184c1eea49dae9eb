/** What each event leaves in the entry, field by field (packages/core/chat/pending.ts). */
module PendingEvents {
  import opened Lists
  import opened PendingQueue

  /** The entry's own fields are those of this task. */
  ghost predicate ShowsTask(p: Pending, t: Task) {
    && p.taskId == Some(t.taskId) && p.status == Some(t.status) && p.createdAt == Some(t.createdAt)
    && p.messageId == t.messageId && p.content == t.content
  }

  /** The entry shows no task of its own. */
  ghost predicate ShowsNothing(p: Pending) {
    p.taskId == None && p.status == None && p.createdAt == None && p.messageId == None && p.content == None
  }

  ghost predicate SameHead(p: Pending, q: Pending) {
    && p.taskId == q.taskId && p.status == q.status && p.createdAt == q.createdAt
    && p.messageId == q.messageId && p.content == q.content && p.supportsQueue == q.supportsQueue
  }

  /** `r` is `q` without the row of this id, if there is one; the others stay where they were. */
  ghost predicate CutFrom(q: seq<Task>, id: string, r: seq<Task>) {
    && (r == q || HasId(q, id))
    && forall i :: 0 <= i < |q| && q[i].taskId == id ==> r == q[..i] + q[i + 1..]
  }

  /** By time, and by the rank of the id where times are equal or one does not parse. */
  ghost predicate InOrder(l: Locale, q: seq<Task>) {
    forall i, j :: 0 <= i < j < |q| ==>
      var a, b := l.parse(q[i].createdAt), l.parse(q[j].createdAt);
      if a.Some? && b.Some? && a != b then a.value < b.value else l.rank(q[i].taskId) <= l.rank(q[j].taskId)
  }

  lemma {:induction false} WithoutLast(s: seq<Task>, t: Task, id: string)
    ensures Without(s + [t], id) == if t.taskId == id then Without(s, id) else Without(s, id) + [t]
  {
    assert (s + [t])[..|s|] == s;
    assert Without(s, id) + [] == Without(s, id);
  }

  lemma {:induction false} WithoutConcat(s: seq<Task>, t: seq<Task>, id: string)
    ensures Without(s + t, id) == Without(s, id) + Without(t, id)
    decreases |t|
  {
    if t == [] {
      assert s + t == s && Without(s, id) + [] == Without(s, id);
    } else {
      var n := |t| - 1;
      assert t == t[..n] + [t[n]] && s + t == s + t[..n] + [t[n]];
      WithoutConcat(s, t[..n], id);
      WithoutLast(s + t[..n], t[n], id);
      WithoutLast(t[..n], t[n], id);
    }
  }

  lemma {:induction false} WithoutCuts(q: seq<Task>, id: string)
    requires DistinctIds(q)
    ensures CutFrom(q, id, Without(q, id))
  {
    if !HasId(q, id) { WithoutAbsent(q, id); }
    forall i | 0 <= i < |q| && q[i].taskId == id ensures Without(q, id) == q[..i] + q[i + 1..] { WithoutOne(q, i); }
  }

  lemma {:induction false} WithoutOne(q: seq<Task>, i: nat)
    requires DistinctIds(q) && i < |q|
    ensures Without(q, q[i].taskId) == q[..i] + q[i + 1..]
  {
    var id, before, after := q[i].taskId, q[..i], q[i + 1..];
    assert q == before + ([q[i]] + after);
    WithoutConcat(before, [q[i]] + after, id);
    WithoutConcat([q[i]], after, id);
    assert Without([q[i]], id) == [] by { assert [q[i]][..0] == []; }
    assert !HasId(before, id) && !HasId(after, id);
    WithoutAbsent(before, id);
    WithoutAbsent(after, id);
    assert [] + after == after;
  }

  lemma {:induction false} NormalizedInOrder(l: Locale, s: seq<Task>)
    requires Comparable(l, s)
    ensures InOrder(l, NormalizeQueue(l, s))
  {
    NormalizeSorts(l, s);
    var q := NormalizeQueue(l, s);
    forall i, j | 0 <= i < j < |q| ensures NotAfter(l, q[i], q[j]) { assert Order(l)(q[i], q[j]); }
  }

  lemma {:induction false} NormalizedPermutes(l: Locale, s: seq<Task>)
    requires DistinctIds(s)
    ensures multiset(NormalizeQueue(l, s)) == multiset(s)
  {
    UniqueKeeps(s);
    SortPermutes(s, Order(l));
  }

  // ---------------------------------------------------------------- an observation

  /**
   * Without a head, a task that is not queued becomes the head at once, with everything it carries, and the rows
   * of other tasks wait behind it in order; a queued one waits alone, hidden until the head is known.
   */
  lemma {:induction false} IdleSendBecomesHead(l: Locale, current: Option<Pending>, task: Task, queued: Option<bool>)
    requires WellFormed(current) && !HasHead(Known(current))
    ensures var before, after := Known(current), Enqueue(l, current, task, queued);
      && after.supportsQueue == before.supportsQueue
      && (queued == Some(true) ==> ShowsNothing(after) && Queue(after) == [task])
      && (queued != Some(true) ==> ShowsTask(after, task))
      && (queued != Some(true) ==>
            forall x :: multiset(Queue(after))[x] == if x.taskId == task.taskId then 0 else multiset(Queue(before))[x])
      && (queued != Some(true) && Comparable(l, Queue(before)) ==> InOrder(l, Queue(after)))
    ensures task.taskId != "" ==> (HasHead(Enqueue(l, current, task, queued)) <==> queued != Some(true))
  {
    var q := Queue(Known(current));
    WithoutFacts(q, task.taskId);
    NormalizedPermutes(l, Without(q, task.taskId));
    forall x ensures multiset(Without(q, task.taskId))[x] == if x.taskId == task.taskId then 0 else multiset(q)[x] {
      WithoutCount(q, task.taskId, x);
    }
    if Comparable(l, q) { NormalizedInOrder(l, Without(q, task.taskId)); }
  }

  lemma {:induction false} WithoutCount(s: seq<Task>, id: string, x: Task)
    ensures multiset(Without(s, id))[x] == if x.taskId == id then 0 else multiset(s)[x]
    decreases |s|
  {
    if s != [] {
      var n := |s| - 1;
      assert s == s[..n] + [s[n]];
      WithoutCount(s[..n], id, x);
      WithoutLast(s[..n], s[n], id);
    }
  }

  /**
   * Behind another task's head, a task that is not queued replaces everything; a queued one leaves the head alone
   * and joins the queue, where its row is the rich one if only one of the two is, and else the one that was there.
   */
  lemma {:induction false} OtherTaskWaits(l: Locale, p: Pending, task: Task, queued: Option<bool>)
    requires WellFormed(Some(p)) && HasHead(p) && p.taskId.value != task.taskId
    ensures var after := Enqueue(l, Some(p), task, queued);
      && after.supportsQueue == p.supportsQueue
      && (queued == Some(false) ==> ShowsTask(after, task) && Queue(after) == [])
      && (queued != Some(false) ==> SameHead(after, p))
      && (queued != Some(false) ==> forall x :: x in Queue(after) <==>
            if x.taskId != task.taskId then x in Queue(p)
            else if HasId(Queue(p), task.taskId) && (task.messageId == None || task.messageId == Some("")) then x in Queue(p)
            else x == task)
      && (queued != Some(false) && Comparable(l, Queue(p) + [task]) ==> InOrder(l, Queue(after)))
  {
    if queued != Some(false) {
      forall x ensures x in NormalizeQueue(l, Queue(p) + [task]) <==>
        if x.taskId != task.taskId || (HasId(Queue(p), task.taskId) && !Rich(task)) then x in Queue(p) else x == task
      {
        JoinedMember(l, Queue(p), task, x);
      }
      if Comparable(l, Queue(p) + [task]) { NormalizedInOrder(l, Queue(p) + [task]); }
    }
  }

  lemma {:induction false} JoinedMember(l: Locale, q: seq<Task>, task: Task, x: Task)
    requires DistinctIds(q)
    ensures x in NormalizeQueue(l, q + [task]) <==>
      if x.taskId != task.taskId || (HasId(q, task.taskId) && !Rich(task)) then x in q else x == task
  {
    var s := q + [task];
    assert s[..|q|] == q && s[|q|] == task;
    UniqueFacts(s);
    SortMember(UniqueQueue(s), Order(l), x);
    FirstIdsFacts(q, x.taskId);
    FirstIdsFacts(q, task.taskId);
    UniqueKeeps(q);
    UniqueFacts(q);
  }

  // ---------------------------------------------------------------- the other events

  /** A start of a task that is not tracked here, or of any without a head, changes nothing. */
  lemma {:induction false} LateStartIsIgnored(current: Option<Pending>, id: string, status: string, createdAt: Option<string>)
    requires Known(current).taskId != Some(id) && (!HasHead(Known(current)) || !HasId(Queue(Known(current)), id))
    ensures Promote(current, id, status, createdAt) == Known(current)
  {
    FindFacts(Queue(Known(current)), id);
  }

  /** A queued task that starts takes its waiting time along, or the event's if it has none. */
  lemma {:induction false} StartedTaskShown(p: Pending, id: string, status: string, createdAt: Option<string>, i: nat)
    requires WellFormed(Some(p)) && HasHead(p) && p.taskId.value != id && i < |Queue(p)| && Queue(p)[i].taskId == id
    ensures var after, t := Promote(Some(p), id, status, createdAt), Queue(p)[i];
      && after.taskId == Some(id) && after.status == Some(status)
      && after.messageId == t.messageId && after.content == t.content && after.supportsQueue == p.supportsQueue
      && after.createdAt == (if t.createdAt != "" then Some(t.createdAt) else if createdAt.Some? then createdAt else Some(""))
      && Queue(after) == (if p.status.Some? && p.status.value != "queued" then []
           else [Task(p.taskId.value, "queued", if p.createdAt.Some? then p.createdAt.value else "", None, None)])
             + (Queue(p)[..i] + Queue(p)[i + 1..])
  {
    FindsAt(Queue(p), i);
    PromoteSwapsHead(p, id, status, createdAt);
    WithoutOne(Queue(p), i);
  }

  lemma {:induction false} FindsAt(q: seq<Task>, i: nat)
    requires DistinctIds(q) && i < |q|
    ensures FindTask(q, q[i].taskId) == Some(q[i])
  {
    FindFacts(q, q[i].taskId);
  }

  /** A removal takes out the one row and nothing else; of the head, the first waiting row follows; without any, nothing is left. */
  lemma {:induction false} RemoveLeaves(current: Option<Pending>, id: string)
    requires WellFormed(current)
    ensures var before, after := Known(current), Remove(current, id);
      if !HasHead(before) || (before.taskId == Some(id) && Queue(before) == [])
      then ShowsNothing(after) && after.supportsQueue == None && Queue(after) == []
      else if before.taskId == Some(id)
      then ShowsTask(after, Queue(before)[0]) && Queue(after) == Queue(before)[1..] && after.supportsQueue == before.supportsQueue
      else SameHead(after, before) && CutFrom(Queue(before), id, Queue(after))
  {
    var p := Known(current);
    WithoutCuts(Queue(p), id);
    if HasHead(p) && p.taskId.value == id && Queue(p) != [] { RemoveHeadShifts(p); }
  }

  /** A prioritized row goes to the front, the others keep their order, and the head stays. */
  lemma {:induction false} PrioritizeLeaves(current: Option<Pending>, id: string)
    requires WellFormed(current)
    ensures var before, after := Known(current), Prioritize(current, id);
      if !HasHead(before) then ShowsNothing(after) && after.supportsQueue == None && Queue(after) == []
      else
        && SameHead(after, before)
        && (!HasId(Queue(before), id) ==> Queue(after) == Queue(before))
        && forall i :: 0 <= i < |Queue(before)| && Queue(before)[i].taskId == id ==>
             Queue(after) == [Queue(before)[i]] + (Queue(before)[..i] + Queue(before)[i + 1..])
  {
    var q := Queue(Known(current));
    FindFacts(q, id);
    forall i | 0 <= i < |q| && q[i].taskId == id ensures FindTask(q, id) == Some(q[i]) && Without(q, id) == q[..i] + q[i + 1..] {
      FindsAt(q, i);
      WithoutOne(q, i);
    }
  }
}
