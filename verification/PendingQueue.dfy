/** The chat pending-task queue (packages/core/chat/pending.ts). */
module PendingQueue {
  import opened Lists

  datatype Task = Task(taskId: string, status: string, createdAt: string,
                       messageId: Option<string>, content: Option<string>)

  /** An absent property and one holding `undefined` are the same here. */
  datatype Pending = Pending(taskId: Option<string>, status: Option<string>, createdAt: Option<string>,
                             messageId: Option<string>, content: Option<string>,
                             supportsQueue: Option<bool>, queuedTasks: Option<seq<Task>>)

  const EMPTY := Pending(None, None, None, None, None, None, None)

  /** What the host decides: how a timestamp parses, and how the collation ranks ids. */
  datatype Locale = Locale(parse: string -> Option<int>, rank: string -> real)

  // ---------------------------------------------------------------- the queue order

  /** `compareQueuedTasks(left, right) <= 0`. */
  predicate NotAfter(l: Locale, left: Task, right: Task) {
    var a, b := l.parse(left.createdAt), l.parse(right.createdAt);
    if a.Some? && b.Some? && a.value != b.value then a.value < b.value
    else l.rank(left.taskId) <= l.rank(right.taskId)
  }

  function Order(l: Locale): (Task, Task) -> bool {
    (x, y) => NotAfter(l, x, y)
  }

  predicate Rich(t: Task) {
    t.messageId.Some? && t.messageId.value != ""
  }

  function TaskIds(s: seq<Task>): seq<string> {
    seq(|s|, i requires 0 <= i < |s| => s[i].taskId)
  }

  /** Task ids in the order of their first appearance. */
  function FirstIds(s: seq<Task>): seq<string> {
    if s == [] then []
    else
      var n := |s| - 1;
      var ids := FirstIds(s[..n]);
      if s[n].taskId in ids then ids else ids + [s[n].taskId]
  }

  /** The observation kept for a task: its last rich one, or else its first. */
  function Pick(s: seq<Task>, id: string): Task
    requires id in FirstIds(s)
  {
    var n := |s| - 1;
    if s[n].taskId == id && Rich(s[n]) then s[n]
    else if id in FirstIds(s[..n]) then Pick(s[..n], id)
    else s[n]
  }

  function UniqueQueue(s: seq<Task>): seq<Task> {
    var ids := FirstIds(s);
    seq(|ids|, i requires 0 <= i < |ids| => Pick(s, ids[i]))
  }

  /** The loop over a map that remembers the order in which keys were first set. */
  method ComputeUniqueQueue(tasks: seq<Task>) returns (r: seq<Task>)
    ensures r == UniqueQueue(tasks)
  {
    var keys: seq<string> := [];
    var byId: map<string, Task> := map[];
    for i := 0 to |tasks|
      invariant keys == FirstIds(tasks[..i])
      invariant forall id :: id in byId <==> id in keys
      invariant forall id :: id in keys ==> byId[id] == Pick(tasks[..i], id)
    {
      var task := tasks[i];
      ghost var s := tasks[..i + 1];
      assert s[..i] == tasks[..i] && s[i] == task;
      if task.taskId !in byId {
        keys := keys + [task.taskId];
        byId := byId[task.taskId := task];
      } else if Rich(task) {
        byId := byId[task.taskId := task];
      }
    }
    assert tasks[..|tasks|] == tasks;
    r := seq(|keys|, i requires 0 <= i < |keys| && forall j :: 0 <= j < |keys| ==> keys[j] in byId => byId[keys[i]]);
  }

  function NormalizeQueue(l: Locale, s: seq<Task>): seq<Task> {
    Sort(UniqueQueue(s), Order(l))
  }

  function Without(s: seq<Task>, id: string): seq<Task> {
    if s == [] then []
    else
      var n := |s| - 1;
      Without(s[..n], id) + if s[n].taskId == id then [] else [s[n]]
  }

  function FindTask(s: seq<Task>, id: string): Option<Task> {
    if s == [] then None else if s[0].taskId == id then Some(s[0]) else FindTask(s[1..], id)
  }

  // ---------------------------------------------------------------- transitions

  predicate HasHead(p: Pending) {
    p.taskId.Some? && p.taskId.value != ""
  }

  function Queue(p: Pending): seq<Task> {
    if p.queuedTasks.Some? then p.queuedTasks.value else []
  }

  function Known(current: Option<Pending>): Pending {
    if current.Some? then current.value else EMPTY
  }

  /** The properties of a task, followed by the given queue. */
  function Headed(t: Task, supportsQueue: Option<bool>, queue: seq<Task>): Pending {
    Pending(Some(t.taskId), Some(t.status), Some(t.createdAt), t.messageId, t.content, supportsQueue, Some(queue))
  }

  function Or<T>(a: Option<T>, b: Option<T>): Option<T> {
    if a.Some? then a else b
  }

  function OrText(a: Option<string>, b: string): string {
    if a.Some? && a.value != "" then a.value else b
  }

  function DefaultQueued(current: Option<Pending>, task: Task): bool {
    HasHead(Known(current)) && Known(current).taskId.value != task.taskId
  }

  function Enqueue(l: Locale, current: Option<Pending>, task: Task, queuedArg: Option<bool>): Pending {
    var queued := if queuedArg.Some? then queuedArg.value else DefaultQueued(current, task);
    var p := Known(current);
    if !HasHead(p) then
      if queued then EMPTY.(supportsQueue := p.supportsQueue, queuedTasks := Some([task]))
      else Headed(task, p.supportsQueue, NormalizeQueue(l, Without(Queue(p), task.taskId)))
    else if p.taskId.value == task.taskId then
      p.(taskId := Some(task.taskId),
         status := Some(if OrText(p.status, "queued") != "queued" then p.status.value else task.status),
         createdAt := Some(OrText(p.createdAt, task.createdAt)),
         messageId := Or(task.messageId, p.messageId),
         content := Or(task.content, p.content),
         queuedTasks := Some(Without(Queue(p), task.taskId)))
    else if !queued then Headed(task, p.supportsQueue, [])
    else p.(queuedTasks := Some(NormalizeQueue(l, Queue(p) + [task])))
  }

  function Summary(p: Pending): Task
    requires HasHead(p)
  {
    Task(p.taskId.value, if p.status.Some? then p.status.value else "queued",
         if p.createdAt.Some? then p.createdAt.value else "", None, None)
  }

  function Promote(current: Option<Pending>, taskId: string, status: string, createdAt: Option<string>): Pending {
    var p := Known(current);
    var queue := Queue(p);
    if p.taskId == Some(taskId) then
      p.(status := Some(status), queuedTasks := Some(Without(queue, taskId)))
    else
      var promoted := FindTask(queue, taskId);
      if !HasHead(p) || promoted.None? then p
      else
        var head := Summary(p);
        var back := if head.status == "queued" then [head] else [];
        Headed(promoted.value.(status := status, createdAt := OrText(Some(promoted.value.createdAt), OrText(createdAt, ""))),
               p.supportsQueue, UniqueQueue(back + Without(queue, taskId)))
  }

  function Remove(current: Option<Pending>, taskId: string): Pending {
    var p := Known(current);
    if !HasHead(p) then EMPTY
    else if p.taskId.value != taskId then p.(queuedTasks := Some(Without(Queue(p), taskId)))
    else
      var queue := UniqueQueue(Without(Queue(p), taskId));
      if queue == [] then EMPTY else Headed(queue[0], p.supportsQueue, queue[1..])
  }

  function Prioritize(current: Option<Pending>, taskId: string): Pending {
    var p := Known(current);
    if !HasHead(p) then EMPTY
    else
      var selected := FindTask(Queue(p), taskId);
      if selected.None? then p
      else p.(queuedTasks := Some([selected.value] + Without(Queue(p), taskId)))
  }

  datatype Event =
    | Enqueued(task: Task, queued: Option<bool>)
    | Promoted(id: string, status: string, createdAt: Option<string>)
    | Removed(id: string)
    | Prioritized(id: string)

  function Step(l: Locale, current: Option<Pending>, e: Event): Pending {
    match e
    case Enqueued(task, queued) => Enqueue(l, current, task, queued)
    case Promoted(id, status, createdAt) => Promote(current, id, status, createdAt)
    case Removed(id) => Remove(current, id)
    case Prioritized(id) => Prioritize(current, id)
  }

  /** The cache entry after a run of events; it may start out missing. */
  function Run(l: Locale, current: Option<Pending>, events: seq<Event>): Option<Pending> {
    if events == [] then current
    else Some(Step(l, Run(l, current, events[..|events| - 1]), events[|events| - 1]))
  }

  // ---------------------------------------------------------------- facts about the list operations

  ghost predicate DistinctIds(s: seq<Task>) {
    forall i, j :: 0 <= i < j < |s| ==> s[i].taskId != s[j].taskId
  }

  ghost predicate HasId(s: seq<Task>, id: string) {
    exists i :: 0 <= i < |s| && s[i].taskId == id
  }

  lemma {:induction false} FirstIdsFacts(s: seq<Task>, id: string)
    ensures id in FirstIds(s) <==> HasId(s, id)
    ensures Distinct(FirstIds(s))
    decreases |s|
  {
    if s != [] {
      var n := |s| - 1;
      FirstIdsFacts(s[..n], id);
      FirstIdsFacts(s[..n], s[n].taskId);
      if HasId(s, id) && s[n].taskId != id {
        var i :| 0 <= i < |s| && s[i].taskId == id;
        assert s[..n][i].taskId == id;
      }
      if HasId(s[..n], id) {
        var i :| 0 <= i < n && s[..n][i].taskId == id;
        assert s[i].taskId == id;
      }
    }
  }

  lemma {:induction false} PickFacts(s: seq<Task>, id: string)
    requires id in FirstIds(s)
    ensures Pick(s, id) in s && Pick(s, id).taskId == id
    ensures Rich(Pick(s, id)) <==> exists t :: t in s && t.taskId == id && Rich(t)
    decreases |s|
  {
    var n := |s| - 1;
    assert s == s[..n] + [s[n]];
    if !(s[n].taskId == id && Rich(s[n])) {
      if id in FirstIds(s[..n]) {
        PickFacts(s[..n], id);
        if exists t :: t in s && t.taskId == id && Rich(t) {
          var t :| t in s && t.taskId == id && Rich(t);
          assert t in s[..n];
        }
      } else {
        FirstIdsFacts(s[..n], id);
        assert forall i :: 0 <= i < n ==> s[..n][i].taskId != id;
      }
    }
  }

  /** One row per task, and for each task the kept observation. */
  lemma {:induction false} UniqueFacts(s: seq<Task>)
    ensures DistinctIds(UniqueQueue(s)) && Distinct(UniqueQueue(s))
    ensures forall t :: t in UniqueQueue(s) <==> t.taskId in FirstIds(s) && t == Pick(s, t.taskId)
    ensures forall id :: HasId(UniqueQueue(s), id) <==> HasId(s, id)
  {
    var ids, u := FirstIds(s), UniqueQueue(s);
    forall i | 0 <= i < |u| ensures u[i].taskId == ids[i] && u[i] == Pick(s, ids[i]) { PickFacts(s, ids[i]); }
    FirstIdsFacts(s, "");
    forall id ensures HasId(u, id) <==> HasId(s, id) {
      FirstIdsFacts(s, id);
      if id in ids {
        var i :| 0 <= i < |ids| && ids[i] == id;
        assert u[i].taskId == id;
      }
    }
    forall t: Task | t.taskId in ids && t == Pick(s, t.taskId) ensures t in u {
      var i :| 0 <= i < |ids| && ids[i] == t.taskId;
      assert u[i] == t;
    }
  }

  lemma {:induction false} WithoutFacts(s: seq<Task>, id: string)
    ensures forall t :: t in Without(s, id) <==> t in s && t.taskId != id
    ensures DistinctIds(s) ==> DistinctIds(Without(s, id))
    decreases |s|
  {
    if s != [] {
      var n := |s| - 1;
      assert s == s[..n] + [s[n]];
      WithoutFacts(s[..n], id);
      var r := Without(s[..n], id);
      if DistinctIds(s) {
        forall i | 0 <= i < |r| ensures r[i].taskId != s[n].taskId {
          assert r[i] in r;
          var k :| 0 <= k < n && s[..n][k] == r[i];
          assert s[k] == r[i];
        }
      }
    }
  }

  lemma {:induction false} HasIdMember(s: seq<Task>, id: string)
    ensures HasId(s, id) <==> exists t :: t in s && t.taskId == id
  {
    if t :| t in s && t.taskId == id {
      var i :| 0 <= i < |s| && s[i] == t;
      assert s[i].taskId == id;
    }
    if HasId(s, id) {
      var i :| 0 <= i < |s| && s[i].taskId == id;
      assert s[i] in s;
    }
  }

  lemma {:induction false} WithoutHasId(s: seq<Task>, gone: string, id: string)
    ensures HasId(Without(s, gone), id) <==> HasId(s, id) && id != gone
  {
    WithoutFacts(s, gone);
    HasIdMember(s, id);
    HasIdMember(Without(s, gone), id);
    if t :| t in s && t.taskId == id { assert id != gone ==> t in Without(s, gone); }
  }

  lemma {:induction false} FindFacts(s: seq<Task>, id: string)
    ensures FindTask(s, id).Some? <==> HasId(s, id)
    ensures FindTask(s, id).Some? ==> FindTask(s, id).value in s && FindTask(s, id).value.taskId == id
  {
    if s != [] {
      FindFacts(s[1..], id);
      if HasId(s, id) && s[0].taskId != id {
        var i :| 0 <= i < |s| && s[i].taskId == id;
        assert s[1..][i - 1].taskId == id;
      }
      if HasId(s[1..], id) {
        var i :| 0 <= i < |s| - 1 && s[1..][i].taskId == id;
        assert s[i + 1].taskId == id;
      }
    }
  }

  lemma {:induction false} SortFacts(l: Locale, s: seq<Task>)
    requires DistinctIds(s)
    ensures DistinctIds(Sort(s, Order(l)))
    ensures forall id :: HasId(Sort(s, Order(l)), id) <==> HasId(s, id)
  {
    var r := Sort(s, Order(l));
    forall t ensures t in r <==> t in s { SortMember(s, Order(l), t); }
    forall id ensures HasId(r, id) <==> HasId(s, id) { HasIdMember(r, id); HasIdMember(s, id); }
    SortDistinct(s, Order(l));
    forall i, j | 0 <= i < j < |r| ensures r[i].taskId != r[j].taskId {
      assert r[i] in s && r[j] in s && r[i] != r[j];
    }
  }

  lemma {:induction false} NormalizeFacts(l: Locale, s: seq<Task>)
    ensures DistinctIds(NormalizeQueue(l, s))
    ensures forall id :: HasId(NormalizeQueue(l, s), id) <==> HasId(s, id)
  {
    UniqueFacts(s);
    SortFacts(l, UniqueQueue(s));
  }

  lemma {:induction false} HasIdConcat(s: seq<Task>, t: seq<Task>, id: string)
    ensures HasId(s + t, id) <==> HasId(s, id) || HasId(t, id)
  {
    HasIdMember(s, id);
    HasIdMember(t, id);
    HasIdMember(s + t, id);
  }

  // ---------------------------------------------------------------- what every run keeps

  /** Queued ids are distinct and the head is not queued behind itself. */
  ghost predicate WellFormed(current: Option<Pending>) {
    DistinctIds(Queue(Known(current)))
    && (Known(current).taskId.Some? ==> !HasId(Queue(Known(current)), Known(current).taskId.value))
  }

  lemma {:induction false} StepKeepsWellFormed(l: Locale, current: Option<Pending>, e: Event)
    requires WellFormed(current)
    ensures WellFormed(Some(Step(l, current, e)))
  {
    match e
    case Enqueued(task, queued) => EnqueueKeepsWellFormed(l, current, task, queued);
    case Promoted(id, status, createdAt) => PromoteKeepsWellFormed(current, id, status, createdAt);
    case Removed(id) => RemoveKeepsWellFormed(current, id);
    case Prioritized(id) => PrioritizeKeepsWellFormed(current, id);
  }

  lemma {:induction false} EnqueueKeepsWellFormed(l: Locale, current: Option<Pending>, task: Task, queued: Option<bool>)
    requires WellFormed(current)
    ensures WellFormed(Some(Enqueue(l, current, task, queued)))
  {
    var p, q := Known(current), Queue(Known(current));
    var id := task.taskId;
    if !HasHead(p) {
      var s := Without(q, id);
      assert !HasId(NormalizeQueue(l, s), id) by {
        WithoutHasId(q, id, id);
        NormalizeFacts(l, s);
      }
      NormalizeDistinct(l, s);
    } else if p.taskId.value == id {
      WithoutFacts(q, id);
      WithoutHasId(q, id, id);
    } else {
      var s := q + [task];
      assert !HasId(NormalizeQueue(l, s), p.taskId.value) by {
        HasIdConcat(q, [task], p.taskId.value);
        NormalizeFacts(l, s);
      }
      NormalizeDistinct(l, s);
    }
  }

  lemma {:induction false} NormalizeDistinct(l: Locale, s: seq<Task>)
    ensures DistinctIds(NormalizeQueue(l, s))
  {
    NormalizeFacts(l, s);
  }

  lemma {:induction false} PromoteKeepsWellFormed(current: Option<Pending>, id: string, status: string, createdAt: Option<string>)
    requires WellFormed(current)
    ensures WellFormed(Some(Promote(current, id, status, createdAt)))
  {
    var p, q := Known(current), Queue(Known(current));
    WithoutFacts(q, id);
    WithoutHasId(q, id, id);
    FindFacts(q, id);
    if HasHead(p) {
      var back := if Summary(p).status == "queued" then [Summary(p)] else [];
      UniqueFacts(back + Without(q, id));
      HasIdConcat(back, Without(q, id), id);
    }
  }

  lemma {:induction false} RemoveKeepsWellFormed(current: Option<Pending>, id: string)
    requires WellFormed(current)
    ensures WellFormed(Some(Remove(current, id)))
  {
    var p, q := Known(current), Queue(Known(current));
    WithoutFacts(q, id);
    if p.taskId.Some? { WithoutHasId(q, id, p.taskId.value); }
    UniqueFacts(Without(q, id));
  }

  lemma {:induction false} PrioritizeKeepsWellFormed(current: Option<Pending>, id: string)
    requires WellFormed(current)
    ensures WellFormed(Some(Prioritize(current, id)))
  {
    var p, q := Known(current), Queue(Known(current));
    WithoutFacts(q, id);
    WithoutHasId(q, id, id);
    FindFacts(q, id);
    if HasHead(p) && FindTask(q, id).Some? {
      WithoutHasId(q, id, p.taskId.value);
      HasIdConcat([FindTask(q, id).value], Without(q, id), p.taskId.value);
    }
  }

  /** From a missing or well-formed entry, no run queues a task twice or behind itself. */
  lemma {:induction false} RunKeepsWellFormed(l: Locale, current: Option<Pending>, events: seq<Event>)
    requires WellFormed(current)
    ensures WellFormed(Run(l, current, events))
    decreases |events|
  {
    if events != [] {
      RunKeepsWellFormed(l, current, events[..|events| - 1]);
      StepKeepsWellFormed(l, Run(l, current, events[..|events| - 1]), events[|events| - 1]);
    }
  }

  // ---------------------------------------------------------------- exact accounting

  /** This id is the head or waits behind it. */
  ghost predicate Tracks(p: Pending, id: string) {
    p.taskId == Some(id) || HasId(Queue(p), id)
  }

  /** The three ways a client stops tracking a task. */
  ghost predicate Drops(p: Pending, e: Event, id: string)
    requires HasHead(p)
  {
    match e
    // It is removed,
    case Removed(gone) => gone == id
    // a different task answers as not queued and replaces everything,
    case Enqueued(task, queued) => queued == Some(false) && task.taskId != p.taskId.value && task.taskId != id
    // or it is the head, another queued task starts, and it was itself no longer waiting.
    case Promoted(next, _, _) =>
      p.taskId.value == id && next != id && HasId(Queue(p), next) && p.status.Some? && p.status.value != "queued"
    case Prioritized(_) => false
  }

  /** With a head, an event tracks the enqueued task, drops exactly what `Drops` says, and leaves every other id. */
  lemma {:induction false} StepAccounts(l: Locale, p: Pending, e: Event, id: string)
    requires WellFormed(Some(p)) && HasHead(p)
    ensures Tracks(Step(l, Some(p), e), id)
       <==> (e.Enqueued? && e.task.taskId == id) || (Tracks(p, id) && !Drops(p, e, id))
  {
    match e
    case Enqueued(task, queued) => EnqueueAccounts(l, p, task, queued, id);
    case Promoted(next, status, createdAt) => PromoteAccounts(p, next, status, createdAt, id);
    case Removed(gone) => RemoveAccounts(p, gone, id);
    case Prioritized(next) => PrioritizeAccounts(p, next, id);
  }

  lemma {:induction false} EnqueueAccounts(l: Locale, p: Pending, task: Task, queued: Option<bool>, id: string)
    requires WellFormed(Some(p)) && HasHead(p)
    ensures Tracks(Enqueue(l, Some(p), task, queued), id)
       <==> task.taskId == id || (Tracks(p, id) && !Drops(p, Enqueued(task, queued), id))
  {
    var q := Queue(p);
    if p.taskId.value == task.taskId {
      WithoutHasId(q, task.taskId, id);
    } else if queued != Some(false) {
      NormalizedHasId(l, q, task, id);
    }
  }

  lemma {:induction false} NormalizedHasId(l: Locale, q: seq<Task>, task: Task, id: string)
    ensures HasId(NormalizeQueue(l, q + [task]), id) <==> HasId(q, id) || task.taskId == id
  {
    NormalizeFacts(l, q + [task]);
    HasIdConcat(q, [task], id);
    HasIdMember([task], id);
  }

  lemma {:induction false} PromoteAccounts(p: Pending, next: string, status: string, createdAt: Option<string>, id: string)
    requires WellFormed(Some(p)) && HasHead(p)
    ensures Tracks(Promote(Some(p), next, status, createdAt), id)
       <==> Tracks(p, id) && !Drops(p, Promoted(next, status, createdAt), id)
  {
    var q := Queue(p);
    WithoutHasId(q, next, id);
    FindFacts(q, next);
    if p.taskId.value != next && FindTask(q, next).Some? {
      BackAccounts(if Summary(p).status == "queued" then [Summary(p)] else [], Without(q, next), id);
    }
  }

  lemma {:induction false} BackAccounts(back: seq<Task>, rest: seq<Task>, id: string)
    requires |back| <= 1
    ensures HasId(UniqueQueue(back + rest), id) <==> (back != [] && back[0].taskId == id) || HasId(rest, id)
  {
    UniqueFacts(back + rest);
    HasIdConcat(back, rest, id);
    HasIdMember(back, id);
  }

  lemma {:induction false} RemoveAccounts(p: Pending, gone: string, id: string)
    requires WellFormed(Some(p)) && HasHead(p)
    ensures Tracks(Remove(Some(p), gone), id) <==> Tracks(p, id) && id != gone
  {
    var q := Queue(p);
    WithoutHasId(q, gone, id);
    if p.taskId.value == gone {
      var u := UniqueQueue(Without(q, gone));
      UniqueFacts(Without(q, gone));
      if u != [] {
        assert u == [u[0]] + u[1..];
        HasIdConcat([u[0]], u[1..], id);
        HasIdMember([u[0]], id);
      }
    }
  }

  lemma {:induction false} PrioritizeAccounts(p: Pending, next: string, id: string)
    requires WellFormed(Some(p)) && HasHead(p)
    ensures Tracks(Prioritize(Some(p), next), id) <==> Tracks(p, id)
  {
    var q := Queue(p);
    FindFacts(q, next);
    if FindTask(q, next).Some? {
      WithoutHasId(q, next, id);
      HasIdConcat([FindTask(q, next).value], Without(q, next), id);
      HasIdMember([FindTask(q, next).value], id);
    }
  }

  /** Without a head, an entry that is only a queue is rebuilt, cleared or, on a promotion, left as it is. */
  lemma {:induction false} HeadlessAccounts(l: Locale, current: Option<Pending>, e: Event, id: string)
    requires WellFormed(current) && !HasHead(Known(current))
    ensures Tracks(Step(l, current, e), id) <==> match e
      case Enqueued(task, queued) =>
        id == task.taskId || (queued != Some(true) && HasId(Queue(Known(current)), id))
      case Promoted(_, _, _) => Tracks(Known(current), id)
      case Removed(_) => false
      case Prioritized(_) => false
  {
    var q := Queue(Known(current));
    match e
    case Enqueued(task, queued) =>
      WithoutHasId(q, task.taskId, id);
      NormalizeFacts(l, Without(q, task.taskId));
      HasIdMember([task], id);
    case Promoted(next, _, _) =>
      WithoutHasId(q, next, id);
    case Removed(_) =>
    case Prioritized(_) =>
  }

  // ---------------------------------------------------------------- order

  lemma {:induction false} WithoutAbsent(s: seq<Task>, id: string)
    requires !HasId(s, id)
    ensures Without(s, id) == s
    decreases |s|
  {
    if s != [] {
      var n := |s| - 1;
      assert s[n].taskId != id;
      assert !HasId(s[..n], id) by {
        forall i | 0 <= i < n ensures s[..n][i].taskId != id { assert s[i].taskId != id; }
      }
      WithoutAbsent(s[..n], id);
      assert s == s[..n] + [s[n]];
    }
  }

  /** A queue of distinct ids is already unique. */
  lemma {:induction false} UniqueKeeps(s: seq<Task>)
    requires DistinctIds(s)
    ensures UniqueQueue(s) == s
  {
    FirstIdsKeeps(s);
    forall i | 0 <= i < |s| ensures UniqueQueue(s)[i] == s[i] {
      FirstIdsFacts(s, s[i].taskId);
      PickFacts(s, s[i].taskId);
    }
  }

  lemma {:induction false} FirstIdsKeeps(s: seq<Task>)
    requires DistinctIds(s)
    ensures FirstIds(s) == TaskIds(s)
    decreases |s|
  {
    if s != [] {
      var n := |s| - 1;
      FirstIdsKeeps(s[..n]);
      FirstIdsFacts(s[..n], s[n].taskId);
      assert TaskIds(s) == TaskIds(s[..n]) + [s[n].taskId];
    }
  }

  /** When the head goes, the first waiting task takes its place and the others keep their order. */
  lemma {:induction false} RemoveHeadShifts(p: Pending)
    requires WellFormed(Some(p)) && HasHead(p) && Queue(p) != []
    ensures Remove(Some(p), p.taskId.value) == Headed(Queue(p)[0], p.supportsQueue, Queue(p)[1..])
  {
    WithoutAbsent(Queue(p), p.taskId.value);
    UniqueKeeps(Queue(p));
  }

  /** Prioritizing a waiting task and then removing the head makes it the head; the others keep their order. */
  lemma {:induction false} PrioritizedGoesNext(p: Pending, id: string)
    requires WellFormed(Some(p)) && HasHead(p) && HasId(Queue(p), id)
    ensures var after := Remove(Some(Prioritize(Some(p), id)), p.taskId.value);
      && after.taskId == Some(id)
      && Queue(after) == Without(Queue(p), id)
      && exists t :: t in Queue(p) && t.taskId == id && after == Headed(t, p.supportsQueue, Queue(after))
  {
    var p' := Prioritize(Some(p), id);
    PrioritizeKeepsWellFormed(Some(p), id);
    FindFacts(Queue(p), id);
    RemoveHeadShifts(p');
  }

  /** An answer about the head itself never puts a started task back to waiting, and loses no preview. */
  lemma {:induction false} HeadNeverDowngrades(l: Locale, p: Pending, task: Task, queued: Option<bool>)
    requires WellFormed(Some(p)) && HasHead(p) && p.taskId.value == task.taskId
    ensures var after := Enqueue(l, Some(p), task, queued);
      && (OrText(p.status, "queued") != "queued" ==> after.status == p.status)
      && (OrText(p.createdAt, "") != "" ==> after.createdAt == p.createdAt)
      && (OrText(p.status, "queued") == "queued" ==> after.status == Some(task.status))
      && (OrText(p.createdAt, "") == "" ==> after.createdAt == Some(task.createdAt))
      && after.messageId == (if task.messageId.Some? then task.messageId else p.messageId)
      && after.content == (if task.content.Some? then task.content else p.content)
      && Queue(after) == Queue(p) && after.taskId == p.taskId && after.supportsQueue == p.supportsQueue
  {
    WithoutAbsent(Queue(p), task.taskId);
  }

  /** A started task takes the head's place; a head that was still waiting returns to the front of the queue. */
  lemma {:induction false} PromoteSwapsHead(p: Pending, id: string, status: string, createdAt: Option<string>)
    requires WellFormed(Some(p)) && HasHead(p) && p.taskId.value != id && HasId(Queue(p), id)
    ensures var after := Promote(Some(p), id, status, createdAt);
      var back := if p.status.Some? && p.status.value != "queued" then []
                  else [Task(p.taskId.value, "queued", OrText(p.createdAt, ""), None, None)];
      && after.taskId == Some(id) && after.status == Some(status) && after.supportsQueue == p.supportsQueue
      && Queue(after) == back + Without(Queue(p), id)
      && exists t :: t in Queue(p) && t.taskId == id && after.messageId == t.messageId && after.content == t.content
  {
    var q := Queue(p);
    FindFacts(q, id);
    WithoutFacts(q, id);
    WithoutHasId(q, id, p.taskId.value);
    BackKeeps(if Summary(p).status == "queued" then [Summary(p)] else [], Without(q, id));
  }

  lemma {:induction false} BackKeeps(back: seq<Task>, rest: seq<Task>)
    requires |back| <= 1 && DistinctIds(rest) && (back != [] ==> !HasId(rest, back[0].taskId))
    ensures UniqueQueue(back + rest) == back + rest
  {
    assert DistinctIds(back + rest);
    UniqueKeeps(back + rest);
  }

  /**
   * A new head is an observed row: the one just enqueued, the first waiting one after a removal, or the queued
   * row that is promoted, with the status of the event and, if the row has no time, the event's.
   */
  lemma {:induction false} HeadIsObserved(l: Locale, current: Option<Pending>, e: Event)
    requires WellFormed(current)
    requires Step(l, current, e).taskId != Known(current).taskId && HasHead(Step(l, current, e))
    ensures var before, after := Known(current), Step(l, current, e);
      exists t :: (if e.Enqueued? then t == e.task else t in Queue(before))
        && after == Headed(if e.Promoted? then t.(status := e.status, createdAt := after.createdAt.value) else t,
                           before.supportsQueue, Queue(after))
        && (e.Promoted? ==> t.taskId == e.id && after.createdAt.Some?)
        && (e.Promoted? && t.createdAt != "" ==> after.createdAt == Some(t.createdAt))
        && (e.Promoted? && t.createdAt == "" && e.createdAt.Some? ==> after.createdAt == e.createdAt)
        && (e.Removed? ==> before.taskId == Some(e.id) && t == Queue(before)[0])
  {
    var before, q := Known(current), Queue(Known(current));
    match e
    case Enqueued(task, _) => assert Step(l, current, e) == Headed(task, before.supportsQueue, Queue(Step(l, current, e)));
    case Promoted(id, _, _) => FindFacts(q, id);
    case Removed(id) => RemoveHeadShifts(before);
    case Prioritized(_) =>
  }

  /** What the server supports is never forgotten while anything is tracked. */
  lemma {:induction false} SupportSurvives(l: Locale, current: Option<Pending>, e: Event)
    ensures Step(l, current, e) == EMPTY || Step(l, current, e).supportsQueue == Known(current).supportsQueue
  {
  }

  /** An event about the head's own start changes its status and nothing else. */
  lemma {:induction false} HeadStartsInPlace(p: Pending, status: string, createdAt: Option<string>)
    requires WellFormed(Some(p)) && HasHead(p)
    ensures Promote(Some(p), p.taskId.value, status, createdAt) == p.(status := Some(status), queuedTasks := Some(Queue(p)))
  {
    WithoutAbsent(Queue(p), p.taskId.value);
  }

  /** Rows are never made up: a queued row was queued before, was just observed, or summarizes the old head. */
  lemma {:induction false} RowsAreObserved(l: Locale, current: Option<Pending>, e: Event, row: Task)
    requires WellFormed(current) && row in Queue(Step(l, current, e))
    ensures || row in Queue(Known(current)) || (e.Enqueued? && row == e.task)
            || (e.Promoted? && HasHead(Known(current)) && row == Summary(Known(current)))
  {
    var p, q := Known(current), Queue(Known(current));
    match e
    case Enqueued(task, queued) =>
      WithoutFacts(q, task.taskId);
      var s := if HasHead(p) then q + [task] else Without(q, task.taskId);
      NormalizeMembers(l, s, row);
    case Promoted(id, _, _) =>
      WithoutFacts(q, id);
      if HasHead(p) {
        var back := if Summary(p).status == "queued" then [Summary(p)] else [];
        UniqueMembers(back + Without(q, id), row);
      }
    case Removed(id) =>
      WithoutFacts(q, id);
      UniqueMembers(Without(q, id), row);
    case Prioritized(id) =>
      WithoutFacts(q, id);
      FindFacts(q, id);
  }

  lemma {:induction false} UniqueMembers(s: seq<Task>, row: Task)
    ensures row in UniqueQueue(s) ==> row in s
  {
    UniqueFacts(s);
    if row in UniqueQueue(s) { PickFacts(s, row.taskId); }
  }

  lemma {:induction false} NormalizeMembers(l: Locale, s: seq<Task>, row: Task)
    ensures row in NormalizeQueue(l, s) ==> row in s
  {
    SortMember(UniqueQueue(s), Order(l), row);
    UniqueMembers(s, row);
  }

  // ---------------------------------------------------------------- confluence

  function EnqueueAll(l: Locale, p: Pending, tasks: seq<Task>): Pending {
    if tasks == [] then p
    else Enqueue(l, Some(EnqueueAll(l, p, tasks[..|tasks| - 1])), tasks[|tasks| - 1], Some(true))
  }

  /**
   * No task with an unparsable time ranks, by id, between a later task and an earlier one whose ids are
   * the other way round. Holds in particular when every time parses.
   */
  ghost predicate Comparable(l: Locale, s: seq<Task>) {
    forall a, b, c :: a in s && b in s && c in s ==> !Straddles(l, a, b, c)
  }

  ghost predicate Straddles(l: Locale, a: Task, b: Task, c: Task) {
    var ta, tb, tc := l.parse(a.createdAt), l.parse(b.createdAt), l.parse(c.createdAt);
    ta.Some? && tb.None? && tc.Some? && tc.value < ta.value
    && l.rank(a.taskId) <= l.rank(b.taskId) <= l.rank(c.taskId)
  }

  /** The collation tells different ids apart. */
  ghost predicate RanksIds(l: Locale) {
    forall a, b :: l.rank(a) == l.rank(b) ==> a == b
  }

  /** Per task, the rich observations agree with one another and so do the sparse ones. */
  ghost predicate Consistent(s: seq<Task>) {
    forall t, u :: t in s && u in s && t.taskId == u.taskId && (Rich(t) <==> Rich(u)) ==> t == u
  }

  /** The comparator ranks these rows consistently exactly when they are `Comparable`. */
  lemma {:induction false} OrderIsTotalIff(l: Locale, s: seq<Task>)
    ensures TotalPreorderOn(s, Order(l)) <==> Comparable(l, s)
  {
    if Comparable(l, s) {
      forall x, y, z | x in s && y in s && z in s && Order(l)(x, y) && Order(l)(y, z) ensures Order(l)(x, z) {
        assert !Straddles(l, x, y, z) && !Straddles(l, z, x, y) && !Straddles(l, y, z, x);
      }
    }
    if TotalPreorderOn(s, Order(l)) {
      forall a, b, c | a in s && b in s && c in s ensures !Straddles(l, a, b, c) {
        assert Order(l)(a, b) && Order(l)(b, c) ==> Order(l)(a, c);
      }
    }
  }

  /** Which row a task keeps depends only on which rows were seen. */
  lemma {:induction false} UniqueIsASet(s: seq<Task>, t: seq<Task>)
    requires Consistent(s)
    requires forall x :: x in s <==> x in t
    ensures forall x :: x in UniqueQueue(s) <==> x in UniqueQueue(t)
  {
    UniqueFacts(s);
    UniqueFacts(t);
    forall x: Task ensures x in UniqueQueue(s) <==> x in UniqueQueue(t) {
      FirstIdsFacts(s, x.taskId);
      FirstIdsFacts(t, x.taskId);
      HasIdMember(s, x.taskId);
      HasIdMember(t, x.taskId);
      if x.taskId in FirstIds(s) {
        PickFacts(s, x.taskId);
        PickFacts(t, x.taskId);
      }
    }
  }

  /** Normalizing depends only on which rows were seen. */
  lemma {:induction false} NormalizeIsASet(l: Locale, s: seq<Task>, t: seq<Task>)
    requires RanksIds(l) && Comparable(l, s) && Consistent(s)
    requires forall x :: x in s <==> x in t
    ensures NormalizeQueue(l, s) == NormalizeQueue(l, t)
  {
    UniqueIsASet(s, t);
    NormalizeSorts(l, s);
    NormalizeSorts(l, t);
    var a, b := NormalizeQueue(l, s), NormalizeQueue(l, t);
    forall x ensures x in a <==> x in b {
      SortMember(UniqueQueue(s), Order(l), x);
      SortMember(UniqueQueue(t), Order(l), x);
    }
    SortedIsUnique(a, b, Order(l));
  }

  /** A normalized queue is sorted by time, then id, and holds for each task the observation that is kept. */
  lemma {:induction false} NormalizeSorts(l: Locale, s: seq<Task>)
    requires Comparable(l, s)
    ensures Sorted(NormalizeQueue(l, s), Order(l)) && DistinctIds(NormalizeQueue(l, s))
    ensures Comparable(l, NormalizeQueue(l, s))
    ensures forall x :: x in NormalizeQueue(l, s) <==> x.taskId in FirstIds(s) && x == Pick(s, x.taskId)
  {
    var u := UniqueQueue(s);
    UniqueFacts(s);
    forall x: Task | x.taskId in FirstIds(s) ensures Pick(s, x.taskId) in s { PickFacts(s, x.taskId); }
    assert forall x :: x in u ==> x in s;
    OrderIsTotalIff(l, u);
    SortSorts(u, Order(l));
    NormalizeFacts(l, s);
    forall x ensures x in NormalizeQueue(l, s) <==> x in u { SortMember(u, Order(l), x); }
  }

  /** Normalizing before one more observation arrives changes nothing. */
  lemma {:induction false} NormalizeAbsorbs(l: Locale, s: seq<Task>, t: Task)
    requires RanksIds(l) && Comparable(l, s + [t]) && Consistent(s + [t])
    ensures NormalizeQueue(l, NormalizeQueue(l, s) + [t]) == NormalizeQueue(l, s + [t])
  {
    var n := NormalizeQueue(l, s);
    assert forall x :: x in s ==> x in s + [t];
    NormalizeSorts(l, s);
    forall x | x in n ensures x in s { PickFacts(s, x.taskId); }
    NormalizeSorts(l, s + [t]);
    NormalizeSorts(l, n + [t]);
    var a, b := NormalizeQueue(l, n + [t]), NormalizeQueue(l, s + [t]);
    forall x: Task ensures x in a <==> x in b {
      if x.taskId == t.taskId || x.taskId in FirstIds(s) { AbsorbPick(l, s, t, x.taskId); }
      AbsorbIds(l, s, t, x.taskId);
    }
    SortedIsUnique(a, b, Order(l));
  }

  lemma {:induction false} AbsorbIds(l: Locale, s: seq<Task>, t: Task, id: string)
    ensures id in FirstIds(s + [t]) <==> id in FirstIds(NormalizeQueue(l, s) + [t])
    ensures id in FirstIds(s + [t]) <==> id in FirstIds(s) || id == t.taskId
  {
    var n := NormalizeQueue(l, s);
    NormalizeFacts(l, s);
    FirstIdsFacts(s + [t], id);
    FirstIdsFacts(n + [t], id);
    FirstIdsFacts(s, id);
    HasIdConcat(s, [t], id);
    HasIdConcat(n, [t], id);
    HasIdMember([t], id);
  }

  lemma {:induction false} AbsorbPick(l: Locale, s: seq<Task>, t: Task, id: string)
    requires Comparable(l, s)
    requires id == t.taskId || id in FirstIds(s)
    ensures id in FirstIds(s + [t]) && id in FirstIds(NormalizeQueue(l, s) + [t])
    ensures Pick(s + [t], id) == Pick(NormalizeQueue(l, s) + [t], id)
  {
    var n := NormalizeQueue(l, s);
    AbsorbIds(l, s, t, id);
    assert (s + [t])[..|s|] == s && (n + [t])[..|n|] == n;
    NormalizeSorts(l, s);
    NormalizeFacts(l, s);
    FirstIdsFacts(s, id);
    FirstIdsFacts(n, id);
    if id in FirstIds(s) {
      PickFacts(n, id);
      assert Pick(n, id) in n;
    }
  }

  /** Enqueueing observations one by one normalizes the queue and all of them at once. */
  lemma {:induction false} EnqueueAllNormalizes(l: Locale, p: Pending, tasks: seq<Task>)
    requires HasHead(p) && RanksIds(l)
    requires Comparable(l, Queue(p) + tasks) && Consistent(Queue(p) + tasks)
    requires forall t :: t in tasks ==> t.taskId != p.taskId.value
    requires tasks != []
    ensures EnqueueAll(l, p, tasks) == p.(queuedTasks := Some(NormalizeQueue(l, Queue(p) + tasks)))
    decreases |tasks|
  {
    var n := |tasks| - 1;
    var before, t := tasks[..n], tasks[n];
    assert tasks == before + [t] && t in tasks;
    assert Queue(p) + tasks == Queue(p) + before + [t];
    assert forall x :: x in Queue(p) + before ==> x in Queue(p) + tasks;
    if n == 0 {
      assert Queue(p) + before == Queue(p);
    } else {
      EnqueueAllNormalizes(l, p, before);
      NormalizeAbsorbs(l, Queue(p) + before, t);
    }
  }

  /** An observation that was made, and rich if any of its task was. */
  ghost predicate Kept(s: seq<Task>, x: Task) {
    x in s && forall y :: y in s && y.taskId == x.taskId && Rich(y) ==> Rich(x)
  }

  /**
   * However the network orders or repeats the observations of waiting tasks, the entry ends up the same:
   * sorted by time and then id, one row a task, rich where a rich one was seen.
   */
  lemma {:induction false} EnqueueIsConfluent(l: Locale, p: Pending, one: seq<Task>, other: seq<Task>)
    requires HasHead(p) && RanksIds(l)
    requires Comparable(l, Queue(p) + one) && Consistent(Queue(p) + one)
    requires forall t :: t in one ==> t.taskId != p.taskId.value
    requires forall t :: t in one <==> t in other
    ensures EnqueueAll(l, p, one) == EnqueueAll(l, p, other)
    ensures one != [] ==> Sorted(Queue(EnqueueAll(l, p, one)), Order(l)) && DistinctIds(Queue(EnqueueAll(l, p, one)))
    ensures one != [] ==> forall x :: x in Queue(EnqueueAll(l, p, one)) ==> Kept(Queue(p) + one, x)
    ensures one != [] ==> forall y :: y in Queue(p) + one ==> HasId(Queue(EnqueueAll(l, p, one)), y.taskId)
  {
    assert |other| > 0 ==> other[0] in other;
    if one != [] {
      assert one[0] in one && other != [];
      var s, t := Queue(p) + one, Queue(p) + other;
      assert forall x :: x in s <==> x in t;
      EnqueueAllNormalizes(l, p, one);
      EnqueueAllNormalizes(l, p, other);
      NormalizeIsASet(l, s, t);
      NormalizeSorts(l, s);
      NormalizeFacts(l, s);
      forall x | x in NormalizeQueue(l, s) ensures Kept(s, x) {
        PickFacts(s, x.taskId);
      }
      forall y | y in s ensures HasId(NormalizeQueue(l, s), y.taskId) { HasIdMember(s, y.taskId); }
    }
  }

  /** Two observations of a new waiting task commute exactly if they are the same or only one of them is rich. */
  lemma {:induction false} ObservationsCommuteIff(l: Locale, p: Pending, a: Task, b: Task)
    requires HasHead(p) && RanksIds(l) && a.taskId == b.taskId != p.taskId.value
    requires Comparable(l, Queue(p) + [a, b]) && Consistent(Queue(p)) && !HasId(Queue(p), a.taskId)
    ensures EnqueueAll(l, p, [a, b]) == EnqueueAll(l, p, [b, a]) <==> a == b || Rich(a) != Rich(b)
  {
    if a == b || Rich(a) != Rich(b) {
      HasIdMember(Queue(p), a.taskId);
      assert forall t :: t in [a, b] <==> t in [b, a];
      assert Consistent(Queue(p) + [a, b]);
      EnqueueIsConfluent(l, p, [a, b], [b, a]);
    } else {
      NewObservations(l, p, a, b);
      NewObservations(l, p, b, a);
    }
  }

  lemma {:induction false} NewObservations(l: Locale, p: Pending, a: Task, b: Task)
    requires HasHead(p) && a.taskId == b.taskId != p.taskId.value && !HasId(Queue(p), a.taskId) && Rich(a) == Rich(b)
    ensures forall x :: x in Queue(EnqueueAll(l, p, [a, b])) && x.taskId == a.taskId ==> x == if Rich(a) then b else a
    ensures HasId(Queue(EnqueueAll(l, p, [a, b])), a.taskId)
  {
    var one := NormalizeQueue(l, Queue(p) + [a]);
    var after := EnqueueAll(l, p, [a, b]);
    assert [a, b][..1] == [a] && [a][..0] == [];
    assert EnqueueAll(l, p, [a]) == p.(queuedTasks := Some(one));
    assert Queue(after) == NormalizeQueue(l, one + [b]);
    FirstIdsFacts(Queue(p), a.taskId);
    LastPick(l, Queue(p), a);
    LastPick(l, one, b);
    FirstIdsFacts(one, a.taskId);
    PickFacts(one, a.taskId);
  }

  /** The row kept for the id of an observation that comes last. */
  lemma {:induction false} LastPick(l: Locale, q: seq<Task>, t: Task)
    ensures var r := NormalizeQueue(l, q + [t]);
      && HasId(r, t.taskId)
      && forall x :: x in r && x.taskId == t.taskId ==>
           x == if Rich(t) || t.taskId !in FirstIds(q) then t else Pick(q, t.taskId)
  {
    var s := q + [t];
    assert s[..|q|] == q && s[|q|] == t;
    UniqueFacts(s);
    NormalizeFacts(l, s);
    assert HasId(s, t.taskId) by { assert s[|q|].taskId == t.taskId; }
    forall x ensures x in NormalizeQueue(l, s) <==> x in UniqueQueue(s) { SortMember(UniqueQueue(s), Order(l), x); }
  }

  /** A time that does not parse can make the comparator run in a circle. */
  lemma UnparsableOrderIsCircular()
    ensures var l := Locale((s: string) => if s == "late" then Some(2) else if s == "early" then Some(1) else None,
                            (s: string) => if s == "a" then 1.0 else if s == "b" then 2.0 else 3.0);
      var a, b, c := Task("a", "queued", "late", None, None), Task("b", "queued", "?", None, None),
                     Task("c", "queued", "early", None, None);
      NotAfter(l, a, b) && NotAfter(l, b, c) && NotAfter(l, c, a) && !NotAfter(l, a, c)
  {
  }
}
