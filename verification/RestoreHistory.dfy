/** What the persisted restore queues hold, told from the history of a run (packages/core/chat/store.ts). */
module RestoreHistory {
  import opened Lists
  import opened ChatStore

  /** An action and the workspace in which it was taken. */
  datatype Logged = Logged(slug: string, action: Action)

  function Log(s: State, actions: seq<Action>): seq<Logged> {
    if actions == [] then []
    else
      var before := actions[..|actions| - 1];
      Log(s, before) + [Logged(Run(s, before).slug, actions[|actions| - 1])]
  }

  predicate Enqueues(l: Logged, w: string, session: string, id: string) {
    l.slug == w && l.action.EnqueueRestore? && l.action.restore.sessionId == session && l.action.restore.id == id
    && session != "" && id != ""
  }

  predicate Dequeues(l: Logged, w: string, session: string, id: string) {
    l.slug == w && l.action == DequeueRestore(session, id)
  }

  predicate DequeuedBetween(log: seq<Logged>, w: string, session: string, id: string, i: nat, j: nat) {
    exists d :: i < d < j && d < |log| && Dequeues(log[d], w, session, id)
  }

  /**
   * The restore enqueued at `i` still waits: nothing has dequeued it since, and it was not a repetition of one
   * that was waiting then.
   */
  predicate Waits(log: seq<Logged>, w: string, session: string, i: nat)
    requires i < |log|
  {
    && log[i].action.EnqueueRestore?
    && var id := log[i].action.restore.id;
    && Enqueues(log[i], w, session, id)
    && !DequeuedBetween(log, w, session, id, i, |log|)
    && forall j :: 0 <= j < i && Enqueues(log[j], w, session, id) ==> DequeuedBetween(log, w, session, id, j, i)
  }

  /** The restores enqueued before `n` that still wait at the end, oldest first. */
  function Waiting(log: seq<Logged>, w: string, session: string, n: nat): seq<Restore>
    requires n <= |log|
  {
    if n == 0 then []
    else Waiting(log, w, session, n - 1)
         + if Waits(log, w, session, n - 1) then [Canonical(log[n - 1].action.restore)] else []
  }

  /** The stored queue of a session. */
  function Queued(st: Storage, w: string, session: string): seq<Restore> {
    Slot(ReadRestores(st, Key(RestoresKey, w)), session)
  }

  // ---------------------------------------------------------------- one action

  function QueueAfter(q: seq<Restore>, l: Logged, w: string, session: string): seq<Restore> {
    if l.action.EnqueueRestore? && Enqueues(l, w, session, l.action.restore.id) then
      if HasRestore(q, l.action.restore.id) then q else q + [Canonical(l.action.restore)]
    else if l.action.DequeueRestore? && Dequeues(l, w, session, l.action.id) then WithoutRestore(q, l.action.id)
    else q
  }

  lemma {:induction false} CanonicalWithout(q: seq<Restore>, id: string)
    ensures CanonicalQueue(WithoutRestore(q, id)) == WithoutRestore(CanonicalQueue(q), id)
    decreases |q|
  {
    if q != [] {
      var n := |q| - 1;
      assert CanonicalQueue(q)[..n] == CanonicalQueue(q[..n]);
      CanonicalWithout(q[..n], id);
      var r := WithoutRestore(q[..n], id);
      assert CanonicalQueue(r + [q[n]]) == CanonicalQueue(r) + [Canonical(q[n])];
      assert r + [] == r && CanonicalQueue(r) + [] == CanonicalQueue(r);
    }
  }

  lemma {:induction false} CanonicalHas(q: seq<Restore>, id: string)
    ensures HasRestore(CanonicalQueue(q), id) <==> HasRestore(q, id)
  {
    if HasRestore(q, id) {
      var i :| 0 <= i < |q| && q[i].id == id;
      assert CanonicalQueue(q)[i].id == id;
    }
  }

  lemma {:induction false} WithoutAbsentRestore(q: seq<Restore>, id: string)
    requires !HasRestore(q, id)
    ensures WithoutRestore(q, id) == q
    decreases |q|
  {
    if q != [] {
      var n := |q| - 1;
      assert q[n].id != id;
      assert !HasRestore(q[..n], id) by {
        forall i | 0 <= i < n ensures q[..n][i].id != id { assert q[i].id != id; }
      }
      WithoutAbsentRestore(q[..n], id);
      assert q == q[..n] + [q[n]];
    }
  }

  /** The queue of the current workspace, seen through memory. */
  lemma {:induction false} QueuedInMemory(s: State, session: string)
    requires Mirrors(s)
    ensures Queued(s.storage, s.slug, session) == CanonicalQueue(Slot(s.restores, session))
  {
    var q := Slot(s.restores, session);
    assert q == [] ==> CanonicalQueue(q) == [];
    assert |CanonicalQueue(q)| == |q|;
  }

  lemma {:induction false} StepQueue(s: State, a: Action, w: string, session: string)
    requires Mirrors(s)
    ensures Queued(Step(s, a).storage, w, session)
         == QueueAfter(Queued(s.storage, w, session), Logged(s.slug, a), w, session)
  {
    if a.SwitchWorkspace? {
      SwitchKeepsQueue(s, a.slug, w, session);
    } else if w != s.slug {
      OtherQueueStays(s, a, w, session);
    } else if a.Reload? {
      SwitchKeepsStoredQueue(s.storage, s.slug, w, session);
    } else {
      OwnQueueSteps(s, a, session);
    }
  }

  lemma {:induction false} OtherQueueStays(s: State, a: Action, w: string, session: string)
    requires w != s.slug && !a.SwitchWorkspace?
    ensures Queued(Step(s, a).storage, w, session) == Queued(s.storage, w, session)
  {
    OthersUntouched(s, a);
    StaysInWorkspace(s, a);
    assert SameAt(s.storage, Step(s, a).storage, Key(RestoresKey, w));
    ReadsSame(s.storage, Step(s, a).storage, Key(RestoresKey, w));
  }

  lemma {:induction false} OwnQueueSteps(s: State, a: Action, session: string)
    requires Mirrors(s) && !a.SwitchWorkspace? && !a.Reload?
    ensures Queued(Step(s, a).storage, s.slug, session)
         == QueueAfter(Queued(s.storage, s.slug, session), Logged(s.slug, a), s.slug, session)
  {
    StepMirrors(s, a);
    StaysInWorkspace(s, a);
    QueuedInMemory(s, session);
    QueuedInMemory(Step(s, a), session);
    MemoryQueue(s, a, session);
  }

  lemma {:induction false} SwitchKeepsStoredQueue(st: Storage, slug: string, w: string, session: string)
    ensures Queued(Loaded(st, slug).storage, w, session) == Queued(st, w, session)
  {
    var agent := ReadText(st, Key(AgentKey, slug));
    var st1 := FoldDrafts(st, slug, agent);
    FoldDraftsFacts(st, slug, agent);
    FoldUploadsFrame(st1, slug, agent);
    assert SameAt(st, st1, Key(RestoresKey, w)) && SameAt(st1, FoldUploads(st1, slug, agent), Key(RestoresKey, w));
  }

  lemma {:induction false} SwitchKeepsQueue(s: State, slug: string, w: string, session: string)
    ensures Queued(Step(s, SwitchWorkspace(slug)).storage, w, session) == Queued(s.storage, w, session)
  {
    SwitchKeepsStoredQueue(s.storage, slug, w, session);
  }

  lemma {:induction false} MemoryQueue(s: State, a: Action, session: string)
    requires !a.SwitchWorkspace? && !a.Reload?
    ensures CanonicalQueue(Slot(Step(s, a).restores, session))
         == QueueAfter(CanonicalQueue(Slot(s.restores, session)), Logged(s.slug, a), s.slug, session)
  {
    match a
    case EnqueueRestore(r) => QueueGrows(s, r, session);
    case DequeueRestore(k, id) => QueueShrinks(s, k, id, session);
    case _ =>
  }

  lemma {:induction false} QueueGrows(s: State, r: Restore, session: string)
    ensures CanonicalQueue(Slot(Step(s, EnqueueRestore(r)).restores, session))
         == QueueAfter(CanonicalQueue(Slot(s.restores, session)), Logged(s.slug, EnqueueRestore(r)), s.slug, session)
  {
    var q := Slot(s.restores, session);
    CanonicalHas(q, r.id);
    assert CanonicalQueue(q + [r]) == CanonicalQueue(q) + [Canonical(r)];
  }

  lemma {:induction false} QueueShrinks(s: State, k: string, id: string, session: string)
    ensures CanonicalQueue(Slot(Step(s, DequeueRestore(k, id)).restores, session))
         == QueueAfter(CanonicalQueue(Slot(s.restores, session)), Logged(s.slug, DequeueRestore(k, id)), s.slug, session)
  {
    var q := Slot(s.restores, session);
    CanonicalHas(q, id);
    CanonicalWithout(q, id);
    if k == session && !HasRestore(q, id) { WithoutAbsentRestore(q, id); }
  }

  // ---------------------------------------------------------------- the history

  lemma {:induction false} WaitingHas(log: seq<Logged>, w: string, session: string, n: nat, id: string)
    requires n <= |log|
    ensures HasRestore(Waiting(log, w, session, n), id)
       <==> exists i :: 0 <= i < n && Waits(log, w, session, i) && log[i].action.restore.id == id
    decreases n
  {
    if n > 0 {
      WaitingHas(log, w, session, n - 1, id);
      var q, r := Waiting(log, w, session, n - 1), Waiting(log, w, session, n);
      if HasRestore(r, id) {
        var i :| 0 <= i < |r| && r[i].id == id;
        if i < |q| { assert q[i].id == id; }
      }
      if HasRestore(q, id) {
        var i :| 0 <= i < |q| && q[i].id == id;
        assert r[i].id == id;
      }
      if Waits(log, w, session, n - 1) { assert r[|q|].id == log[n - 1].action.restore.id; }
    }
  }

  /** If an enqueue of `id` was not followed by a dequeue, then some enqueue of it still waits. */
  lemma {:induction false} SomeWaits(log: seq<Logged>, w: string, session: string, id: string, j: nat) returns (i: nat)
    requires j < |log| && Enqueues(log[j], w, session, id) && !DequeuedBetween(log, w, session, id, j, |log|)
    ensures i <= j && Waits(log, w, session, i) && log[i].action.restore.id == id
    decreases j
  {
    if Waits(log, w, session, j) {
      i := j;
    } else {
      var k :| 0 <= k < j && Enqueues(log[k], w, session, id) && !DequeuedBetween(log, w, session, id, k, j);
      i := SomeWaits(log, w, session, id, k);
    }
  }

  /** One more logged action changes who waits just as it changes the queue. */
  lemma {:induction false} WaitingExtends(log: seq<Logged>, l: Logged, w: string, session: string)
    ensures Waiting(log + [l], w, session, |log| + 1) == QueueAfter(Waiting(log, w, session, |log|), l, w, session)
  {
    var log' := log + [l];
    assert log'[|log|] == l;
    if l.action.DequeueRestore? && Dequeues(l, w, session, l.action.id) {
      WaitingDequeue(log, l, w, session, l.action.id, |log|);
    } else {
      WaitingKeeps(log, l, w, session, |log|);
      if l.action.EnqueueRestore? && Enqueues(l, w, session, l.action.restore.id) {
        WaitsNow(log, l, w, session, l.action.restore.id);
      }
    }
  }

  lemma {:induction false} BetweenExtends(log: seq<Logged>, l: Logged, w: string, session: string, id: string, i: nat, j: nat)
    requires j <= |log|
    ensures DequeuedBetween(log + [l], w, session, id, i, j) <==> DequeuedBetween(log, w, session, id, i, j)
    ensures i < |log| ==> (DequeuedBetween(log + [l], w, session, id, i, |log| + 1)
                           <==> DequeuedBetween(log, w, session, id, i, |log|) || Dequeues(l, w, session, id))
  {
    var log' := log + [l];
    assert log'[|log|] == l;
    if d :| i < d < j && d < |log| && Dequeues(log[d], w, session, id) { assert Dequeues(log'[d], w, session, id); }
    if d :| i < d < |log| && Dequeues(log[d], w, session, id) { assert Dequeues(log'[d], w, session, id); }
    if d :| i < d < |log| + 1 && d < |log'| && Dequeues(log'[d], w, session, id) {
      if d < |log| { assert Dequeues(log[d], w, session, id); }
    }
    if d :| i < d < j && d < |log'| && Dequeues(log'[d], w, session, id) { assert Dequeues(log[d], w, session, id); }
    if i < |log| && Dequeues(l, w, session, id) { assert Dequeues(log'[|log|], w, session, id); }
  }

  lemma {:induction false} WaitsExtends(log: seq<Logged>, l: Logged, w: string, session: string, i: nat)
    requires i < |log|
    ensures Waits(log + [l], w, session, i)
       <==> Waits(log, w, session, i) && !Dequeues(l, w, session, log[i].action.restore.id)
  {
    var log' := log + [l];
    assert log'[i] == log[i];
    if log[i].action.EnqueueRestore? {
      var id := log[i].action.restore.id;
      BetweenExtends(log, l, w, session, id, i, |log|);
      forall j | 0 <= j < i
        ensures DequeuedBetween(log', w, session, id, j, i) <==> DequeuedBetween(log, w, session, id, j, i)
        ensures log'[j] == log[j]
      {
        BetweenExtends(log, l, w, session, id, j, i);
      }
    }
  }

  lemma {:induction false} WaitingKeeps(log: seq<Logged>, l: Logged, w: string, session: string, n: nat)
    requires n <= |log|
    requires forall id :: !Dequeues(l, w, session, id)
    ensures Waiting(log + [l], w, session, n) == Waiting(log, w, session, n)
    decreases n
  {
    if n > 0 {
      WaitingKeeps(log, l, w, session, n - 1);
      WaitsExtends(log, l, w, session, n - 1);
    }
  }

  lemma {:induction false} WaitingDequeue(log: seq<Logged>, l: Logged, w: string, session: string, id: string, n: nat)
    requires n <= |log| && Dequeues(l, w, session, id)
    ensures Waiting(log + [l], w, session, n) == WithoutRestore(Waiting(log, w, session, n), id)
    decreases n
  {
    if n > 0 {
      WaitingDequeue(log, l, w, session, id, n - 1);
      WaitsExtends(log, l, w, session, n - 1);
      var q := Waiting(log, w, session, n - 1);
      if Waits(log, w, session, n - 1) {
        assert (q + [Canonical(log[n - 1].action.restore)])[..|q|] == q;
      } else {
        assert q + [] == q;
      }
    }
  }

  lemma {:induction false} WaitsNow(log: seq<Logged>, l: Logged, w: string, session: string, id: string)
    requires Enqueues(l, w, session, id)
    ensures Waits(log + [l], w, session, |log|) <==> !HasRestore(Waiting(log, w, session, |log|), id)
  {
    var log' := log + [l];
    assert log'[|log|] == l;
    WaitingHas(log, w, session, |log|, id);
    assert !DequeuedBetween(log', w, session, id, |log|, |log'|);
    forall j | 0 <= j < |log|
      ensures log'[j] == log[j]
      ensures DequeuedBetween(log', w, session, id, j, |log|) <==> DequeuedBetween(log, w, session, id, j, |log|)
    {
      BetweenExtends(log, l, w, session, id, j, |log|);
    }
    if j :| 0 <= j < |log| && Enqueues(log[j], w, session, id) && !DequeuedBetween(log, w, session, id, j, |log|) {
      var i := SomeWaits(log, w, session, id, j);
    }
  }

  /**
   * From empty storage, after any run with switches and reloads, every stored queue is the list of the restores
   * that were enqueued for its session in its workspace and not dequeued since, oldest first; for the current
   * workspace memory holds the same.
   */
  lemma {:induction false} QueuesHoldWhatWaits(slug: string, actions: seq<Action>, w: string, session: string)
    ensures var s := Run(Loaded(map[], slug), actions);
      var log := Log(Loaded(map[], slug), actions);
      && Queued(s.storage, w, session) == Waiting(log, w, session, |log|)
      && (w == s.slug ==> CanonicalQueue(Slot(s.restores, session)) == Waiting(log, w, session, |log|))
    decreases |actions|
  {
    var s0 := Loaded(map[], slug);
    RunMirrors(map[], slug, actions);
    QueuedInMemory(Run(s0, actions), session);
    if actions == [] {
      SwitchKeepsStoredQueue(map[], slug, w, session);
    } else {
      var before, a := actions[..|actions| - 1], actions[|actions| - 1];
      QueuesHoldWhatWaits(slug, before, w, session);
      RunMirrors(map[], slug, before);
      StepQueue(Run(s0, before), a, w, session);
      WaitingExtends(Log(s0, before), Logged(Run(s0, before).slug, a), w, session);
    }
  }

  // ---------------------------------------------------------------- the ledger

  /** The last thing said about a restore in a workspace is that it has been applied. */
  predicate Marked(log: seq<Logged>, w: string, id: string) {
    log != []
    && var l := log[|log| - 1];
    if l.slug == w && l.action == MarkApplied(id) then true
    else !(l.slug == w && l.action == ForgetApplied(id)) && Marked(log[..|log| - 1], w, id)
  }

  function Ledger(st: Storage, w: string): seq<string> {
    ReadApplied(st, Key(AppliedKey, w))
  }

  lemma {:induction false} WithoutIdMember(ids: seq<string>, gone: string, id: string)
    ensures id in WithoutId(ids, gone) <==> id in ids && id != gone
    ensures Distinct(ids) ==> Distinct(WithoutId(ids, gone))
    decreases |ids|
  {
    if ids != [] {
      var n := |ids| - 1;
      assert ids == ids[..n] + [ids[n]];
      WithoutIdMember(ids[..n], gone, id);
      WithoutIdMember(ids[..n], gone, ids[n]);
      if Distinct(ids) { DropLast(ids, ids[n]); }
    }
  }

  lemma {:induction false} LoadKeepsLedger(st: Storage, slug: string, w: string)
    ensures Ledger(Loaded(st, slug).storage, w) == Ledger(st, w)
  {
    var agent := ReadText(st, Key(AgentKey, slug));
    var st1 := FoldDrafts(st, slug, agent);
    FoldDraftsFacts(st, slug, agent);
    FoldUploadsFrame(st1, slug, agent);
    assert SameAt(st, st1, Key(AppliedKey, w)) && SameAt(st1, FoldUploads(st1, slug, agent), Key(AppliedKey, w));
  }

  lemma {:induction false} StepLedger(s: State, a: Action, w: string, id: string)
    requires Mirrors(s)
    ensures id in Ledger(Step(s, a).storage, w) <==>
      (s.slug == w && a == MarkApplied(id)) || (id in Ledger(s.storage, w) && !(s.slug == w && a == ForgetApplied(id)))
    ensures Distinct(Ledger(s.storage, w)) ==> Distinct(Ledger(Step(s, a).storage, w))
  {
    if a.SwitchWorkspace? {
      LoadKeepsLedger(s.storage, a.slug, w);
    } else if w != s.slug {
      OtherLedgerStays(s, a, w);
    } else if a.Reload? {
      LoadKeepsLedger(s.storage, s.slug, w);
    } else {
      StepMirrors(s, a);
      StaysInWorkspace(s, a);
      LedgerInMemory(s);
      LedgerInMemory(Step(s, a));
      MemoryLedger(s, a, id);
    }
  }

  lemma {:induction false} OtherLedgerStays(s: State, a: Action, w: string)
    requires w != s.slug && !a.SwitchWorkspace?
    ensures Ledger(Step(s, a).storage, w) == Ledger(s.storage, w)
  {
    OthersUntouched(s, a);
    StaysInWorkspace(s, a);
    assert SameAt(s.storage, Step(s, a).storage, Key(AppliedKey, w));
    ReadsSame(s.storage, Step(s, a).storage, Key(AppliedKey, w));
  }

  lemma {:induction false} LedgerInMemory(s: State)
    requires Mirrors(s)
    ensures Ledger(s.storage, s.slug) == s.applied
  {
  }

  lemma {:induction false} MemoryLedger(s: State, a: Action, id: string)
    requires !a.SwitchWorkspace? && !a.Reload?
    ensures id in Step(s, a).applied <==> a == MarkApplied(id) || (id in s.applied && a != ForgetApplied(id))
    ensures Distinct(s.applied) ==> Distinct(Step(s, a).applied)
  {
    if a.ForgetApplied? { WithoutIdMember(s.applied, a.id, id); }
  }

  /**
   * At most once: from empty storage, after any run with switches and reloads, the ledger of each workspace holds,
   * once, exactly the restores marked as applied there and not forgotten since; memory holds the current one.
   */
  lemma {:induction false} LedgerHoldsMarked(slug: string, actions: seq<Action>, w: string, id: string)
    ensures var s := Run(Loaded(map[], slug), actions);
      && (id in Ledger(s.storage, w) <==> Marked(Log(Loaded(map[], slug), actions), w, id))
      && Distinct(Ledger(s.storage, w)) && Ledger(s.storage, s.slug) == s.applied
    decreases |actions|
  {
    var s0 := Loaded(map[], slug);
    RunMirrors(map[], slug, actions);
    if actions == [] {
      LoadKeepsLedger(map[], slug, w);
    } else {
      var before, a := actions[..|actions| - 1], actions[|actions| - 1];
      LedgerHoldsMarked(slug, before, w, id);
      RunMirrors(map[], slug, before);
      StepLedger(Run(s0, before), a, w, id);
      var log, l := Log(s0, before), Logged(Run(s0, before).slug, a);
      assert (log + [l])[..|log|] == log;
    }
  }
}
