/** Uploads owned by the module, not by the component that started them (packages/core/drafts/upload-coordinator.ts). */
module UploadCoordinator {
  import opened Lists

  /**
   * Requests are numbered in the order they start; `started[r]` is the client id of request `r`, and the number
   * also stands for the request's abort controller.
   */
  datatype State = State(started: seq<string>, controllers: map<string, nat>, aborted: set<nat>,
                         inFlight: set<nat>, reports: seq<Report>)

  /** One call of a request's `onSettled`. */
  datatype Report = Report(request: nat, uploaded: bool)

  const INITIAL := State([], map[], {}, {}, [])

  /** What a callback does: return, or throw an error that is or is not named AbortError. */
  datatype Callback = Returns | ThrowsAbort | Throws

  datatype Event =
    | Start(id: string)
    | Resolve(request: nat, callback: Callback)
    | Reject(request: nat, abortError: bool)
    | Abort(id: string)
    | AbortAll

  /** The `finally` block: the entry goes only if it is still this request's. */
  function Finished(s: State, r: nat): State
    requires r < |s.started|
  {
    var id := s.started[r];
    var s' := s.(inFlight := s.inFlight - {r});
    if id in s.controllers && s.controllers[id] == r
    then s'.(controllers := map k | k in s.controllers && k != id :: s.controllers[k])
    else s'
  }

  function ReportsOnResolve(s: State, r: nat, callback: Callback): seq<Report> {
    if callback.Throws? && r !in s.aborted then [Report(r, true), Report(r, false)] else [Report(r, true)]
  }

  function ReportsOnReject(s: State, r: nat, abortError: bool): seq<Report> {
    if r in s.aborted || abortError then [] else [Report(r, false)]
  }

  ghost predicate Possible(s: State, e: Event) {
    match e
    case Resolve(r, _) => r in s.inFlight && r < |s.started|
    case Reject(r, _) => r in s.inFlight && r < |s.started|
    case _ => true
  }

  function Step(s: State, e: Event): State
    requires Possible(s, e)
  {
    match e
    case Start(id) =>
      var r := |s.started|;
      s.(started := s.started + [id], controllers := s.controllers[id := r], inFlight := s.inFlight + {r})
    case Resolve(r, callback) => Finished(s.(reports := s.reports + ReportsOnResolve(s, r, callback)), r)
    case Reject(r, abortError) => Finished(s.(reports := s.reports + ReportsOnReject(s, r, abortError)), r)
    case Abort(id) =>
      if id !in s.controllers then s
      else s.(controllers := map k | k in s.controllers && k != id :: s.controllers[k],
              aborted := s.aborted + {s.controllers[id]})
    case AbortAll => s.(controllers := map[], aborted := s.aborted + s.controllers.Values)
  }

  // ---------------------------------------------------------------- the module

  class Coordinator {
    var started: seq<string>
    var controllers: map<string, nat>
    var aborted: set<nat>
    var inFlight: set<nat>
    var reports: seq<Report>

    function Abs(): State
      reads this
    {
      State(started, controllers, aborted, inFlight, reports)
    }

    constructor ()
      ensures Abs() == INITIAL
    {
      started, controllers, aborted, inFlight, reports := [], map[], {}, {}, [];
    }

    method StartUpload(id: string)
      modifies this
      ensures Abs() == Step(old(Abs()), Start(id))
    {
      var controller := |started|;
      controllers := controllers[id := controller];
      started, inFlight := started + [id], inFlight + {controller};
    }

    /** The continuation after `await api.uploadFile`, when the request succeeded. */
    method OnResolved(r: nat, callback: Callback)
      requires Possible(Abs(), Resolve(r, callback))
      modifies this
      ensures Abs() == Step(old(Abs()), Resolve(r, callback))
    {
      reports := reports + [Report(r, true)];
      if !callback.Returns? {
        OnError(r, callback.ThrowsAbort?);
      }
      Finally(r);
    }

    method OnRejected(r: nat, abortError: bool)
      requires Possible(Abs(), Reject(r, abortError))
      modifies this
      ensures Abs() == Step(old(Abs()), Reject(r, abortError))
    {
      OnError(r, abortError);
      Finally(r);
    }

    /** The `catch` block, for an error of the request or of its callback. */
    method OnError(r: nat, abortError: bool)
      modifies this`reports
      ensures reports == old(reports) + ReportsOnReject(old(Abs()), r, abortError)
    {
      if r in aborted || abortError { return; }
      reports := reports + [Report(r, false)];
    }

    method Finally(r: nat)
      requires r < |started|
      modifies this`controllers, this`inFlight
      ensures Abs() == Finished(old(Abs()), r)
    {
      inFlight := inFlight - {r};
      if started[r] in controllers && controllers[started[r]] == r {
        controllers := map k | k in controllers && k != started[r] :: controllers[k];
      }
    }

    method AbortUpload(id: string)
      modifies this
      ensures Abs() == Step(old(Abs()), Abort(id))
    {
      if id !in controllers { return; }
      var controller := controllers[id];
      controllers := map k | k in controllers && k != id :: controllers[k];
      aborted := aborted + {controller};
    }

    method AbortAllUploads()
      modifies this
      ensures Abs() == Step(old(Abs()), AbortAll)
    {
      if controllers == map[] { return; }
      var todo := controllers.Keys;
      while todo != {}
        invariant todo <= controllers.Keys && controllers == old(controllers) && inFlight == old(inFlight)
        invariant started == old(started) && reports == old(reports)
        invariant aborted == old(aborted) + set id | id in controllers.Keys - todo :: controllers[id]
        decreases todo
      {
        var id :| id in todo;
        aborted := aborted + {controllers[id]};
        todo := todo - {id};
      }
      assert (set id | id in controllers.Keys :: controllers[id]) == controllers.Values;
      controllers := map[];
    }
  }

  // ---------------------------------------------------------------- runs

  ghost predicate PossibleRun(events: seq<Event>) {
    events != [] ==> PossibleRun(events[..|events| - 1]) && Possible(Run(events[..|events| - 1]), events[|events| - 1])
  }

  ghost function Run(events: seq<Event>): State {
    if events == [] then INITIAL
    else
      var s, e := Run(events[..|events| - 1]), events[|events| - 1];
      if Possible(s, e) then Step(s, e) else s
  }

  /** The last request started for a client id. */
  predicate Latest(s: State, id: string, r: nat) {
    r < |s.started| && s.started[r] == id && forall q :: r < q < |s.started| ==> s.started[q] != id
  }

  /** A client id maps to exactly the latest request for it, and only while that is neither finished nor aborted. */
  ghost predicate Tracked(s: State) {
    && (forall r :: r in s.inFlight ==> r < |s.started|)
    && (forall r :: r in s.aborted ==> r < |s.started|)
    && forall id, r: nat :: (id in s.controllers && s.controllers[id] == r)
                  <==> (Latest(s, id, r) && r in s.inFlight && r !in s.aborted)
  }

  lemma {:induction false} StepTracked(s: State, e: Event)
    requires Tracked(s) && Possible(s, e)
    ensures Tracked(Step(s, e))
  {
    var t := Step(s, e);
    match e
    case Start(id) => StartTracked(s, id);
    case Resolve(r, _) => FinishedTracked(s, t, r);
    case Reject(r, _) => FinishedTracked(s, t, r);
    case Abort(id) =>
      forall k, r: nat ensures (k in t.controllers && t.controllers[k] == r)
                     <==> (Latest(t, k, r) && r in t.inFlight && r !in t.aborted)
      {
        assert Latest(t, k, r) <==> Latest(s, k, r);
      }
    case AbortAll =>
      forall k, r: nat ensures !(Latest(t, k, r) && r in t.inFlight && r !in t.aborted) {
        assert Latest(t, k, r) <==> Latest(s, k, r);
      }
  }

  lemma {:induction false} StartTracked(s: State, id: string)
    requires Tracked(s)
    ensures Tracked(Step(s, Start(id)))
  {
    var t, n := Step(s, Start(id)), |s.started|;
    forall k, r: nat ensures (k in t.controllers && t.controllers[k] == r)
                        <==> (Latest(t, k, r) && r in t.inFlight && r !in t.aborted)
    {
      StartLatest(s, id, k, r);
    }
  }

  lemma {:induction false} StartLatest(s: State, id: string, k: string, r: nat)
    ensures var t := Step(s, Start(id));
      Latest(t, k, r) <==> if k == id then r == |s.started| else Latest(s, k, r)
  {
    var t, n := Step(s, Start(id)), |s.started|;
    assert t.started[n] == id && forall q :: 0 <= q < n ==> t.started[q] == s.started[q];
  }

  lemma {:induction false} FinishedTracked(s: State, t: State, r: nat)
    requires Tracked(s) && r < |s.started| && t.started == s.started && t.aborted == s.aborted
    requires t.(reports := s.reports) == Finished(s, r)
    ensures Tracked(t)
  {
    forall k, q: nat ensures (k in t.controllers && t.controllers[k] == q)
                   <==> (Latest(t, k, q) && q in t.inFlight && q !in t.aborted)
    {
      assert Latest(t, k, q) <==> Latest(s, k, q);
    }
  }

  /** After every possible run the map holds, for each id, the latest started, unfinished, unaborted request. */
  lemma {:induction false} RunTracked(events: seq<Event>)
    requires PossibleRun(events)
    ensures Tracked(Run(events))
    decreases |events|
  {
    if events != [] {
      RunTracked(events[..|events| - 1]);
      StepTracked(Run(events[..|events| - 1]), events[|events| - 1]);
    }
  }

  // ---------------------------------------------------------------- outcomes

  function ReportsOf(reports: seq<Report>, r: nat): seq<bool> {
    if reports == [] then []
    else
      var n := |reports| - 1;
      ReportsOf(reports[..n], r) + if reports[n].request == r then [reports[n].uploaded] else []
  }

  lemma {:induction false} ReportsOfConcat(a: seq<Report>, b: seq<Report>, r: nat)
    ensures ReportsOf(a + b, r) == ReportsOf(a, r) + ReportsOf(b, r)
    decreases |b|
  {
    if b == [] {
      assert a + b == a && ReportsOf(a, r) + [] == ReportsOf(a, r);
    } else {
      var n := |b| - 1;
      assert (a + b)[..|a + b| - 1] == a + b[..n] && (a + b)[|a + b| - 1] == b[n];
      ReportsOfConcat(a, b[..n], r);
      ConcatAssoc(ReportsOf(a, r), ReportsOf(b[..n], r), if b[n].request == r then [b[n].uploaded] else []);
    }
  }

  /** What a request can report: nothing, one outcome, or a success whose callback threw and then a failure. */
  ghost predicate Allowed(out: seq<bool>, finished: bool, threw: bool) {
    out == [] || (finished && (out == [true] || out == [false] || (threw && out == [true, false])))
  }

  /** While in flight nothing. */
  ghost predicate Reported(s: State, r: nat, threw: bool) {
    Allowed(ReportsOf(s.reports, r), r !in s.inFlight && r < |s.started|, threw)
  }

  predicate CallbackThrew(e: Event, r: nat) {
    e.Resolve? && e.request == r && e.callback.Throws?
  }

  /** What one event adds to the outcomes of request `r`. */
  function NewReports(s: State, e: Event, r: nat): seq<bool> {
    match e
    case Resolve(q, callback) =>
      if q != r then [] else if callback.Throws? && q !in s.aborted then [true, false] else [true]
    case Reject(q, abortError) => if q != r || q in s.aborted || abortError then [] else [false]
    case _ => []
  }

  lemma {:induction false} StepReports(s: State, e: Event, r: nat)
    requires Possible(s, e)
    ensures ReportsOf(Step(s, e).reports, r) == ReportsOf(s.reports, r) + NewReports(s, e, r)
  {
    if e.Resolve? {
      ResolveReports(s, e.request, e.callback, r);
    } else if e.Reject? {
      ReportsOfConcat(s.reports, ReportsOnReject(s, e.request, e.abortError), r);
      SmallReports(e.request, r);
    } else {
      assert ReportsOf(s.reports, r) + [] == ReportsOf(s.reports, r);
    }
  }

  lemma {:induction false} ResolveReports(s: State, q: nat, callback: Callback, r: nat)
    requires Possible(s, Resolve(q, callback))
    ensures ReportsOf(Step(s, Resolve(q, callback)).reports, r)
         == ReportsOf(s.reports, r) + NewReports(s, Resolve(q, callback), r)
  {
    ReportsOfConcat(s.reports, ReportsOnResolve(s, q, callback), r);
    SmallReports(q, r);
  }

  lemma {:induction false} FirstReports(out: seq<bool>, more: seq<bool>, threw: bool)
    requires out == [] && (more == [] || more == [true] || more == [false] || (threw && more == [true, false]))
    ensures Allowed(out + more, true, threw)
  {
    assert out + more == more;
  }

  lemma {:induction false} StepReported(s: State, e: Event, r: nat, threw: bool)
    requires Possible(s, e) && Tracked(s) && Reported(s, r, threw)
    ensures Reported(Step(s, e), r, threw || CallbackThrew(e, r))
  {
    var out, t := ReportsOf(s.reports, r), Step(s, e);
    StepReports(s, e, r);
    if NewReports(s, e, r) == [] {
      assert out + [] == out;
      if out != [] { StillFinished(s, e, r); }
    } else {
      FirstReports(out, NewReports(s, e, r), CallbackThrew(e, r));
    }
  }

  lemma {:induction false} StillFinished(s: State, e: Event, r: nat)
    requires Possible(s, e) && r !in s.inFlight && r < |s.started|
    ensures r !in Step(s, e).inFlight && r < |Step(s, e).started|
  {
  }

  lemma {:induction false} SmallReports(q: nat, r: nat)
    ensures ReportsOf([Report(q, true)], r) == if q == r then [true] else []
    ensures ReportsOf([Report(q, false)], r) == if q == r then [false] else []
    ensures ReportsOf([Report(q, true), Report(q, false)], r) == if q == r then [true, false] else []
  {
    assert [Report(q, true), Report(q, false)][..1] == [Report(q, true)];
    assert [Report(q, true)][..0] == [] && [Report(q, false)][..0] == [];
  }

  /** Over every run a request reports at most one outcome, and none while in flight, unless its success callback threw. */
  lemma {:induction false} OneOutcome(events: seq<Event>, r: nat)
    requires PossibleRun(events)
    ensures Reported(Run(events), r, exists i :: 0 <= i < |events| && CallbackThrew(events[i], r))
    ensures (forall i :: 0 <= i < |events| ==> !CallbackThrew(events[i], r)) ==> |ReportsOf(Run(events).reports, r)| <= 1
    decreases |events|
  {
    if events != [] {
      var before, e := events[..|events| - 1], events[|events| - 1];
      OneOutcome(before, r);
      RunTracked(before);
      StepReported(Run(before), e, r, exists i :: 0 <= i < |before| && CallbackThrew(before[i], r));
      if i :| 0 <= i < |before| && CallbackThrew(before[i], r) { assert CallbackThrew(events[i], r); }
    }
  }

  /** A second outcome comes exactly from a success callback that throws while the request is not aborted. */
  lemma {:induction false} TwoOutcomesIff(s: State, r: nat, callback: Callback)
    requires Possible(s, Resolve(r, callback)) && ReportsOf(s.reports, r) == []
    ensures |ReportsOf(Step(s, Resolve(r, callback)).reports, r)| == 2 <==> callback.Throws? && r !in s.aborted
  {
    StepReports(s, Resolve(r, callback), r);
  }

  /** The request's success callback threw, at a moment at which the request was not aborted. */
  ghost predicate ThrewUnaborted(events: seq<Event>, r: nat) {
    events != [] && (ThrewUnaborted(events[..|events| - 1], r)
      || (CallbackThrew(events[|events| - 1], r) && r !in Run(events[..|events| - 1]).aborted))
  }

  /** In any run a request reports a second outcome exactly then. */
  lemma {:induction false} TwoOutcomesInRunIff(events: seq<Event>, r: nat)
    requires PossibleRun(events)
    ensures |ReportsOf(Run(events).reports, r)| == 2 <==> ThrewUnaborted(events, r)
    decreases |events|
  {
    if events != [] {
      var before, e := events[..|events| - 1], events[|events| - 1];
      TwoOutcomesInRunIff(before, r);
      OneOutcome(before, r);
      StepReports(Run(before), e, r);
    }
  }

  /** Two outcomes from one request. */
  lemma {:induction false} ThrowingCallbackReportsTwice(id: string)
    ensures PossibleRun([Start(id), Resolve(0, Throws)])
    ensures Run([Start(id), Resolve(0, Throws)]).reports == [Report(0, true), Report(0, false)]
  {
    var a, b := [Start(id)], [Start(id), Resolve(0, Throws)];
    assert a[..0] == [] && b[..1] == a && PossibleRun([]) && PossibleRun(a);
    assert Run(a) == Step(INITIAL, Start(id)) && Run(b) == Step(Run(a), Resolve(0, Throws));
  }

  /** An aborted request never reports a failure; it still reports a success if its answer arrives all the same. */
  lemma {:induction false} AbortedReportsIffResolved(s: State, e: Event, r: nat)
    requires Possible(s, e) && r in s.aborted
    ensures ReportsOf(Step(s, e).reports, r) == ReportsOf(s.reports, r) + if e.Resolve? && e.request == r then [true] else []
  {
    StepReports(s, e, r);
  }

  /** A success reported by a request that has been aborted. */
  lemma {:induction false} AbortedRequestReports(id: string)
    ensures PossibleRun([Start(id), Abort(id), Resolve(0, Returns)])
    ensures var s := Run([Start(id), Abort(id), Resolve(0, Returns)]); 0 in s.aborted && s.reports == [Report(0, true)]
  {
    var a, b, c := [Start(id)], [Start(id), Abort(id)], [Start(id), Abort(id), Resolve(0, Returns)];
    assert a[..0] == [] && b[..1] == a && c[..2] == b && PossibleRun([]) && PossibleRun(a) && PossibleRun(b);
    assert Run(a) == Step(INITIAL, Start(id)) && Run(b) == Step(Run(a), Abort(id));
    assert Run(a).controllers == map[id := 0];
    assert Run(c) == Step(Run(b), Resolve(0, Returns));
  }

  // ---------------------------------------------------------------- aborting everything

  /** Aborting everything now would leave no request that is neither finished nor aborted. */
  ghost predicate AllReached(s: State) {
    Step(s, AbortAll).inFlight <= Step(s, AbortAll).aborted
  }

  /** Running and not aborted. */
  predicate Live(s: State, r: nat) {
    r in s.inFlight && r !in s.aborted && r < |s.started|
  }

  /** `abortAll` reaches every request if and only if each live one is the latest for its id. */
  lemma {:induction false} AbortAllReachesIff(s: State)
    requires Tracked(s)
    ensures Step(s, AbortAll).controllers == map[]
    ensures AllReached(s) <==> forall r: nat :: Live(s, r) ==> Latest(s, s.started[r], r)
  {
    forall r: nat | Live(s, r) ensures r in s.controllers.Values <==> Latest(s, s.started[r], r) {
      var id := s.started[r];
      if Latest(s, id, r) { assert id in s.controllers && s.controllers[id] == r; }
      if r in s.controllers.Values {
        var k :| k in s.controllers && s.controllers[k] == r;
        assert Latest(s, k, r);
      }
    }
    if AllReached(s) {
      forall r: nat | Live(s, r) ensures Latest(s, s.started[r], r) { assert r in Step(s, AbortAll).aborted; }
    } else {
      var r :| r in s.inFlight && r !in Step(s, AbortAll).aborted;
      assert Live(s, r);
    }
  }

  /** An id is started while an earlier request for it is live. */
  ghost predicate Overlaps(s: State, e: Event) {
    e.Start? && exists r: nat :: Live(s, r) && s.started[r] == e.id
  }

  lemma {:induction false} StepReached(s: State, e: Event)
    requires Tracked(s) && Possible(s, e) && AllReached(s)
    ensures AllReached(Step(s, e)) <==> !Overlaps(s, e)
  {
    var t := Step(s, e);
    StepTracked(s, e);
    AbortAllReachesIff(s);
    AbortAllReachesIff(t);
    if e.Start? {
      StartReached(s, e.id);
    } else {
      forall r: nat | Live(t, r) ensures Latest(t, t.started[r], r) { assert Live(s, r) && Latest(s, s.started[r], r); }
    }
  }

  lemma {:induction false} StartReached(s: State, id: string)
    requires Tracked(s) && forall r: nat :: Live(s, r) ==> Latest(s, s.started[r], r)
    ensures var t := Step(s, Start(id));
      (forall r: nat :: Live(t, r) ==> Latest(t, t.started[r], r)) <==> !Overlaps(s, Start(id))
  {
    var t, n := Step(s, Start(id)), |s.started|;
    forall r: nat | Live(t, r) ensures Latest(t, t.started[r], r) <==> r == n || s.started[r] != id {
      StartLatest(s, id, t.started[r], r);
      if r < n { assert Live(s, r) && Latest(s, s.started[r], r); }
    }
    if r: nat :| Live(s, r) && s.started[r] == id { assert Live(t, r); }
    forall r: nat | Live(t, r) && r < n ensures Live(s, r) {}
  }

  ghost predicate NoOverlap(events: seq<Event>) {
    events != [] ==> NoOverlap(events[..|events| - 1]) && !Overlaps(Run(events[..|events| - 1]), events[|events| - 1])
  }

  ghost predicate AlwaysReached(events: seq<Event>) {
    AllReached(Run(events)) && (events != [] ==> AlwaysReached(events[..|events| - 1]))
  }

  /** `abortAll` reaches everything at every moment of a run exactly if no id is started while a request for it is live. */
  lemma {:induction false} AlwaysReachedIff(events: seq<Event>)
    requires PossibleRun(events)
    ensures AlwaysReached(events) <==> NoOverlap(events)
    decreases |events|
  {
    if events != [] {
      var before, e := events[..|events| - 1], events[|events| - 1];
      AlwaysReachedIff(before);
      RunTracked(before);
      assert Run(events) == Step(Run(before), e);
      if AllReached(Run(before)) { StepReached(Run(before), e); }
    }
  }

  /** Each request has its own client id. */
  ghost predicate FreshIds(s: State) {
    forall q, r :: 0 <= q < r < |s.started| ==> s.started[q] != s.started[r]
  }

  /** In particular with ids that are never reused. */
  lemma {:induction false} AbortAllReachesAll(s: State)
    requires Tracked(s) && FreshIds(s)
    ensures Step(s, AbortAll).controllers == map[] && Step(s, AbortAll).inFlight <= Step(s, AbortAll).aborted
  {
    AbortAllReachesIff(s);
  }

  /** A reused id hides the older request: it stays in flight, not aborted, and no abort can reach it. */
  lemma {:induction false} ReusedIdEscapes(id: string)
    ensures PossibleRun([Start(id), Start(id), AbortAll])
    ensures var s := Run([Start(id), Start(id), AbortAll]); 0 in s.inFlight && 0 !in s.aborted && s.controllers == map[]
  {
    var a, b, c := [Start(id)], [Start(id), Start(id)], [Start(id), Start(id), AbortAll];
    assert a[..0] == [] && b[..1] == a && c[..2] == b;
    assert PossibleRun([]) && PossibleRun(a) && PossibleRun(b);
    assert Run(a) == Step(INITIAL, Start(id));
    assert Run(b) == Step(Run(a), Start(id));
    assert Run(b).controllers == map[id := 1];
    assert Run(c) == Step(Run(b), AbortAll);
  }
}
