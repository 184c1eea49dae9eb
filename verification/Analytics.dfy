/** Analytics calls made before the library is initialized (packages/core/analytics/index.ts). */
module Analytics {
  import opened Lists

  type Props = map<string, string>

  datatype Op =
    | EventOp(name: string, props: Props, instantly: bool)
    | SetOp(props: Props)
    | ExceptionOp(error: string, props: Props)

  datatype Identity = Identity(userId: string, props: Props)

  /** `environment` is the configured one, already normalized. */
  datatype Config = Config(key: string, appVersion: string, environment: string, clientType: string)

  /** What reaches the library, in order. */
  datatype Sent =
    | Init(key: string)
    | Register(props: Props)
    | Identified(who: Identity)
    | WasReset
    | Captured(name: string, props: Props, instantly: bool)
    | CapturedException(error: string, props: Props)
    // The event `$set`, which carries person properties and nothing else.
    | PersonSet(props: Props)

  datatype Call =
    | InitAnalytics(inBrowser: bool, config: Option<Config>)
    | Identify(who: Identity)
    | ResetAnalytics
    | Emit(op: Op)

  datatype State = State(initialized: bool, pendingIdentify: Option<Identity>, pendingOps: seq<Op>,
                         userId: Option<string>, environment: string, superProperties: Props, sent: seq<Sent>)

  const START := State(false, None, [], None, "dev", map[], [])

  const SCHEMA_VERSION := "2"

  function SuperProperties(c: Config): Props {
    var base := map["client_type" := c.clientType, "event_schema_version" := SCHEMA_VERSION,
                    "environment" := c.environment, "is_demo" := "false"];
    if c.appVersion != "" then base["app_version" := c.appVersion] else base
  }

  function Default(props: Props, key: string, value: string): Props {
    if key in props then props else props[key := value]
  }

  function ClientEventProperties(props: Props, userId: Option<string>, environment: string): Props {
    var p := if userId.Some? && userId.value != "" then Default(props, "user_id", userId.value) else props;
    Default(Default(Default(p, "event_schema_version", SCHEMA_VERSION), "environment", environment), "is_demo", "false")
  }

  /** What the caller set stays as it is; the rest is filled in, a user only if one is known. */
  lemma {:induction false} StampFillsIn(props: Props, userId: Option<string>, environment: string)
    ensures var r, known := ClientEventProperties(props, userId, environment), userId.Some? && userId.value != "";
      && (forall k :: k in props ==> k in r && r[k] == props[k])
      && r.Keys == props.Keys + {"event_schema_version", "environment", "is_demo"} + (if known then {"user_id"} else {})
      && ("environment" !in props ==> r["environment"] == environment)
      && ("is_demo" !in props ==> r["is_demo"] == "false")
      && ("event_schema_version" !in props ==> r["event_schema_version"] == "2")
      && (known && "user_id" !in props ==> r["user_id"] == userId.value)
  {
  }

  /** One operation handed to the library, stamped with the identity and environment of that moment. */
  function Delivery(op: Op, userId: Option<string>, environment: string): Sent {
    match op
    case EventOp(name, props, instantly) => Captured(name, ClientEventProperties(props, userId, environment), instantly)
    case ExceptionOp(error, props) => CapturedException(error, ClientEventProperties(props, userId, environment))
    case SetOp(props) => PersonSet(props)
  }

  // ---------------------------------------------------------------- the module

  class Analytics {
    var initialized: bool
    var pendingIdentify: Option<Identity>
    var pendingOps: seq<Op>
    var currentUserId: Option<string>
    var environment: string
    var superProperties: Props
    var sent: seq<Sent>

    function Abs(): State
      reads this
    {
      State(initialized, pendingIdentify, pendingOps, currentUserId, environment, superProperties, sent)
    }

    constructor ()
      ensures Abs() == START
    {
      initialized, pendingIdentify, pendingOps, currentUserId := false, None, [], None;
      environment, superProperties, sent := "dev", map[], [];
    }

    method InitAnalyticsCall(inBrowser: bool, config: Option<Config>) returns (running: bool)
      modifies this
      ensures Abs() == Step(old(Abs()), InitAnalytics(inBrowser, config))
      ensures running == (inBrowser && config.Some? && config.value.key != "")
    {
      if !inBrowser { return false; }
      if config.None? || config.value.key == "" { return false; }
      if initialized { return true; }
      environment, superProperties := config.value.environment, SuperProperties(config.value);
      sent := sent + [Init(config.value.key), Register(superProperties)];
      initialized := true;
      if pendingIdentify.Some? {
        currentUserId := Some(pendingIdentify.value.userId);
        sent := sent + [Identified(pendingIdentify.value)];
        pendingIdentify := None;
      }
      DrainPendingOps();
      running := true;
    }

    /** The loop that replays the buffered operations, oldest first. */
    method DrainPendingOps()
      modifies this`pendingOps, this`sent
      ensures pendingOps == [] && sent == old(sent) + Deliveries(old(pendingOps), currentUserId, environment)
    {
      ghost var ops := pendingOps;
      while |pendingOps| > 0
        invariant |pendingOps| <= |ops| && pendingOps == ops[|ops| - |pendingOps|..]
        invariant sent == old(sent) + Deliveries(ops[..|ops| - |pendingOps|], currentUserId, environment)
        decreases |pendingOps|
      {
        var op := pendingOps[0];
        ghost var n := |ops| - |pendingOps|;
        pendingOps := pendingOps[1..];
        assert op == ops[n] && ops[..n + 1][..n] == ops[..n];
        sent := sent + [Delivery(op, currentUserId, environment)];
      }
      assert ops[..|ops|] == ops;
    }

    method IdentifyCall(who: Identity)
      modifies this
      ensures Abs() == Step(old(Abs()), Identify(who))
    {
      currentUserId := Some(who.userId);
      if !initialized {
        pendingIdentify := Some(who);
        return;
      }
      sent := sent + [Identified(who)];
    }

    method ResetAnalyticsCall()
      modifies this
      ensures Abs() == Step(old(Abs()), ResetAnalytics)
    {
      currentUserId, pendingIdentify, pendingOps := None, None, [];
      if !initialized { return; }
      sent := sent + [WasReset];
      if |superProperties| > 0 { sent := sent + [Register(superProperties)]; }
    }

    /** `captureEvent`, `captureException` and `setPersonProperties`. */
    method EmitCall(op: Op)
      modifies this
      ensures Abs() == Step(old(Abs()), Emit(op))
    {
      if !initialized {
        pendingOps := pendingOps + [op];
        return;
      }
      sent := sent + [Delivery(op, currentUserId, environment)];
    }
  }

  // ---------------------------------------------------------------- steps

  function Deliveries(ops: seq<Op>, userId: Option<string>, environment: string): seq<Sent> {
    if ops == [] then []
    else Deliveries(ops[..|ops| - 1], userId, environment) + [Delivery(ops[|ops| - 1], userId, environment)]
  }

  predicate Starts(s: State, call: Call) {
    call.InitAnalytics? && call.inBrowser && call.config.Some? && call.config.value.key != "" && !s.initialized
  }

  function FlushUser(s: State): Option<string> {
    if s.pendingIdentify.Some? then Some(s.pendingIdentify.value.userId) else s.userId
  }

  function Step(s: State, call: Call): State {
    match call
    case InitAnalytics(_, config) =>
      if !Starts(s, call) then s
      else
        var c := config.value;
        var who := if s.pendingIdentify.Some? then [Identified(s.pendingIdentify.value)] else [];
        State(true, None, [], FlushUser(s), c.environment, SuperProperties(c),
              s.sent + [Init(c.key), Register(SuperProperties(c))] + who
                + Deliveries(s.pendingOps, FlushUser(s), c.environment))
    case Identify(who) =>
      if s.initialized then s.(userId := Some(who.userId), sent := s.sent + [Identified(who)])
      else s.(userId := Some(who.userId), pendingIdentify := Some(who))
    case ResetAnalytics =>
      var cleared := s.(userId := None, pendingIdentify := None, pendingOps := []);
      if !s.initialized then cleared
      else cleared.(sent := s.sent + [WasReset]
                            + if s.superProperties == map[] then [] else [Register(s.superProperties)])
    case Emit(op) =>
      if s.initialized then s.(sent := s.sent + [Delivery(op, s.userId, s.environment)])
      else s.(pendingOps := s.pendingOps + [op])
  }

  function Run(calls: seq<Call>): State {
    if calls == [] then START else Step(Run(calls[..|calls| - 1]), calls[|calls| - 1])
  }

  // ---------------------------------------------------------------- direct delivery

  /** Who is identified after some calls. */
  function UserAfter(calls: seq<Call>): Option<string> {
    if calls == [] then None
    else match calls[|calls| - 1]
      case Identify(who) => Some(who.userId)
      case ResetAnalytics => None
      case _ => UserAfter(calls[..|calls| - 1])
  }

  /** The library's log if nothing were ever buffered: each call goes through at once. */
  function Direct(calls: seq<Call>, c: Config): seq<Sent> {
    if calls == [] then []
    else
      var before := calls[..|calls| - 1];
      Direct(before, c) + Through(calls[|calls| - 1], UserAfter(before), c)
  }

  /** What one call sends at once. */
  function Through(call: Call, userId: Option<string>, c: Config): seq<Sent> {
    match call
    case InitAnalytics(_, _) => []
    case Identify(who) => [Identified(who)]
    case ResetAnalytics => [WasReset, Register(SuperProperties(c))]
    case Emit(op) => [Delivery(op, userId, c.environment)]
  }

  /** The calls after the last reset. */
  function SinceReset(calls: seq<Call>): seq<Call> {
    if calls == [] || calls[|calls| - 1].ResetAnalytics? then []
    else SinceReset(calls[..|calls| - 1]) + [calls[|calls| - 1]]
  }

  function LastIdentify(calls: seq<Call>): seq<Call> {
    if calls == [] then []
    else if calls[|calls| - 1].Identify? then [calls[|calls| - 1]]
    else LastIdentify(calls[..|calls| - 1])
  }

  function Emits(calls: seq<Call>): seq<Call> {
    if calls == [] then []
    else if calls[|calls| - 1].Emit? then Emits(calls[..|calls| - 1]) + [calls[|calls| - 1]]
    else Emits(calls[..|calls| - 1])
  }

  /** What the calls made before initialization amount to: the latest identify first, then the operations in order. */
  function Replay(calls: seq<Call>): seq<Call> {
    LastIdentify(SinceReset(calls)) + Emits(SinceReset(calls))
  }

  predicate CanStart(call: Call) {
    call.InitAnalytics? && call.inBrowser && call.config.Some? && call.config.value.key != ""
  }

  predicate NoStart(calls: seq<Call>) {
    forall i :: 0 <= i < |calls| ==> !CanStart(calls[i])
  }

  function OpsOf(calls: seq<Call>): seq<Op> {
    if calls == [] then []
    else if calls[|calls| - 1].Emit? then OpsOf(calls[..|calls| - 1]) + [calls[|calls| - 1].op]
    else OpsOf(calls[..|calls| - 1])
  }

  /** Nothing is initialized or sent, and the buffers hold what these calls amount to. */
  ghost predicate Holds(s: State, since: seq<Call>) {
    && !s.initialized && s.sent == [] && s.environment == "dev" && s.superProperties == map[]
    && s.pendingOps == OpsOf(since)
    && (if s.pendingIdentify.Some?
        then LastIdentify(since) == [Identify(s.pendingIdentify.value)] && s.userId == Some(s.pendingIdentify.value.userId)
        else LastIdentify(since) == [] && s.userId == None)
  }

  lemma {:induction false} StepHolds(s: State, since: seq<Call>, call: Call)
    requires Holds(s, since) && !CanStart(call)
    ensures Holds(Step(s, call), if call.ResetAnalytics? then [] else since + [call])
  {
    assert (since + [call])[..|since|] == since && (since + [call])[|since|] == call;
  }

  /** Before initialization nothing is sent, and the buffers hold what has happened since the last reset. */
  lemma {:induction false} Buffered(calls: seq<Call>)
    requires NoStart(calls)
    ensures Holds(Run(calls), SinceReset(calls))
    decreases |calls|
  {
    if calls != [] {
      var before := calls[..|calls| - 1];
      assert !CanStart(calls[|calls| - 1]);
      Buffered(before);
      StepHolds(Run(before), SinceReset(before), calls[|calls| - 1]);
    }
  }

  lemma {:induction false} EmitsFacts(calls: seq<Call>)
    ensures OpsOf(Emits(calls)) == OpsOf(calls)
    ensures forall i :: 0 <= i < |Emits(calls)| ==> Emits(calls)[i].Emit?
    decreases |calls|
  {
    if calls != [] {
      var n := |calls| - 1;
      EmitsFacts(calls[..n]);
      var e := Emits(calls[..n]);
      if calls[n].Emit? { assert (e + [calls[n]])[..|e|] == e; }
    }
  }

  lemma {:induction false} EmitsKeepUser(head: seq<Call>, emits: seq<Call>)
    requires forall i :: 0 <= i < |emits| ==> emits[i].Emit?
    ensures UserAfter(head + emits) == UserAfter(head)
    decreases |emits|
  {
    if emits == [] {
      assert head + emits == head;
    } else {
      var n, all := |emits| - 1, head + emits;
      assert all[..|all| - 1] == head + emits[..n] && all[|all| - 1] == emits[n];
      EmitsKeepUser(head, emits[..n]);
    }
  }

  /** Delivering operations one after another, behind what has been sent. */
  lemma {:induction false} DirectEmits(head: seq<Call>, emits: seq<Call>, c: Config)
    requires forall i :: 0 <= i < |emits| ==> emits[i].Emit?
    ensures Direct(head + emits, c) == Direct(head, c) + Deliveries(OpsOf(emits), UserAfter(head), c.environment)
    decreases |emits|
  {
    if emits == [] {
      assert head + emits == head;
    } else {
      var n := |emits| - 1;
      var before, call := emits[..n], emits[n];
      DirectEmits(head, before, c);
      EmitsKeepUser(head, before);
      AppendLast(head, emits);
      var out := [Delivery(call.op, UserAfter(head), c.environment)];
      ConcatAssoc(Direct(head, c), Deliveries(OpsOf(before), UserAfter(head), c.environment), out);
    }
  }

  lemma {:induction false} AppendLast<T>(head: seq<T>, s: seq<T>)
    requires s != []
    ensures head + s == (head + s[..|s| - 1]) + [s[|s| - 1]]
  {
  }

  lemma {:induction false} HeadIsIdentify(calls: seq<Call>, c: Config)
    ensures LastIdentify(calls) == [] ==> Direct(LastIdentify(calls), c) == [] && UserAfter(LastIdentify(calls)) == None
    ensures LastIdentify(calls) != [] ==> var call := LastIdentify(calls)[0];
      LastIdentify(calls) == [call] && call.Identify?
      && Direct([call], c) == [Identified(call.who)] && UserAfter([call]) == Some(call.who.userId)
    decreases |calls|
  {
    if calls != [] {
      var n := |calls| - 1;
      if calls[n].Identify? {
        assert [calls[n]][..0] == [];
        assert Direct([calls[n]], c) == [] + [Identified(calls[n].who)];
      } else {
        HeadIsIdentify(calls[..n], c);
      }
    }
  }

  /** The library is set up before anything else reaches it. */
  function Setup(c: Config): seq<Sent> {
    [Init(c.key), Register(SuperProperties(c))]
  }

  lemma {:induction false} FlushIsReplay(before: seq<Call>, start: Call)
    requires NoStart(before) && CanStart(start)
    ensures var c := start.config.value;
      var s := Step(Run(before), start);
      && s.sent == Setup(c) + Direct(Replay(before), c)
      && s.initialized && s.userId == UserAfter(Replay(before))
      && s.environment == c.environment && s.superProperties == SuperProperties(c)
  {
    var c := start.config.value;
    var since := SinceReset(before);
    var s := Run(before);
    Buffered(before);
    EmitsFacts(since);
    HeadIsIdentify(since, c);
    EmitsKeepUser(LastIdentify(since), Emits(since));
    DirectEmits(LastIdentify(since), Emits(since), c);
    assert UserAfter(Replay(before)) == FlushUser(s);
    var who: seq<Sent> := if s.pendingIdentify.Some? then [Identified(s.pendingIdentify.value)] else [];
    var flushed := Deliveries(s.pendingOps, FlushUser(s), c.environment);
    assert Direct(LastIdentify(since), c) == who;
    assert [] + Setup(c) == Setup(c);
    ConcatAssoc(Setup(c), who, flushed);
    assert Step(s, start).sent == [] + Setup(c) + who + flushed;
  }

  /**
   * Buffering refines direct delivery: the library sees its set-up and then exactly what it would have seen if
   * the latest identify and the operations since the last reset had been called just then, followed by every
   * later call as it is made. Operations buffered before a reset are never delivered.
   */
  lemma {:induction false} BufferRefinesDirect(before: seq<Call>, start: Call, after: seq<Call>)
    requires NoStart(before) && CanStart(start)
    ensures var c := start.config.value;
      Run(before + [start] + after).sent == Setup(c) + Direct(Replay(before) + after, c)
    ensures var c := start.config.value;
      var s := Run(before + [start] + after);
      && s.initialized && s.userId == UserAfter(Replay(before) + after)
      && s.environment == c.environment && s.superProperties == SuperProperties(c)
    decreases |after|
  {
    var started := before + [start];
    if after == [] {
      assert started + after == started && Replay(before) + after == Replay(before);
      FlushIsReplay(before, start);
    } else {
      var n := |after| - 1;
      var earlier, call := after[..n], after[n];
      BufferRefinesDirect(before, start, earlier);
      AppendLast(started, after);
      AppendLast(Replay(before), after);
      StepIsDirect(Run(started + earlier), call, start.config.value, Replay(before) + earlier);
    }
  }

  lemma {:induction false} StepIsDirect(s: State, call: Call, c: Config, calls: seq<Call>)
    requires s.initialized && s.sent == Setup(c) + Direct(calls, c) && s.userId == UserAfter(calls)
    requires s.environment == c.environment && s.superProperties == SuperProperties(c)
    ensures var t := Step(s, call);
      && t.sent == Setup(c) + Direct(calls + [call], c) && t.userId == UserAfter(calls + [call]) && t.initialized
      && t.environment == c.environment && t.superProperties == SuperProperties(c)
  {
    assert (calls + [call])[..|calls|] == calls;
    var more := Through(call, UserAfter(calls), c);
    assert Direct(calls + [call], c) == Direct(calls, c) + more;
    ConcatAssoc(Setup(c), Direct(calls, c), more);
    assert "is_demo" in SuperProperties(c);
    assert Step(s, call).sent == s.sent + more;
  }

  /** Without a usable configuration nothing is ever sent. */
  lemma {:induction false} NoStartSendsNothing(calls: seq<Call>)
    requires NoStart(calls)
    ensures Run(calls).sent == []
  {
    Buffered(calls);
  }

  // ---------------------------------------------------------------- exactly once

  predicate IsOperation(s: Sent) {
    s.Captured? || s.CapturedException? || s.PersonSet?
  }

  function Operations(log: seq<Sent>): seq<Sent> {
    if log == [] then []
    else if IsOperation(log[|log| - 1]) then Operations(log[..|log| - 1]) + [log[|log| - 1]]
    else Operations(log[..|log| - 1])
  }

  /**
   * Everything the caller passed, as it was; beside it the schema version, the environment and the demo flag, and
   * the user if one is identified; and nothing else.
   */
  ghost predicate Stamped(sent: Props, props: Props, userId: Option<string>, environment: string) {
    && (forall k :: k in props ==> k in sent && sent[k] == props[k])
    && "event_schema_version" in sent && ("event_schema_version" in props || sent["event_schema_version"] == "2")
    && "environment" in sent && ("environment" in props || sent["environment"] == environment)
    && "is_demo" in sent && ("is_demo" in props || sent["is_demo"] == "false")
    && (if userId == None || userId == Some("") then "user_id" in sent ==> "user_id" in props
        else "user_id" in sent && ("user_id" in props || sent["user_id"] == userId.value))
    && forall k :: k in sent ==> k in props || k in {"event_schema_version", "environment", "is_demo", "user_id"}
  }

  /** `sent` is `op` with all it carries, stamped for this user and environment. */
  ghost predicate Carries(sent: Sent, op: Op, userId: Option<string>, environment: string) {
    match op
    case EventOp(name, props, instantly) =>
      sent.Captured? && sent.name == name && sent.instantly == instantly && Stamped(sent.props, props, userId, environment)
    case ExceptionOp(error, props) =>
      sent.CapturedException? && sent.error == error && Stamped(sent.props, props, userId, environment)
    case SetOp(props) => sent.PersonSet? && sent.props == props
  }

  lemma {:induction false} DeliveryCarries(op: Op, userId: Option<string>, environment: string)
    ensures Carries(Delivery(op, userId, environment), op, userId, environment)
  {
    if !op.SetOp? { StampFillsIn(op.props, userId, environment); }
  }

  lemma {:induction false} OperationsConcat(a: seq<Sent>, b: seq<Sent>)
    ensures Operations(a + b) == Operations(a) + Operations(b)
    decreases |b|
  {
    if b == [] {
      assert a + b == a && Operations(a) + [] == Operations(a);
    } else {
      var n := |b| - 1;
      assert (a + b)[..|a + b| - 1] == a + b[..n] && (a + b)[|a + b| - 1] == b[n];
      OperationsConcat(a, b[..n]);
    }
  }

  /** Who is identified at each operation among `calls`, made after `earlier`. */
  function UsersDuring(earlier: seq<Call>, calls: seq<Call>): seq<Option<string>> {
    if calls == [] then []
    else
      var before := calls[..|calls| - 1];
      UsersDuring(earlier, before) + if calls[|calls| - 1].Emit? then [UserAfter(earlier + before)] else []
  }

  lemma {:induction false} DirectCarries(calls: seq<Call>, c: Config)
    ensures CarriesAll(Operations(Direct(calls, c)), OpsOf(calls), UsersDuring([], calls), c.environment)
    decreases |calls|
  {
    if calls != [] {
      var n := |calls| - 1;
      var before, call := calls[..n], calls[n];
      var user := UserAfter(before);
      DirectCarries(before, c);
      OperationsConcat(Direct(before, c), Through(call, user, c));
      ThroughOperations(call, user, c);
      assert [] + before == before;
      if call.Emit? {
        DeliveryCarries(call.op, user, c.environment);
        CarriesNext(Operations(Direct(before, c)), OpsOf(before), UsersDuring([], before), c.environment,
                    Delivery(call.op, user, c.environment), call.op, user);
      } else {
        var d, u := Operations(Direct(before, c)), UsersDuring([], before);
        assert d + [] == d && u + [] == u;
      }
    }
  }

  /** One for one, in order. */
  ghost predicate CarriesAll(sent: seq<Sent>, ops: seq<Op>, users: seq<Option<string>>, environment: string) {
    |sent| == |ops| == |users| && forall i :: 0 <= i < |ops| ==> Carries(sent[i], ops[i], users[i], environment)
  }

  lemma {:induction false} CarriesNext(sent: seq<Sent>, ops: seq<Op>, users: seq<Option<string>>, environment: string,
                                       s: Sent, op: Op, user: Option<string>)
    requires CarriesAll(sent, ops, users, environment) && Carries(s, op, user, environment)
    ensures CarriesAll(sent + [s], ops + [op], users + [user], environment)
  {
  }

  lemma {:induction false} ThroughOperations(call: Call, userId: Option<string>, c: Config)
    ensures Operations(Through(call, userId, c)) == if call.Emit? then [Delivery(call.op, userId, c.environment)] else []
  {
    match call
    case InitAnalytics(_, _) =>
    case Identify(who) => assert [Identified(who)][..0] == [];
    case ResetAnalytics => SetupIsNoOperation(WasReset, Register(SuperProperties(c)));
    case Emit(op) => assert [Delivery(op, userId, c.environment)][..0] == [];
  }

  /**
   * Every operation since the last reset before initialization, and every one after it, is delivered once, in order,
   * with all it carries: the buffered ones for the user identified at the start, the later ones for the user of
   * their moment.
   */
  lemma {:induction false} ExactlyOnceInOrder(before: seq<Call>, start: Call, after: seq<Call>)
    requires NoStart(before) && CanStart(start)
    ensures var buffered := OpsOf(SinceReset(before));
      CarriesAll(Operations(Run(before + [start] + after).sent), buffered + OpsOf(after),
                 seq(|buffered|, _ => UserAfter(before)) + UsersDuring(before, after), start.config.value.environment)
  {
    var c := start.config.value;
    BufferRefinesDirect(before, start, after);
    OperationsConcat(Setup(c), Direct(Replay(before) + after, c));
    SetupIsNoOperation(Init(c.key), Register(SuperProperties(c)));
    DirectCarries(Replay(before) + after, c);
    ReplayedOps(before);
    OpsConcat(Replay(before), after);
    ReplayedUsers(before, after);
    var d := Operations(Direct(Replay(before) + after, c));
    assert [] + d == d;
  }

  lemma {:induction false} ReplayedUser(before: seq<Call>, after: seq<Call>)
    ensures UserAfter(LastIdentify(SinceReset(before))) == UserAfter(before)
    ensures UserAfter(Replay(before) + after) == UserAfter(before + after)
    decreases |before|, |after|
  {
    if after == [] {
      var since := SinceReset(before);
      assert Replay(before) + after == Replay(before) && before + after == before;
      EmitsFacts(since);
      EmitsKeepUser(LastIdentify(since), Emits(since));
      LastIdentifyUser(before);
    } else {
      var n := |after| - 1;
      ReplayedUser(before, after[..n]);
      AppendLast(Replay(before), after);
      AppendLast(before, after);
    }
  }

  lemma {:induction false} LastIdentifyUser(calls: seq<Call>)
    ensures UserAfter(LastIdentify(SinceReset(calls))) == UserAfter(calls)
    decreases |calls|
  {
    if calls != [] {
      var n := |calls| - 1;
      var since := SinceReset(calls[..n]);
      LastIdentifyUser(calls[..n]);
      assert (since + [calls[n]])[..|since|] == since;
    }
  }

  lemma {:induction false} BufferedUsers(head: seq<Call>, emits: seq<Call>)
    requires UsersDuring([], head) == [] && forall i :: 0 <= i < |emits| ==> emits[i].Emit?
    ensures UsersDuring([], head + emits) == seq(|OpsOf(emits)|, _ => UserAfter(head))
    decreases |emits|
  {
    if emits == [] {
      assert head + emits == head;
    } else {
      var n := |emits| - 1;
      BufferedUsers(head, emits[..n]);
      AppendLast(head, emits);
      EmitsKeepUser(head, emits[..n]);
      assert [] + (head + emits[..n]) == head + emits[..n];
    }
  }

  lemma {:induction false} ReplayedUsers(before: seq<Call>, after: seq<Call>)
    ensures UsersDuring([], Replay(before) + after)
      == seq(|OpsOf(SinceReset(before))|, _ => UserAfter(before)) + UsersDuring(before, after)
    decreases |after|
  {
    var buffered := seq(|OpsOf(SinceReset(before))|, _ => UserAfter(before));
    if after == [] {
      var since := SinceReset(before);
      EmitsFacts(since);
      IdentifyIsNoOp(since);
      NoUsers(since);
      BufferedUsers(LastIdentify(since), Emits(since));
      LastIdentifyUser(before);
      assert Replay(before) + after == Replay(before) && buffered + [] == buffered;
    } else {
      var n := |after| - 1;
      ReplayedUsers(before, after[..n]);
      ReplayedUser(before, after[..n]);
      AppendLast(Replay(before), after);
      assert [] + (Replay(before) + after[..n]) == Replay(before) + after[..n];
      ConcatAssoc(buffered, UsersDuring(before, after[..n]), if after[n].Emit? then [UserAfter(before + after[..n])] else []);
    }
  }

  lemma {:induction false} NoUsers(calls: seq<Call>)
    ensures UsersDuring([], LastIdentify(calls)) == []
    decreases |calls|
  {
    if calls != [] {
      var call := calls[|calls| - 1];
      if call.Identify? { assert [call][..0] == []; } else { NoUsers(calls[..|calls| - 1]); }
    }
  }

  /** The library is set up with the client's type and environment, and its version if it has one. */
  lemma {:induction false} SetupRegisters(c: Config)
    ensures |Setup(c)| == 2 && Setup(c)[0] == Init(c.key) && Setup(c)[1].Register?
    ensures var p := Setup(c)[1].props;
      && p.Keys == {"client_type", "event_schema_version", "environment", "is_demo"}
                   + (if c.appVersion == "" then {} else {"app_version"})
      && p["client_type"] == c.clientType && p["event_schema_version"] == "2" && p["environment"] == c.environment
      && p["is_demo"] == "false" && (c.appVersion != "" ==> p["app_version"] == c.appVersion)
  {
  }

  lemma {:induction false} SetupIsNoOperation(a: Sent, b: Sent)
    requires !IsOperation(a) && !IsOperation(b)
    ensures Operations([a, b]) == []
  {
    assert [a, b][..1] == [a] && [a][..0] == [];
    assert Operations([a]) == Operations([]) == [];
  }

  lemma {:induction false} ReplayedOps(calls: seq<Call>)
    ensures OpsOf(Replay(calls)) == OpsOf(SinceReset(calls))
  {
    var since := SinceReset(calls);
    EmitsFacts(since);
    IdentifyIsNoOp(since);
    OpsConcat(LastIdentify(since), Emits(since));
    assert [] + OpsOf(since) == OpsOf(since);
  }

  lemma {:induction false} IdentifyIsNoOp(calls: seq<Call>)
    ensures OpsOf(LastIdentify(calls)) == []
    decreases |calls|
  {
    if calls != [] {
      var call := calls[|calls| - 1];
      if call.Identify? { assert [call][..0] == []; } else { IdentifyIsNoOp(calls[..|calls| - 1]); }
    }
  }

  lemma {:induction false} OpsConcat(a: seq<Call>, b: seq<Call>)
    ensures OpsOf(a + b) == OpsOf(a) + OpsOf(b)
    decreases |b|
  {
    if b == [] {
      assert a + b == a && OpsOf(a) + [] == OpsOf(a);
    } else {
      var n := |b| - 1;
      assert (a + b)[..|a + b| - 1] == a + b[..n] && (a + b)[|a + b| - 1] == b[n];
      OpsConcat(a, b[..n]);
    }
  }
}
