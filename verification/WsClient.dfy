/** The reconnecting WebSocket client (packages/core/api/ws-client.ts). */
module WsClient {
  import opened Lists

  // ---------------------------------------------------------------- backoff

  const BASE_DELAY_MS := 1000
  const MAX_DELAY_MS := 30000

  function Pow2(n: nat): nat {
    if n == 0 then 1 else 2 * Pow2(n - 1)
  }

  function Base(attempt: nat): nat {
    if BASE_DELAY_MS * Pow2(attempt) < MAX_DELAY_MS then BASE_DELAY_MS * Pow2(attempt) else MAX_DELAY_MS
  }

  /** `Math.round`. */
  function Round(x: real): int {
    (x + 0.5).Floor
  }

  /** The delay before a reconnection, for a random number scaled to [-1, 1). */
  function Delay(attempt: nat, random: real): int {
    var base := Base(attempt) as real;
    var jitter := base * 0.2 * random;
    Round(if base + jitter < MAX_DELAY_MS as real then base + jitter else MAX_DELAY_MS as real)
  }

  lemma {:induction false} Pow2Grows(n: nat)
    ensures n >= 5 ==> Pow2(n) >= 32
    ensures Pow2(n) >= 1
  {
    if n > 5 { Pow2Grows(n - 1); }
    if n <= 5 { assert Pow2(0) == 1 && Pow2(1) == 2 && Pow2(2) == 4 && Pow2(3) == 8 && Pow2(4) == 16 && Pow2(5) == 32; }
  }

  /** The base doubles from one second until, with the sixth attempt, it stays at thirty. */
  lemma {:induction false} BaseDoubles(n: nat)
    ensures n < 5 ==> Base(n) == 1000 * Pow2(n) && (n < 4 ==> Base(n + 1) == 2 * Base(n))
    ensures n >= 5 <==> Base(n) == MAX_DELAY_MS
    ensures Base(n) <= Base(n + 1)
    ensures exists k :: Base(n) == 5 * k
  {
    Pow2Grows(n);
    Pow2Grows(n + 1);
    assert Pow2(0) == 1 && Pow2(1) == 2 && Pow2(2) == 4 && Pow2(3) == 8 && Pow2(4) == 16;
    assert BASE_DELAY_MS * Pow2(n) == 5 * (200 * Pow2(n)) && MAX_DELAY_MS == 5 * 6000;
  }

  /** Every delay lies within twenty per cent of its base, and never above the maximum. */
  lemma {:induction false} DelayBounds(n: nat, random: real)
    requires -1.0 <= random < 1.0
    ensures 0.8 * (Base(n) as real) <= Delay(n, random) as real <= 1.2 * (Base(n) as real)
    ensures Delay(n, random) <= MAX_DELAY_MS
  {
    BaseDoubles(n);
    var k :| Base(n) == 5 * k;
    var base := Base(n) as real;
    assert base == 5.0 * (k as real);
    assert base * 0.2 == k as real;
  }

  /** Jitter reaches the whole range: every whole delay within twenty per cent of the base can come out. */
  lemma {:induction false} EveryDelayComesOut(n: nat, d: int) returns (random: real)
    requires 0.8 * (Base(n) as real) <= d as real <= 1.2 * (Base(n) as real) && d <= MAX_DELAY_MS
    ensures -1.0 <= random < 1.0 && Delay(n, random) == d
  {
    BaseDoubles(n);
    var base := Base(n) as real;
    if d as real == 1.2 * base {
      random := LongestDelay(n, d);
    } else {
      random := ShorterDelay(n, d);
    }
  }

  lemma {:induction false} ShorterDelay(n: nat, d: int) returns (random: real)
    requires 0.8 * (Base(n) as real) <= d as real < 1.2 * (Base(n) as real) && d <= MAX_DELAY_MS && Base(n) > 0
    ensures -1.0 <= random < 1.0 && Delay(n, random) == d
  {
    var base := Base(n) as real;
    random := Ratio(d as real - base, base * 0.2);
  }

  lemma {:induction false} Ratio(x: real, spread: real) returns (r: real)
    requires spread > 0.0 && -spread <= x < spread
    ensures -1.0 <= r < 1.0 && spread * r == x
  {
    r := x / spread;
    assert spread * r == x;
    assert spread * (r + 1.0) == x + spread && spread * (r - 1.0) == x - spread;
  }

  /** The upper end comes out by rounding. */
  lemma {:induction false} LongestDelay(n: nat, d: int) returns (random: real)
    requires d as real == 1.2 * (Base(n) as real) && d <= MAX_DELAY_MS && Base(n) > 1
    ensures -1.0 <= random < 1.0 && Delay(n, random) == d
  {
    var base := Base(n) as real;
    random := 1.0 - 1.0 / base;
    assert base * (1.0 / base) == 1.0;
    assert base * 0.2 * random == 0.2 * base - 0.2;
    assert 1.0 / base <= 1.0;
  }

  /** The delays of an attempt are exactly the whole numbers within twenty per cent of its base, up to the maximum. */
  lemma {:induction false} DelaysAreExactly(n: nat, d: int)
    ensures (exists random :: -1.0 <= random < 1.0 && Delay(n, random) == d)
       <==> 0.8 * (Base(n) as real) <= d as real <= 1.2 * (Base(n) as real) && d <= MAX_DELAY_MS
  {
    if random :| -1.0 <= random < 1.0 && Delay(n, random) == d {
      DelayBounds(n, random);
    }
    if 0.8 * (Base(n) as real) <= d as real <= 1.2 * (Base(n) as real) && d <= MAX_DELAY_MS {
      var random := EveryDelayComesOut(n, d);
      assert Delay(n, random) == d;
    }
  }

  // ---------------------------------------------------------------- the connection

  /**
   * `ws` and `timer` are the client's references, which may be stale; `open` are the sockets that can still call
   * the client back, `armed` the timers that can still fire. `next` numbers sockets and timers.
   */
  datatype State = State(ws: Option<nat>, timer: Option<nat>, attempt: nat, connectedBefore: bool, next: nat,
                         open: set<nat>, armed: set<nat>, callbacks: set<nat>, delays: seq<int>,
                         notified: seq<set<nat>>)

  const INITIAL := State(None, None, 0, false, 0, {}, {}, {}, [], [])

  datatype Event =
    | Connect
    // The socket opens; with a token to send, authentication waits for the acknowledgement.
    | Opens(socket: nat, sendsToken: bool)
    | Acknowledges(socket: nat)
    | Closes(socket: nat, random: real)
    | Fires(timer: nat)
    | Disconnect
    | OnReconnect(callback: nat)
    | OffReconnect(callback: nat)

  predicate Possible(s: State, e: Event) {
    match e
    case Opens(w, _) => w in s.open
    case Acknowledges(w) => w in s.open
    case Closes(w, random) => w in s.open && -1.0 <= random < 1.0
    case Fires(t) => t in s.armed
    case _ => true
  }

  function Connected(s: State): State {
    s.(ws := Some(s.next), open := s.open + {s.next}, next := s.next + 1)
  }

  function Authenticated(s: State): State {
    s.(attempt := 0, connectedBefore := true,
       notified := if s.connectedBefore || s.attempt > 0 then s.notified + [s.callbacks] else s.notified)
  }

  function Step(s: State, e: Event): State {
    match e
    case Connect => Connected(s)
    case Opens(_, sendsToken) => if sendsToken then s else Authenticated(s)
    case Acknowledges(_) => Authenticated(s)
    case Closes(w, random) =>
      s.(open := s.open - {w}, attempt := s.attempt + 1, delays := s.delays + [Delay(s.attempt, random)],
         timer := Some(s.next), armed := s.armed + {s.next}, next := s.next + 1)
    case Fires(t) => Connected(s.(armed := s.armed - {t}))
    case Disconnect =>
      s.(armed := if s.timer.Some? then s.armed - {s.timer.value} else s.armed, timer := None,
         open := if s.ws.Some? then s.open - {s.ws.value} else s.open, ws := None,
         connectedBefore := false, attempt := 0, callbacks := {})
    case OnReconnect(c) => s.(callbacks := s.callbacks + {c})
    case OffReconnect(c) => s.(callbacks := s.callbacks - {c})
  }

  class WSClient {
    var ws: Option<nat>
    var reconnectTimer: Option<nat>
    var reconnectAttempt: nat
    var hasConnectedBefore: bool
    var onReconnectCallbacks: set<nat>
    // The host's side.
    var next: nat
    var open: set<nat>
    var armed: set<nat>
    var delays: seq<int>
    var notified: seq<set<nat>>

    function Abs(): State
      reads this
    {
      State(ws, reconnectTimer, reconnectAttempt, hasConnectedBefore, next, open, armed, onReconnectCallbacks,
            delays, notified)
    }

    constructor ()
      ensures Abs() == INITIAL
    {
      ws, reconnectTimer, reconnectAttempt, hasConnectedBefore := None, None, 0, false;
      onReconnectCallbacks, next, open, armed, delays, notified := {}, 0, {}, {}, [], [];
    }

    method ConnectCall()
      modifies this
      ensures Abs() == Step(old(Abs()), Connect)
    {
      var socket := next;
      next, open := next + 1, open + {socket};
      ws := Some(socket);
    }

    method OnOpen(socket: nat, sendsToken: bool)
      requires Possible(Abs(), Opens(socket, sendsToken))
      modifies this
      ensures Abs() == Step(old(Abs()), Opens(socket, sendsToken))
    {
      if sendsToken { return; }
      OnAuthenticated();
    }

    method OnAuthAck(socket: nat)
      requires Possible(Abs(), Acknowledges(socket))
      modifies this
      ensures Abs() == Step(old(Abs()), Acknowledges(socket))
    {
      OnAuthenticated();
    }

    method OnAuthenticated()
      modifies this
      ensures Abs() == Authenticated(old(Abs()))
    {
      var recoveredConnection := hasConnectedBefore || reconnectAttempt > 0;
      reconnectAttempt := 0;
      if recoveredConnection { notified := notified + [onReconnectCallbacks]; }
      hasConnectedBefore := true;
    }

    method OnClose(socket: nat, random: real)
      requires Possible(Abs(), Closes(socket, random))
      modifies this
      ensures Abs() == Step(old(Abs()), Closes(socket, random))
    {
      open := open - {socket};
      ScheduleReconnect(random);
    }

    method ScheduleReconnect(random: real)
      modifies this
      ensures Abs() == old(Abs()).(attempt := old(reconnectAttempt) + 1, timer := Some(old(next)), next := old(next) + 1,
                                   armed := old(armed) + {old(next)},
                                   delays := old(delays) + [Delay(old(reconnectAttempt), random)])
    {
      var delay := Delay(reconnectAttempt, random);
      reconnectAttempt := reconnectAttempt + 1;
      var timer := next;
      next, armed, delays := next + 1, armed + {timer}, delays + [delay];
      reconnectTimer := Some(timer);
    }

    method OnTimer(timer: nat)
      requires Possible(Abs(), Fires(timer))
      modifies this
      ensures Abs() == Step(old(Abs()), Fires(timer))
    {
      armed := armed - {timer};
      ConnectCall();
    }

    method DisconnectCall()
      modifies this
      ensures Abs() == Step(old(Abs()), Disconnect)
    {
      if reconnectTimer.Some? {
        armed := armed - {reconnectTimer.value};
        reconnectTimer := None;
      }
      if ws.Some? {
        open := open - {ws.value};
        ws := None;
      }
      hasConnectedBefore, reconnectAttempt, onReconnectCallbacks := false, 0, {};
    }
  }

  // ---------------------------------------------------------------- runs

  function Run(events: seq<Event>): State {
    if events == [] then INITIAL else Step(Run(events[..|events| - 1]), events[|events| - 1])
  }

  ghost predicate PossibleRun(events: seq<Event>) {
    events != [] ==> PossibleRun(events[..|events| - 1]) && Possible(Run(events[..|events| - 1]), events[|events| - 1])
  }

  /** A `connect()` has been called since the last `disconnect()`. */
  predicate Active(events: seq<Event>) {
    events != [] && (events[|events| - 1].Connect? || (!events[|events| - 1].Disconnect? && Active(events[..|events| - 1])))
  }

  /** `connect()` is not called again before a `disconnect()`. */
  ghost predicate OneConnectPerCycle(events: seq<Event>) {
    events != [] ==> OneConnectPerCycle(events[..|events| - 1])
                     && (events[|events| - 1].Connect? ==> !Active(events[..|events| - 1]))
  }

  /** Exactly one of a live socket and an armed timer, the one the client refers to; or, when idle, neither. */
  predicate Exclusive(s: State, active: bool) {
    if active then
      || (s.ws.Some? && s.open == {s.ws.value} && s.armed == {})
      || (s.timer.Some? && s.armed == {s.timer.value} && s.open == {})
    else s.open == {} && s.armed == {}
  }

  lemma {:induction false} StepExclusive(s: State, e: Event, active: bool)
    requires Exclusive(s, active) && Possible(s, e) && (e.Connect? ==> !active)
    ensures Exclusive(Step(s, e), e.Connect? || (!e.Disconnect? && active))
  {
  }

  /** Between connect and disconnect there is always one way back, and only one; after a disconnect there is none. */
  lemma {:induction false} RunExclusive(events: seq<Event>)
    requires PossibleRun(events) && OneConnectPerCycle(events)
    ensures Exclusive(Run(events), Active(events))
    decreases |events|
  {
    if events != [] {
      var before, e := events[..|events| - 1], events[|events| - 1];
      RunExclusive(before);
      StepExclusive(Run(before), e, Active(before));
    }
  }

  /** Numbers are given out once. */
  predicate Numbered(s: State) {
    (forall n :: n in s.open ==> n < s.next) && forall n :: n in s.armed ==> n < s.next
  }

  lemma {:induction false} RunNumbered(events: seq<Event>)
    ensures Numbered(Run(events))
    decreases |events|
  {
    if events != [] { RunNumbered(events[..|events| - 1]); }
  }

  /** The exclusion survives a `connect()` if and only if the client was idle. */
  lemma {:induction false} ConnectOnlyWhenIdle(events: seq<Event>)
    requires PossibleRun(events) && OneConnectPerCycle(events)
    ensures Exclusive(Step(Run(events), Connect), true) <==> !Active(events)
  {
    var s := Run(events);
    var t := Step(s, Connect);
    RunExclusive(events);
    RunNumbered(events);
    assert s.next in t.open && s.next !in s.open;
    if s.open != {} { assert s.ws.value in t.open && s.ws.value != s.next; }
  }

  /** A second `connect()` leaves a socket that `disconnect()` does not reach and whose close reconnects. */
  lemma {:induction false} SecondConnectLeaks()
    ensures var s := Run([Connect, Connect, Disconnect]); s.open == {0} && s.ws == None
    ensures Run([Connect, Connect, Disconnect, Closes(0, 0.0)]).armed != {}
  {
    var a, b, c := [Connect], [Connect, Connect], [Connect, Connect, Disconnect];
    var d := [Connect, Connect, Disconnect, Closes(0, 0.0)];
    assert a[..0] == [] && b[..1] == a && c[..2] == b && d[..3] == c;
    assert Run(a) == Step(INITIAL, Connect);
    assert Run(b) == Step(Run(a), Connect) && Run(c) == Step(Run(b), Disconnect);
    assert Run(d) == Step(Run(c), Closes(0, 0.0));
    assert Run(c).next in Run(d).armed;
  }

  // ---------------------------------------------------------------- reconnect callbacks

  predicate Authenticates(e: Event) {
    e.Acknowledges? || (e.Opens? && !e.sendsToken)
  }

  /** The connection was lost, or had been authenticated, since the last disconnect. */
  predicate Recovers(events: seq<Event>) {
    exists i :: 0 <= i < |events| && Counts(events, i)
  }

  /** An authentication or a loss, with no disconnect after it. */
  predicate Counts(events: seq<Event>, i: nat)
    requires i < |events|
  {
    (Authenticates(events[i]) || events[i].Closes?) && forall j :: i < j < |events| ==> !events[j].Disconnect?
  }

  lemma {:induction false} RecoversStep(events: seq<Event>)
    requires events != []
    ensures var before, e := events[..|events| - 1], events[|events| - 1];
      Recovers(events) <==> Authenticates(e) || e.Closes? || (!e.Disconnect? && Recovers(before))
  {
    var n := |events| - 1;
    var before := events[..n];
    forall i | 0 <= i < n ensures Counts(events, i) <==> Counts(before, i) && !events[n].Disconnect? {
      assert before[i] == events[i];
      if Counts(before, i) && !events[n].Disconnect? {
        forall j | i < j < |events| ensures !events[j].Disconnect? { assert j < n ==> before[j] == events[j]; }
      }
      if Counts(events, i) {
        forall j | i < j < n ensures !before[j].Disconnect? { assert before[j] == events[j]; }
      }
    }
    assert Counts(events, n) <==> Authenticates(events[n]) || events[n].Closes?;
  }

  /** What the client remembers is exactly whether this would be a recovery. */
  lemma {:induction false} RemembersRecovery(events: seq<Event>)
    ensures (Run(events).connectedBefore || Run(events).attempt > 0) <==> Recovers(events)
    decreases |events|
  {
    if events != [] {
      RemembersRecovery(events[..|events| - 1]);
      RecoversStep(events);
    }
  }

  /** On an authentication the registered callbacks run, once, if and only if it recovers a connection. */
  lemma {:induction false} NotifiesOnRecovery(events: seq<Event>, e: Event)
    requires Authenticates(e)
    ensures Step(Run(events), e).notified
         == Run(events).notified + if Recovers(events) then [Run(events).callbacks] else []
  {
    RemembersRecovery(events);
    assert Run(events).notified + [] == Run(events).notified;
  }

  /** Any other event runs none. */
  lemma {:induction false} NotifiesOnlyThen(events: seq<Event>, e: Event)
    requires !Authenticates(e)
    ensures Step(Run(events), e).notified == Run(events).notified
  {
  }

  /** The callback has been registered, and neither taken back nor dropped by a disconnect since. */
  predicate Registered(events: seq<Event>, callback: nat) {
    events != [] && (events[|events| - 1] == OnReconnect(callback)
      || (events[|events| - 1] != OffReconnect(callback) && !events[|events| - 1].Disconnect?
          && Registered(events[..|events| - 1], callback)))
  }

  /** The callbacks that would run are exactly those. */
  lemma {:induction false} CallbacksAreRegistered(events: seq<Event>, callback: nat)
    ensures callback in Run(events).callbacks <==> Registered(events, callback)
    decreases |events|
  {
    if events != [] { CallbacksAreRegistered(events[..|events| - 1], callback); }
  }

  // ---------------------------------------------------------------- the backoff over a run

  /** How many connections were lost since the last authentication or disconnect. */
  function Losses(events: seq<Event>): nat {
    if events == [] then 0
    else
      var before, e := Losses(events[..|events| - 1]), events[|events| - 1];
      if Authenticates(e) || e.Disconnect? then 0 else if e.Closes? then before + 1 else before
  }

  /** The attempt counter is that number after every run. */
  lemma {:induction false} AttemptCountsLosses(events: seq<Event>)
    ensures Run(events).attempt == Losses(events)
    decreases |events|
  {
    if events != [] { AttemptCountsLosses(events[..|events| - 1]); }
  }

  /** What the first losses in a row wait on, in milliseconds. */
  const BACKOFF := [1000, 2000, 4000, 8000, 16000, 30000]

  /** The wait after this many losses before. */
  function Backoff(losses: nat): nat {
    if losses < |BACKOFF| then BACKOFF[losses] else 30000
  }

  lemma {:induction false} BaseIsBackoff(n: nat)
    ensures Base(n) == Backoff(n)
  {
    BaseDoubles(n);
    assert Pow2(0) == 1 && Pow2(1) == 2 && Pow2(2) == 4 && Pow2(3) == 8 && Pow2(4) == 16;
  }

  /** The wait for a random number in [-1, 1): 20 % jitter around the backoff, at most 30 s. */
  function Wait(losses: nat, random: real): real {
    var b := Backoff(losses) as real;
    if b + b * 0.2 * random < 30000.0 then b + b * 0.2 * random else 30000.0
  }

  /** `d` is `x` rounded to whole milliseconds. */
  predicate Rounds(d: int, x: real) {
    x - 0.5 < d as real <= x + 0.5
  }

  /**
   * Over every run, a lost connection waits on the backoff of its place in the series of losses; so the first loss
   * after an authentication waits on one second.
   */
  lemma {:induction false} BackoffStartsOver(events: seq<Event>, w: nat, random: real)
    ensures exists d: int :: (Rounds(d, Wait(Losses(events), random))
      && Run(events + [Closes(w, random)]).delays == Run(events).delays + [d])
    ensures events != [] && Authenticates(events[|events| - 1]) ==> Backoff(Losses(events)) == 1000
  {
    AttemptCountsLosses(events);
    DelayIsNearest(Losses(events), random);
    ClosesWaits(events, w, random);
  }

  lemma {:induction false} DelayIsNearest(n: nat, random: real)
    ensures Rounds(Delay(n, random), Wait(n, random))
  {
    BaseIsBackoff(n);
  }

  lemma {:induction false} ClosesWaits(events: seq<Event>, w: nat, random: real)
    ensures Run(events + [Closes(w, random)]).delays == Run(events).delays + [Delay(Run(events).attempt, random)]
  {
    assert (events + [Closes(w, random)])[..|events|] == events;
  }

  /** No other event makes the client wait. */
  lemma {:induction false} WaitsOnlyThen(events: seq<Event>, e: Event)
    requires !e.Closes?
    ensures Run(events + [e]).delays == Run(events).delays
  {
    assert (events + [e])[..|events|] == events;
  }
}
