/** The reconnecting WebSocket client (packages/core/api/ws-client.ts:47-126, 148-214), with the sockets
    and timers it created. Time is a sequence of events; the random number of a backoff is a parameter. */
module WsClient {
  import opened Options
  import opened Sequences

  const BASE_DELAY := 1000
  const MAX_DELAY := 30000

  // ----- the backoff -----

  function Pow2(n: nat): (r: nat)
    ensures r > 0
  {
    if n == 0 then 1 else 2 * Pow2(n - 1)
  }

  function Min(a: int, b: int): int {
    if a < b then a else b
  }

  /** `Math.round` */
  function Round(x: real): int {
    (x + 0.5).Floor
  }

  function Base(attempt: nat): nat {
    Min(BASE_DELAY * Pow2(attempt), MAX_DELAY)
  }

  /** Up to 20% more or less, by a random number in [0, 1). */
  function Jittered(base: nat, random: real): real {
    base as real + base as real * 0.2 * (random * 2.0 - 1.0)
  }

  function Delay(attempt: nat, random: real): int {
    var jittered := Jittered(Base(attempt), random);
    Round(if jittered < MAX_DELAY as real then jittered else MAX_DELAY as real)
  }

  /** The delay lies between 80% and 120% of the capped exponential, and never above the cap. */
  predicate InBackoff(closes: nat, delay: int) {
    && 4 * Base(closes) <= 5 * delay
    && 5 * delay <= 6 * Base(closes)
    && delay <= MAX_DELAY
  }

  lemma RoundStaysBetween(low: int, x: real, high: int)
    requires low as real <= x <= high as real
    ensures low <= Round(x) <= high
  {
  }

  lemma BaseIsWholeThousand(attempt: nat) returns (k: nat)
    ensures Base(attempt) == 1000 * k && 1 <= k <= 30
  {
    k := if Pow2(attempt) < 30 then Pow2(attempt) else 30;
  }

  lemma FractionStaysBetween(c: real, g: real)
    requires c >= 0.0 && -1.0 <= g <= 1.0
    ensures -c <= c * g <= c
  {
  }

  lemma FifthStaysBetween(b: real, g: real)
    requires b >= 0.0 && -1.0 <= g <= 1.0
    ensures 0.8 * b <= b + b * 0.2 * g <= 1.2 * b
  {
    FractionStaysBetween(b * 0.2, g);
  }

  lemma JitterStaysBetween(k: nat, random: real)
    requires 0.0 <= random < 1.0
    ensures (800 * k) as real <= Jittered(1000 * k, random) <= (1200 * k) as real
  {
    var b := (1000 * k) as real;
    assert (800 * k) as real == 0.8 * b && (1200 * k) as real == 1.2 * b;
    FifthStaysBetween(b, random * 2.0 - 1.0);
  }

  lemma DelayInBackoff(attempt: nat, random: real)
    requires 0.0 <= random < 1.0
    ensures InBackoff(attempt, Delay(attempt, random))
  {
    var k := BaseIsWholeThousand(attempt);
    JitterStaysBetween(k, random);
    var jittered := Jittered(Base(attempt), random);
    var capped := if jittered < MAX_DELAY as real then jittered else MAX_DELAY as real;
    RoundStaysBetween(800 * k, capped, Min(1200 * k, MAX_DELAY));
  }

  /** The base doubles from one second and stays at thirty. */
  lemma BaseIs(attempt: nat)
    ensures Base(attempt) == if attempt < 5 then [1000, 2000, 4000, 8000, 16000][attempt] else 30000
  {
    PowersAbove(attempt);
    assert Pow2(4) == 2 * Pow2(3) == 16;
  }

  lemma {:induction false} PowersAbove(n: nat)
    ensures n >= 5 ==> Pow2(n) >= 32
  {
    if n > 5 {
      PowersAbove(n - 1);
    } else if n == 5 {
      assert Pow2(5) == 2 * Pow2(4) && Pow2(4) == 2 * Pow2(3);
    }
  }

  /** The random number moves the delay from a fifth below the base, through the base, to a fifth above it or the
      cap. */
  lemma DelayRange(attempt: nat)
    ensures Delay(attempt, 0.0) == Base(attempt) * 4 / 5 && Delay(attempt, 0.5) == Base(attempt)
    ensures Delay(attempt, 0.75) == Min(Base(attempt) * 11 / 10, MAX_DELAY)
  {
    var k := BaseIsWholeThousand(attempt);
    var b := Base(attempt) as real;
    assert Jittered(Base(attempt), 0.0) == 0.8 * b && (Base(attempt) * 4 / 5) as real == 0.8 * b;
    assert Jittered(Base(attempt), 0.75) == 1.1 * b && (Base(attempt) * 11 / 10) as real == 1.1 * b;
  }

  // ----- the client and what it has set up -----

  /** The iteration over the reconnect callbacks, while one of them may be running. */
  datatype Pass = NotCalling | Calling(rest: seq<nat>)

  /** `live` holds the sockets that can still fire events, and whether each is open; `armed` the timers
      that will fire, with their delays. */
  datatype Session = Session(
    ws: Option<nat>,
    reconnectTimer: Option<nat>,
    reconnectAttempt: nat,
    hasConnectedBefore: bool,
    onReconnectCallbacks: seq<nat>,
    cookieAuth: bool,
    token: Option<string>,
    pass: Pass,
    live: map<nat, bool>,
    armed: map<nat, int>,
    made: nat)

  function Connect(s: Session): Session {
    s.(ws := Some(s.made), live := s.live[s.made := false], made := s.made + 1)
  }

  function OnAuthenticated(s: Session): Session {
    if s.hasConnectedBefore
    then s.(reconnectAttempt := 0, pass := Calling(s.onReconnectCallbacks))
    else s.(reconnectAttempt := 0, hasConnectedBefore := true)
  }

  predicate SendsToken(s: Session) {
    !s.cookieAuth && Truthy(s.token)
  }

  function OnOpen(s: Session, socket: nat): Session {
    var open := s.(live := s.live[socket := true]);
    if SendsToken(s) then open else OnAuthenticated(open)
  }

  function ScheduleReconnect(s: Session, random: real): Session {
    s.(reconnectAttempt := s.reconnectAttempt + 1,
       reconnectTimer := Some(s.made),
       armed := s.armed[s.made := Delay(s.reconnectAttempt, random)],
       made := s.made + 1)
  }

  function OnClose(s: Session, socket: nat, random: real): Session {
    ScheduleReconnect(s.(live := s.live - {socket}), random)
  }

  function OnTimer(s: Session, timer: nat): Session {
    Connect(s.(armed := s.armed - {timer}))
  }

  function Disconnect(s: Session): Session {
    s.(armed := if s.reconnectTimer.Some? then s.armed - {s.reconnectTimer.value} else s.armed,
       reconnectTimer := None,
       live := if s.ws.Some? then s.live - {s.ws.value} else s.live,
       ws := None,
       hasConnectedBefore := false,
       reconnectAttempt := 0,
       onReconnectCallbacks := [],
       pass := if s.pass.Calling? then Calling([]) else NotCalling)
  }

  function AddCallback(s: Session, cb: nat): Session {
    if cb in s.onReconnectCallbacks then s
    else s.(onReconnectCallbacks := s.onReconnectCallbacks + [cb],
            pass := if s.pass.Calling? then Calling(s.pass.rest + [cb]) else NotCalling)
  }

  function RemoveCallback(s: Session, cb: nat): Session {
    s.(onReconnectCallbacks := Omit(s.onReconnectCallbacks, cb),
       pass := if s.pass.Calling? then Calling(Omit(s.pass.rest, cb)) else NotCalling)
  }

  /** The callback in progress returns: the next one is called, or the pass ends. */
  function Continue(s: Session): Session
    requires s.pass.Calling?
  {
    if s.pass.rest != [] then s.(pass := Calling(s.pass.rest[1..]))
    else s.(pass := NotCalling, hasConnectedBefore := true)
  }

  /** The pass run to its end, with callbacks that make no further calls. */
  function FinishPass(s: Session): Session
    decreases if s.pass.Calling? then 1 + |s.pass.rest| else 0
  {
    if s.pass.Calling? then FinishPass(Continue(s)) else s
  }

  /** The callbacks called on the way. */
  function CalledInPass(s: Session): seq<nat>
    decreases if s.pass.Calling? then 1 + |s.pass.rest| else 0
  {
    if s.pass.NotCalling? then []
    else (if s.pass.rest == [] then [] else [s.pass.rest[0]]) + CalledInPass(Continue(s))
  }

  /** A pass calls every callback that was left, once and in order, and then notes the connection; nothing else
      changes. */
  lemma {:induction false} PassCallsAll(s: Session)
    requires s.pass.Calling?
    ensures CalledInPass(s) == s.pass.rest
    ensures FinishPass(s) == s.(pass := NotCalling, hasConnectedBefore := true)
    decreases |s.pass.rest|
  {
    if s.pass.rest != [] {
      PassCallsAll(Continue(s));
    }
  }

  lemma {:induction false} OmitAbsent(cbs: seq<nat>, cb: nat)
    requires cb !in cbs
    ensures Omit(cbs, cb) == cbs
  {
    if cbs != [] {
      OmitAbsent(cbs[1..], cb);
    }
  }

  /** A callback added during a pass is called last in it, and one removed before its turn is not called. */
  lemma PassFollowsChanges(s: Session, cb: nat)
    requires s.pass.Calling? && forall c <- s.pass.rest :: c in s.onReconnectCallbacks
    ensures CalledInPass(AddCallback(s, cb)) ==
            CalledInPass(s) + (if cb in s.onReconnectCallbacks then [] else [cb])
    ensures CalledInPass(RemoveCallback(s, cb)) == Omit(CalledInPass(s), cb)
    ensures CalledInPass(Disconnect(s)) == []
  {
    PassCallsAll(s);
    PassCallsAll(AddCallback(s, cb));
    PassCallsAll(RemoveCallback(s, cb));
    PassCallsAll(Disconnect(s));
  }

  // ----- the class itself -----

  class WSClient {
    var ws: Option<nat>
    var reconnectTimer: Option<nat>
    var reconnectAttempt: nat
    var hasConnectedBefore: bool
    var onReconnectCallbacks: seq<nat>
    const cookieAuth: bool
    var token: Option<string>
    var pass: Pass
    var live: map<nat, bool>
    var armed: map<nat, int>
    var made: nat

    ghost function Now(): Session
      reads this
    {
      Session(ws, reconnectTimer, reconnectAttempt, hasConnectedBefore, onReconnectCallbacks, cookieAuth, token,
              pass, live, armed, made)
    }

    constructor (cookieAuth: bool)
      ensures Now() == Initial(cookieAuth)
    {
      this.cookieAuth := cookieAuth;
      ws, reconnectTimer, reconnectAttempt := None, None, 0;
      hasConnectedBefore, onReconnectCallbacks, token := false, [], None;
      pass, live, armed, made := NotCalling, map[], map[], 0;
    }

    method SetAuth(token: Option<string>)
      modifies this
      ensures Now() == old(Now()).(token := token)
    {
      this.token := token;
    }

    method Open()
      modifies this
      ensures Now() == Connect(old(Now()))
    {
      ws := Some(made);
      live := live[made := false];
      made := made + 1;
    }

    method HandleOpen(socket: nat)
      modifies this
      ensures Now() == OnOpen(old(Now()), socket)
    {
      live := live[socket := true];
      if !cookieAuth && Truthy(token) {
        return;
      }
      HandleAuthenticated();
    }

    method HandleAuthenticated()
      modifies this
      ensures Now() == OnAuthenticated(old(Now()))
    {
      reconnectAttempt := 0;
      if hasConnectedBefore {
        pass := Calling(onReconnectCallbacks);
      } else {
        hasConnectedBefore := true;
      }
    }

    method HandleClose(socket: nat, random: real)
      modifies this
      ensures Now() == OnClose(old(Now()), socket, random)
    {
      live := live - {socket};
      Reschedule(random);
    }

    method Reschedule(random: real)
      modifies this
      ensures Now() == ScheduleReconnect(old(Now()), random)
    {
      var delay := Delay(reconnectAttempt, random);
      reconnectAttempt := reconnectAttempt + 1;
      armed := armed[made := delay];
      reconnectTimer := Some(made);
      made := made + 1;
    }

    method HandleTimer(timer: nat)
      modifies this
      ensures Now() == OnTimer(old(Now()), timer)
    {
      armed := armed - {timer};
      Open();
    }

    method OnReconnect(cb: nat)
      modifies this
      ensures Now() == AddCallback(old(Now()), cb)
    {
      if cb !in onReconnectCallbacks {
        onReconnectCallbacks := onReconnectCallbacks + [cb];
        if pass.Calling? {
          pass := Calling(pass.rest + [cb]);
        }
      }
    }

    method OffReconnect(cb: nat)
      modifies this
      ensures Now() == RemoveCallback(old(Now()), cb)
    {
      onReconnectCallbacks := Omit(onReconnectCallbacks, cb);
      if pass.Calling? {
        pass := Calling(Omit(pass.rest, cb));
      }
    }

    /** The loop over the callbacks, up to the next call, and what follows it. */
    method ContinueCalling()
      requires pass.Calling?
      modifies this
      ensures Now() == Continue(old(Now()))
    {
      if pass.rest != [] {
        pass := Calling(pass.rest[1..]);
      } else {
        pass := NotCalling;
        hasConnectedBefore := true;
      }
    }

    method Close()
      modifies this
      ensures Now() == Disconnect(old(Now()))
    {
      if reconnectTimer.Some? {
        armed := armed - {reconnectTimer.value};
        reconnectTimer := None;
      }
      if ws.Some? {
        live := live - {ws.value};
        ws := None;
      }
      hasConnectedBefore := false;
      reconnectAttempt := 0;
      onReconnectCallbacks := [];
      if pass.Calling? {
        pass := Calling([]);
      }
    }
  }

  // ----- runs -----

  function Initial(cookieAuth: bool): Session {
    Session(None, None, 0, false, [], cookieAuth, None, NotCalling, map[], map[], 0)
  }

  datatype Event =
    | Connecting
    | SettingAuth(token: Option<string>)
    | Opened(socket: nat)
    | AuthAck(socket: nat)
    | Closed(socket: nat, random: real)
    | TimerFires(timer: nat)
    | Disconnecting
    | Adding(cb: nat)
    | Removing(cb: nat)
    | CallbackReturns

  /** What has happened so far: whether the owner wants a connection, how many authentications there were
      since the last disconnect, how many closes since the last of either, and whether that disconnect
      was made from inside a reconnect callback. */
  datatype History = History(wanted: bool, auths: nat, closes: nat, fromCallback: bool)

  const NOTHING := History(false, 0, 0, false)

  /** Sockets and timers fire only while they can, and never while a callback is running; the owner
      connects only while no connection is wanted. */
  predicate Enabled(s: Session, h: History, e: Event) {
    match e
    case Connecting => !h.wanted
    case Opened(socket) => s.pass.NotCalling? && socket in s.live && !s.live[socket]
    case AuthAck(socket) => s.pass.NotCalling? && socket in s.live && s.live[socket]
    case Closed(socket, random) => s.pass.NotCalling? && socket in s.live && 0.0 <= random < 1.0
    case TimerFires(timer) => s.pass.NotCalling? && timer in s.armed
    case CallbackReturns => s.pass.Calling?
    case _ => true
  }

  function Step(s: Session, e: Event): Session
    requires e.CallbackReturns? ==> s.pass.Calling?
  {
    match e
    case Connecting => Connect(s)
    case SettingAuth(token) => s.(token := token)
    case Opened(socket) => OnOpen(s, socket)
    case AuthAck(_) => OnAuthenticated(s)
    case Closed(socket, random) => OnClose(s, socket, random)
    case TimerFires(timer) => OnTimer(s, timer)
    case Disconnecting => Disconnect(s)
    case Adding(cb) => AddCallback(s, cb)
    case Removing(cb) => RemoveCallback(s, cb)
    case CallbackReturns => Continue(s)
  }

  predicate Authenticates(s: Session, e: Event) {
    e.AuthAck? || (e.Opened? && !SendsToken(s))
  }

  function Note(s: Session, h: History, e: Event): History {
    if e.Connecting? then h.(wanted := true)
    else if e.Disconnecting? then History(false, 0, 0, s.pass.Calling?)
    else if e.Closed? then h.(closes := h.closes + 1)
    else if Authenticates(s, e) then h.(auths := h.auths + 1, closes := 0)
    else h
  }

  ghost predicate Reaches(s: Session, h: History, events: seq<Event>, s': Session, h': History)
    decreases |events|
  {
    if events == [] then s' == s && h' == h
    else Enabled(s, h, events[0]) && Reaches(Step(s, events[0]), Note(s, h, events[0]), events[1..], s', h')
  }

  // ----- what every run keeps -----

  /** While a connection is wanted there is exactly one of a live socket and an armed timer, and it is the
      one the client remembers; otherwise there is neither. */
  predicate OneConnection(s: Session, h: History) {
    if !h.wanted then s.live == map[] && s.armed == map[]
    else
      || (s.armed == map[] && s.ws.Some? && s.live.Keys == {s.ws.value})
      || (s.live == map[] && s.reconnectTimer.Some? && s.armed.Keys == {s.reconnectTimer.value})
  }

  predicate IdsAreMade(s: Session) {
    && (s.ws.Some? ==> s.ws.value < s.made)
    && (s.reconnectTimer.Some? ==> s.reconnectTimer.value < s.made)
  }

  predicate BackoffInStep(s: Session, h: History) {
    && s.reconnectAttempt == h.closes
    && forall t | t in s.armed :: h.closes > 0 && InBackoff(h.closes - 1, s.armed[t])
  }

  predicate CallbacksInStep(s: Session, h: History) {
    if s.pass.Calling? then (s.hasConnectedBefore <==> h.auths > 0) && (h.auths == 0 ==> h.fromCallback)
    else s.hasConnectedBefore <==> h.auths > 0 || h.fromCallback
  }

  predicate Inv(s: Session, h: History) {
    OneConnection(s, h) && IdsAreMade(s) && BackoffInStep(s, h) && CallbacksInStep(s, h)
  }

  lemma StepKeeps(s: Session, h: History, e: Event)
    requires Inv(s, h) && Enabled(s, h, e)
    ensures Inv(Step(s, e), Note(s, h, e))
  {
    if e.Closed? {
      DelayInBackoff(s.reconnectAttempt, e.random);
    }
  }

  lemma {:induction false} RunKeeps(s: Session, h: History, events: seq<Event>, s': Session, h': History)
    requires Inv(s, h) && Reaches(s, h, events, s', h')
    ensures Inv(s', h')
    decreases |events|
  {
    if events != [] {
      StepKeeps(s, h, events[0]);
      RunKeeps(Step(s, events[0]), Note(s, h, events[0]), events[1..], s', h');
    }
  }

  /** In every state of every run: never a socket and a timer, nor two of either, and none once disconnected;
      while a connection is wanted, one of them is there to bring it about. */
  lemma NeverTwoConnections(cookieAuth: bool, events: seq<Event>, s: Session, h: History)
    requires Reaches(Initial(cookieAuth), NOTHING, events, s, h)
    ensures |s.live.Keys| + |s.armed.Keys| == if h.wanted then 1 else 0
    ensures Disconnect(s).live == map[] && Disconnect(s).armed == map[]
  {
    RunKeeps(Initial(cookieAuth), NOTHING, events, s, h);
    assert s.live == map[] <==> s.live.Keys == {};
    assert s.armed == map[] <==> s.armed.Keys == {};
  }

  /** Disconnecting brings back the first state, but for the token and a pass in progress, which calls no more. */
  lemma DisconnectForgets(cookieAuth: bool, events: seq<Event>, s: Session, h: History)
    requires Reaches(Initial(cookieAuth), NOTHING, events, s, h)
    ensures Disconnect(s) == Initial(cookieAuth).(
              token := s.token, made := s.made, pass := if s.pass.Calling? then Calling([]) else NotCalling)
  {
    RunKeeps(Initial(cookieAuth), NOTHING, events, s, h);
    ModeStays(Initial(cookieAuth), NOTHING, events, s, h);
  }

  lemma {:induction false} ModeStays(s: Session, h: History, events: seq<Event>, s': Session, h': History)
    requires Reaches(s, h, events, s', h')
    ensures s'.cookieAuth == s.cookieAuth
    decreases |events|
  {
    if events != [] {
      ModeStays(Step(s, events[0]), Note(s, h, events[0]), events[1..], s', h');
    }
  }

  /** A timer that fires is replaced by a fresh socket that is not open yet, and an opened socket stays. */
  lemma TimerReconnects(cookieAuth: bool, events: seq<Event>, s: Session, h: History, e: Event)
    requires Reaches(Initial(cookieAuth), NOTHING, events, s, h) && Enabled(s, h, e)
    ensures e.TimerFires? || e.Connecting? ==>
              Step(s, e).ws == Some(s.made) && Step(s, e).live == map[s.made := false] && Step(s, e).armed == map[]
    ensures e.Opened? ==> Step(s, e).live == map[e.socket := true]
  {
    RunKeeps(Initial(cookieAuth), NOTHING, events, s, h);
  }

  /** Opening is authentication enough unless a token has to be sent first: then only the answer counts. */
  lemma OpenWaitsForTokenIff(s: Session, h: History, socket: nat)
    requires Enabled(s, h, Opened(socket))
    ensures Note(s, h, Opened(socket)).auths ==
            if !s.cookieAuth && s.token.Some? && s.token.value != "" then h.auths else h.auths + 1
    ensures Note(s, h, Opened(socket)).auths == h.auths <==>
            Step(s, Opened(socket)) == s.(live := s.live[socket := true]) &&
            !s.cookieAuth && s.token.Some? && s.token.value != ""
  {
  }

  /** The token set last. */
  function LastToken(token: Option<string>, events: seq<Event>): Option<string>
    decreases |events|
  {
    if events == [] then token
    else LastToken(if events[0].SettingAuth? then events[0].token else token, events[1..])
  }

  /** The last word on one callback: added, or removed by itself or with all others. */
  function StillAdded(added: bool, cb: nat, events: seq<Event>): bool
    decreases |events|
  {
    if events == [] then added
    else
      StillAdded(if events[0] == Adding(cb) then true
                 else if events[0] == Removing(cb) || events[0].Disconnecting? then false else added,
                 cb, events[1..])
  }

  lemma StepObeys(s: Session, h: History, e: Event, cb: nat)
    requires Enabled(s, h, e)
    ensures Step(s, e).token == if e.SettingAuth? then e.token else s.token
    ensures cb in Step(s, e).onReconnectCallbacks <==>
            e == Adding(cb) || (cb in s.onReconnectCallbacks && e != Removing(cb) && !e.Disconnecting?)
  {
  }

  /** Over every run the token is the one set last, and the callbacks are those added and not removed since. */
  lemma {:induction false} OwnerIsObeyed(s: Session, h: History, events: seq<Event>, s': Session, h': History, cb: nat)
    requires Reaches(s, h, events, s', h')
    ensures s'.token == LastToken(s.token, events)
    ensures cb in s'.onReconnectCallbacks <==> StillAdded(cb in s.onReconnectCallbacks, cb, events)
    decreases |events|
  {
    if events != [] {
      StepObeys(s, h, events[0], cb);
      OwnerIsObeyed(Step(s, events[0]), Note(s, h, events[0]), events[1..], s', h', cb);
    }
  }

  /** Connecting while a socket is still live puts that socket out of reach of `disconnect`: it stays, and
      its close event will schedule a reconnect. */
  lemma SecondConnectEscapes(cookieAuth: bool, events: seq<Event>, s: Session, h: History)
    requires Reaches(Initial(cookieAuth), NOTHING, events, s, h)
    ensures var after := Disconnect(Connect(s));
            after.live == map[] && after.armed == map[] <==> !h.wanted || s.live == map[]
  {
    RunKeeps(Initial(cookieAuth), NOTHING, events, s, h);
    var after := Disconnect(Connect(s));
    if h.wanted && s.live != map[] {
      assert s.ws.value in after.live;
    }
  }

  /** After k closes since the last authentication or disconnect the next attempt is armed with the k-th backoff. */
  lemma BackoffFollowsCloses(cookieAuth: bool, events: seq<Event>, s: Session, h: History, socket: nat, random: real)
    requires Reaches(Initial(cookieAuth), NOTHING, events, s, h)
    requires Enabled(s, h, Closed(socket, random))
    ensures var after := Step(s, Closed(socket, random));
            && after.reconnectTimer.Some? && after.armed.Keys == {after.reconnectTimer.value}
            && InBackoff(h.closes, after.armed[after.reconnectTimer.value])
  {
    RunKeeps(Initial(cookieAuth), NOTHING, events, s, h);
    DelayInBackoff(s.reconnectAttempt, random);
  }

  /** The reconnect callbacks are run by the second and every later authentication since the last
      disconnect, and by the first one exactly when that disconnect was made from inside a callback. */
  lemma CallbacksRunIff(cookieAuth: bool, events: seq<Event>, s: Session, h: History, e: Event)
    requires Reaches(Initial(cookieAuth), NOTHING, events, s, h)
    requires Enabled(s, h, e) && Authenticates(s, e)
    ensures Step(s, e).pass == if h.auths >= 1 || h.fromCallback then Calling(s.onReconnectCallbacks) else NotCalling
    ensures Note(s, h, e).auths == h.auths + 1
  {
    RunKeeps(Initial(cookieAuth), NOTHING, events, s, h);
  }

  /** A run in which the first authentication after a disconnect does run them: the pass in which the
      disconnect is made ends by marking the client as connected before. */
  lemma DisconnectInsideCallback()
    ensures exists events: seq<Event>, s, h ::
      Reaches(Initial(true), NOTHING, events, s, h) && h.auths == 0 && !h.wanted && s.hasConnectedBefore
  {
    var events := [Connecting, Opened(0), Adding(7), AuthAck(0), Disconnecting, CallbackReturns];
    var s0, h0 := Initial(true), NOTHING;
    var s1, h1 := Step(s0, events[0]), Note(s0, h0, events[0]);
    var s2, h2 := Step(s1, events[1]), Note(s1, h1, events[1]);
    var s3, h3 := Step(s2, events[2]), Note(s2, h2, events[2]);
    var s4, h4 := Step(s3, events[3]), Note(s3, h3, events[3]);
    var s5, h5 := Step(s4, events[4]), Note(s4, h4, events[4]);
    var s6, h6 := Step(s5, events[5]), Note(s5, h5, events[5]);
    assert Reaches(s6, h6, events[6..], s6, h6);
    assert events[5..][1..] == events[6..];
    assert Reaches(s5, h5, events[5..], s6, h6);
    assert events[4..][1..] == events[5..];
    assert Reaches(s4, h4, events[4..], s6, h6);
    assert events[3..][1..] == events[4..];
    assert Reaches(s3, h3, events[3..], s6, h6);
    assert events[2..][1..] == events[3..];
    assert Reaches(s2, h2, events[2..], s6, h6);
    assert events[1..][1..] == events[2..];
    assert Reaches(s1, h1, events[1..], s6, h6);
    assert Reaches(s0, h0, events, s6, h6);
  }
}
