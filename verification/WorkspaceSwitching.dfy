/** The current workspace and its deferred notifications (packages/core/platform/workspace-storage.ts:6-92).
    A microtask is run in small steps, so that any call may also be made from inside a callback. */
module WorkspaceSwitching {
  import opened Options
  import opened Sequences

  type Slug = Option<string>

  datatype Task = Notify | Rehydrate

  /** What the microtask in progress still has to call. */
  datatype Activity = Idle | Notifying(current: Slug, rest: seq<nat>) | Rehydrating(next: nat)

  /** `seen` is the slug each subscriber was last told; `loaded` the slug from whose namespace each
      registered store last read. Behind a callback that threw, `skipped` subscribers and `unread` stores
      were not called. */
  datatype State = State(
    slug: Slug,
    wsId: Option<string>,
    pendingNotify: bool,
    pendingRehydrate: bool,
    queue: seq<Task>,
    activity: Activity,
    subscribers: seq<nat>,
    seen: map<nat, Slug>,
    loaded: seq<Slug>,
    skipped: set<nat>,
    unread: set<nat>)

  const INITIAL := State(None, None, false, false, [], Idle, [], map[], [], {}, {})

  // ----- the operations -----

  function Switch(s: State, slug: Slug, wsId: Option<string>): State {
    if s.slug == slug then s.(wsId := wsId)
    else s.(
      slug := slug,
      wsId := wsId,
      pendingNotify := true,
      pendingRehydrate := true,
      queue := s.queue + (if s.pendingNotify then [] else [Notify]) + (if s.pendingRehydrate then [] else [Rehydrate]))
  }

  /** The iteration in progress also visits subscribers added behind it. */
  function Subscribe(s: State, fn: nat): State {
    if fn in s.subscribers then s
    else s.(
      subscribers := s.subscribers + [fn],
      seen := s.seen[fn := s.slug],
      skipped := s.skipped - {fn},
      activity := match s.activity
                  case Notifying(current, rest) => Notifying(current, rest + [fn])
                  case _ => s.activity)
  }

  /** The iteration in progress skips a subscriber deleted before its turn. */
  function Unsubscribe(s: State, fn: nat): State {
    s.(subscribers := Omit(s.subscribers, fn),
       skipped := s.skipped - {fn},
       activity := match s.activity
                   case Notifying(current, rest) => Notifying(current, Omit(rest, fn))
                   case _ => s.activity)
  }

  function Register(s: State): State {
    s.(loaded := s.loaded + [s.slug])
  }

  predicate Settled(s: State) {
    s.activity == Idle && s.queue == []
  }

  /** One step of the microtask queue: take the next task, make its next call, or end it. */
  function RunStep(s: State): State {
    match s.activity
    case Idle =>
      if s.queue == [] then s
      else if s.queue[0] == Notify then
        s.(queue := s.queue[1..], pendingNotify := false, activity := Notifying(s.slug, s.subscribers))
      else
        s.(queue := s.queue[1..], pendingRehydrate := false, activity := Rehydrating(0))
    case Notifying(current, rest) =>
      if rest == [] then s.(activity := Idle)
      else s.(
        seen := s.seen[rest[0] := current],
        skipped := s.skipped - {rest[0]},
        activity := Notifying(current, rest[1..]))
    case Rehydrating(next) =>
      if next >= |s.loaded| then s.(activity := Idle)
      else s.(loaded := s.loaded[next := s.slug], unread := s.unread - {next}, activity := Rehydrating(next + 1))
  }

  /** The indices from `next` on. */
  function Behind(next: nat, stores: nat): (r: set<nat>)
    ensures forall i: nat :: i in r <==> next <= i < stores
    decreases if next < stores then stores - next else 0
  {
    if next >= stores then {} else {next} + Behind(next + 1, stores)
  }

  /** The callback in progress throws: nothing guards the loop, so it ends, with its flag already cleared. */
  function Abandon(s: State): State {
    match s.activity
    case Idle => s
    case Notifying(_, rest) => s.(skipped := s.skipped + (set fn | fn in rest), activity := Idle)
    case Rehydrating(next) => s.(unread := s.unread + Behind(next, |s.loaded|), activity := Idle)
  }

  datatype Event =
    | SwitchTo(slug: Slug, wsId: Option<string>)
    | Subscribing(fn: nat)
    | Unsubscribing(fn: nat)
    | Registering
    | Microtask
    | Throwing

  function Apply(s: State, e: Event): State {
    match e
    case SwitchTo(slug, wsId) => Switch(s, slug, wsId)
    case Subscribing(fn) => Subscribe(s, fn)
    case Unsubscribing(fn) => Unsubscribe(s, fn)
    case Registering => Register(s)
    case Microtask => RunStep(s)
    case Throwing => Abandon(s)
  }

  function Run(s: State, events: seq<Event>): State
    decreases |events|
  {
    if events == [] then s else Run(Apply(s, events[0]), events[1..])
  }

  // ----- what every run keeps -----

  /** Each flag says that its task is queued, and no task is queued twice. */
  predicate QueueInStep(s: State) {
    && (s.pendingNotify <==> Notify in s.queue)
    && (s.pendingRehydrate <==> Rehydrate in s.queue)
    && |s.queue| <= 2
    && (|s.queue| == 2 ==> s.queue[0] != s.queue[1])
  }

  predicate StillToCall(a: Activity, slug: Slug, fn: nat) {
    a.Notifying? && a.current == slug && fn in a.rest
  }

  predicate SubscribersInStep(s: State) {
    && (forall fn | fn in s.subscribers :: fn in s.seen)
    && (s.activity.Notifying? ==> forall fn | fn in s.activity.rest :: fn in s.subscribers)
    && (s.activity.Notifying? && !s.pendingNotify ==> s.activity.current == s.slug)
    && (!s.pendingNotify ==>
          forall fn | fn in s.subscribers ::
            s.seen[fn] == s.slug || StillToCall(s.activity, s.slug, fn) || fn in s.skipped)
  }

  predicate StoresInStep(s: State) {
    !s.pendingRehydrate ==>
      forall i | 0 <= i < |s.loaded| ::
        s.loaded[i] == s.slug || (s.activity.Rehydrating? && s.activity.next <= i) || i in s.unread
  }

  predicate InStep(s: State) {
    QueueInStep(s) && SubscribersInStep(s) && StoresInStep(s)
  }

  lemma SwitchKeeps(s: State, slug: Slug, wsId: Option<string>)
    requires InStep(s)
    ensures InStep(Switch(s, slug, wsId))
  {
    if s.slug != slug {
      var notify := if s.pendingNotify then [] else [Notify];
      var rehydrate := if s.pendingRehydrate then [] else [Rehydrate];
      assert forall t: Task :: t in s.queue + notify + rehydrate <==> t in s.queue || t in notify || t in rehydrate;
      if |s.queue| > 0 {
        var first, last := s.queue[0], s.queue[|s.queue| - 1];
        assert first in s.queue && (first.Notify? || first.Rehydrate?);
        assert last in s.queue && (last.Notify? || last.Rehydrate?);
      }
      assert !s.pendingNotify ==> Notify in notify;
      assert !s.pendingRehydrate ==> Rehydrate in rehydrate;
    }
  }

  lemma SubscribeKeeps(s: State, fn: nat)
    requires InStep(s)
    ensures InStep(Subscribe(s, fn))
  {
  }

  lemma UnsubscribeKeeps(s: State, fn: nat)
    requires InStep(s)
    ensures InStep(Unsubscribe(s, fn))
  {
  }

  lemma TakeTaskKeeps(s: State)
    requires InStep(s) && s.activity == Idle && s.queue != []
    ensures InStep(RunStep(s))
  {
    assert s.queue == [s.queue[0]] + s.queue[1..];
  }

  lemma CallSubscriberKeeps(s: State)
    requires InStep(s) && s.activity.Notifying?
    ensures InStep(RunStep(s))
  {
    var rest := s.activity.rest;
    if rest != [] {
      assert rest == [rest[0]] + rest[1..];
    }
  }

  lemma CallStoreKeeps(s: State)
    requires InStep(s) && s.activity.Rehydrating?
    ensures InStep(RunStep(s))
  {
  }

  lemma RunStepKeeps(s: State)
    requires InStep(s)
    ensures InStep(RunStep(s))
  {
    match s.activity {
      case Idle =>
        if s.queue != [] {
          TakeTaskKeeps(s);
        }
      case Notifying(_, _) => CallSubscriberKeeps(s);
      case Rehydrating(_) => CallStoreKeeps(s);
    }
  }

  lemma AbandonKeeps(s: State)
    requires InStep(s)
    ensures InStep(Abandon(s))
  {
  }

  lemma {:induction false} RunKeeps(s: State, events: seq<Event>)
    requires InStep(s)
    ensures InStep(Run(s, events))
    decreases |events|
  {
    if events != [] {
      match events[0] {
        case SwitchTo(slug, wsId) => SwitchKeeps(s, slug, wsId);
        case Subscribing(fn) => SubscribeKeeps(s, fn);
        case Unsubscribing(fn) => UnsubscribeKeeps(s, fn);
        case Registering =>
        case Microtask => RunStepKeeps(s);
        case Throwing => AbandonKeeps(s);
      }
      RunKeeps(Apply(s, events[0]), events[1..]);
    }
  }

  /** The current workspace, if any event sets it. */
  function LastSwitch(events: seq<Event>): Option<(Slug, Option<string>)> {
    if events == [] then None
    else
      var later := LastSwitch(events[1..]);
      if later.None? && events[0].SwitchTo? then Some((events[0].slug, events[0].wsId)) else later
  }

  /** Slug and workspace id are those of the last switch, whatever ran in between. */
  lemma {:induction false} LastSwitchIsCurrent(s: State, events: seq<Event>)
    ensures var end, last := Run(s, events), LastSwitch(events);
            && end.slug == (if last.Some? then last.value.0 else s.slug)
            && end.wsId == (if last.Some? then last.value.1 else s.wsId)
    decreases |events|
  {
    if events != [] {
      LastSwitchIsCurrent(Apply(s, events[0]), events[1..]);
    }
  }

  /** All but the skipped. */
  predicate AllToldCurrent(s: State) {
    forall fn | fn in s.subscribers && fn !in s.skipped :: fn in s.seen && s.seen[fn] == s.slug
  }

  /** All but the unread. */
  predicate AllLoadedCurrent(s: State) {
    forall i | 0 <= i < |s.loaded| && i !in s.unread :: s.loaded[i] == s.slug
  }

  lemma {:induction false} NothingThrownNothingSkipped(s: State, events: seq<Event>)
    requires s.skipped == {} && s.unread == {} && Throwing !in events
    ensures Run(s, events).skipped == {} && Run(s, events).unread == {}
    decreases |events|
  {
    if events != [] {
      NothingThrownNothingSkipped(Apply(s, events[0]), events[1..]);
    }
  }

  /** Whatever was called and from wherever: once no notification is queued or being made, every
      subscriber was last told the current slug, and likewise for the stores; except the ones behind a
      callback that threw, of which there are none if none did. */
  lemma QuietMeansCurrent(events: seq<Event>)
    ensures var s := Run(INITIAL, events);
            && (!s.pendingNotify && !s.activity.Notifying? ==> AllToldCurrent(s))
            && (!s.pendingRehydrate && !s.activity.Rehydrating? ==> AllLoadedCurrent(s))
            && (Throwing !in events ==> s.skipped == {} && s.unread == {})
            && |s.queue| <= 2
  {
    RunKeeps(INITIAL, events);
    if Throwing !in events {
      NothingThrownNothingSkipped(INITIAL, events);
    }
  }

  /** A run in which the first of two subscribers throws, and the second is left with the old slug while
      nothing is pending. */
  lemma ThrowLeavesOneBehind() returns (events: seq<Event>)
    ensures var s := Run(INITIAL, events);
            && !s.pendingNotify && s.activity == Idle && s.subscribers == [1, 2]
            && s.slug == Some("a") && 2 in s.seen && s.seen[2] == None
  {
    var s2 := Subscribe(Subscribe(INITIAL, 1), 2);
    var s3 := Switch(s2, Some("a"), None);
    assert s3.queue == [Notify, Rehydrate];
    var s5 := RunStep(RunStep(s3));
    var tail := [SwitchTo(Some("a"), None)] + ([Microtask] + ([Microtask] + ([Throwing] + [])));
    events := [Subscribing(1)] + ([Subscribing(2)] + tail);
    RunFirst(s5, Throwing, []);
    RunFirst(RunStep(s3), Microtask, [Throwing] + []);
    RunFirst(s3, Microtask, [Microtask] + ([Throwing] + []));
    RunFirst(s2, SwitchTo(Some("a"), None), [Microtask] + ([Microtask] + ([Throwing] + [])));
    RunFirst(Subscribe(INITIAL, 1), Subscribing(2), tail);
    RunFirst(INITIAL, Subscribing(1), [Subscribing(2)] + tail);
  }

  lemma RunFirst(s: State, e: Event, rest: seq<Event>)
    ensures Run(s, [e] + rest) == Run(Apply(s, e), rest)
  {
    assert ([e] + rest)[1..] == rest;
  }

  // ----- the queue always drains, and a burst of switches costs one pass -----

  function Remaining(a: Activity, stores: nat): nat {
    match a
    case Idle => 0
    case Notifying(_, rest) => 1 + |rest|
    case Rehydrating(next) => 1 + if next < stores then stores - next else 0
  }

  /** The microtask queue run to its end, with callbacks that make no further calls and do not throw. */
  function Drain(s: State): State
    decreases |s.queue|, Remaining(s.activity, |s.loaded|)
  {
    if Settled(s) then s else Drain(RunStep(s))
  }

  /** How many times a subscriber is called on the way. */
  function Calls(s: State): nat
    decreases |s.queue|, Remaining(s.activity, |s.loaded|)
  {
    if Settled(s) then 0
    else (if s.activity.Notifying? && s.activity.rest != [] then 1 else 0) + Calls(RunStep(s))
  }

  /** From every state of every run the queue drains, and then everyone agrees on the unchanged slug, but
      for subscribers and stores that were skipped before. */
  lemma {:induction false} DrainDelivers(s: State)
    requires InStep(s)
    ensures var end := Drain(s);
            && Settled(end) && end.slug == s.slug && end.wsId == s.wsId
            && end.subscribers == s.subscribers && |end.loaded| == |s.loaded|
            && AllToldCurrent(end) && AllLoadedCurrent(end)
            && end.skipped <= s.skipped && end.unread <= s.unread
    decreases |s.queue|, Remaining(s.activity, |s.loaded|)
  {
    if !Settled(s) {
      RunStepKeeps(s);
      DrainDelivers(RunStep(s));
    }
  }

  function PassesQueued(queue: seq<Task>): nat {
    if queue == [] then 0 else (if queue[0] == Notify then 1 else 0) + PassesQueued(queue[1..])
  }

  lemma Distribute(a: nat, b: nat, n: nat)
    ensures (a + b) * n == a * n + b * n
  {
  }

  lemma {:induction false} CallsAreCounted(s: State)
    ensures Calls(s) ==
            (if s.activity.Notifying? then |s.activity.rest| else 0) + PassesQueued(s.queue) * |s.subscribers|
    decreases |s.queue|, Remaining(s.activity, |s.loaded|)
  {
    if !Settled(s) {
      CallsAreCounted(RunStep(s));
      if s.activity == Idle {
        Distribute(if s.queue[0] == Notify then 1 else 0, PassesQueued(s.queue[1..]), |s.subscribers|);
      }
    }
  }

  lemma {:induction false} OmitAbsent(fns: seq<nat>, fn: nat)
    requires fn !in fns
    ensures Omit(fns, fn) == fns
  {
    if fns != [] {
      OmitAbsent(fns[1..], fn);
    }
  }

  lemma {:induction false} OmitSize(fns: seq<nat>, fn: nat)
    requires Distinct(fns)
    ensures |Omit(fns, fn)| == |fns| - One(fn in fns)
  {
    if fns != [] {
      OmitSize(fns[1..], fn);
      if fns[0] == fn { OmitAbsent(fns[1..], fn); }
    }
  }

  lemma OneMore(passes: nat, n: nat)
    ensures passes * (n + 1) == passes * n + passes
  {
  }

  /** A new subscriber is called once more in the pass under way, and once in the one queued. */
  lemma SubscriberCosts(s: State, fn: nat)
    ensures Calls(Subscribe(s, fn)) == Calls(s) +
            if fn in s.subscribers then 0 else One(s.activity.Notifying?) + PassesQueued(s.queue)
  {
    var next, passes, n := Subscribe(s, fn), PassesQueued(s.queue), |s.subscribers|;
    CallsAreCounted(s);
    CallsAreCounted(next);
    if fn !in s.subscribers {
      assert next.queue == s.queue && |next.subscribers| == n + 1;
      assert PassesQueued(next.queue) * |next.subscribers| == passes * n + passes by { OneMore(passes, n); }
    }
  }

  /** A deleted one is not called in the pass under way, if it was still to be, nor in the one queued. */
  lemma DeletionSaves(s: State, fn: nat)
    requires EachOnce(s)
    ensures Calls(Unsubscribe(s, fn)) == Calls(s) -
            One(s.activity.Notifying? && fn in s.activity.rest)
            - (if fn in s.subscribers then PassesQueued(s.queue) else 0)
  {
    var next := Unsubscribe(s, fn);
    CallsAreCounted(s);
    CallsAreCounted(next);
    OmitSize(s.subscribers, fn);
    if s.activity.Notifying? { OmitSize(s.activity.rest, fn); }
    assert next.queue == s.queue && |next.subscribers| == |s.subscribers| - One(fn in s.subscribers);
    if fn in s.subscribers { OneMore(PassesQueued(s.queue), |s.subscribers| - 1); }
  }

  /** A throw ends the loop under way, with all calls left in it, and what was queued stays queued. */
  lemma ThrowCosts(s: State)
    ensures Abandon(s) == s.(activity := Idle, skipped := Abandon(s).skipped, unread := Abandon(s).unread)
    ensures Calls(Abandon(s)) == PassesQueued(s.queue) * |s.subscribers|
  {
    CallsAreCounted(Abandon(s));
  }

  function One(b: bool): nat {
    if b then 1 else 0
  }

  /** The last word on one subscriber. */
  function StillSubscribed(subscribed: bool, fn: nat, events: seq<Event>): bool
    decreases |events|
  {
    if events == [] then subscribed
    else
      StillSubscribed(if events[0] == Subscribing(fn) then true
                      else if events[0] == Unsubscribing(fn) then false else subscribed,
                      fn, events[1..])
  }

  function Registrations(events: seq<Event>): nat {
    if events == [] then 0 else One(events[0].Registering?) + Registrations(events[1..])
  }

  /** Each subscriber once. */
  predicate EachOnce(s: State) {
    && Distinct(s.subscribers)
    && (forall fn <- s.skipped :: fn in s.subscribers)
    && (s.activity.Notifying? ==>
          Distinct(s.activity.rest) && forall fn <- s.activity.rest :: fn in s.subscribers)
  }

  lemma SubscribeKeepsEachOnce(s: State, fn: nat)
    requires EachOnce(s)
    ensures EachOnce(Subscribe(s, fn))
  {
    if fn !in s.subscribers {
      DistinctConcat(s.subscribers, [fn]);
      if s.activity.Notifying? { DistinctConcat(s.activity.rest, [fn]); }
    }
  }

  lemma UnsubscribeKeepsEachOnce(s: State, fn: nat)
    requires EachOnce(s)
    ensures EachOnce(Unsubscribe(s, fn))
  {
    OmitKeepsDistinct(s.subscribers, fn);
    if s.activity.Notifying? { OmitKeepsDistinct(s.activity.rest, fn); }
  }

  lemma ApplyKeepsEachOnce(s: State, e: Event)
    requires EachOnce(s)
    ensures EachOnce(Apply(s, e))
  {
    match e
    case SwitchTo(_, _) =>
    case Subscribing(fn) => SubscribeKeepsEachOnce(s, fn);
    case Unsubscribing(fn) => UnsubscribeKeepsEachOnce(s, fn);
    case Registering =>
    case Microtask =>
    case Throwing =>
  }

  /** What one event does to the subscription of `fn` and to the number of stores. */
  lemma ApplyRegisters(s: State, e: Event, fn: nat)
    ensures var next := Apply(s, e);
            && (fn in next.subscribers <==>
                e == Subscribing(fn) || (e != Unsubscribing(fn) && fn in s.subscribers))
            && |next.loaded| == |s.loaded| + One(e.Registering?)
  {
  }

  /** Over every run: the subscribers are those added and not deleted since, each once; every registration is one
      store; and nobody is remembered as skipped who is not subscribed. */
  lemma {:induction false} RunRegisters(s: State, events: seq<Event>, fn: nat)
    requires EachOnce(s)
    ensures EachOnce(Run(s, events))
    ensures fn in Run(s, events).subscribers <==> StillSubscribed(fn in s.subscribers, fn, events)
    ensures |Run(s, events).loaded| == |s.loaded| + Registrations(events)
    decreases |events|
  {
    if events != [] {
      ApplyKeepsEachOnce(s, events[0]);
      ApplyRegisters(s, events[0], fn);
      RunRegisters(Apply(s, events[0]), events[1..], fn);
    }
  }

  /** A pass that is still queued reaches everyone, also those that were skipped before. */
  lemma {:induction false} QueuedPassReachesAll(s: State, fn: nat, i: nat)
    requires InStep(s)
    ensures fn in s.subscribers && (Notify in s.queue || (s.activity.Notifying? && fn in s.activity.rest)) ==>
              fn !in Drain(s).skipped
    ensures i < |s.loaded| && (Rehydrate in s.queue || (s.activity.Rehydrating? && s.activity.next <= i)) ==>
              i !in Drain(s).unread
    ensures fn !in s.skipped ==> fn !in Drain(s).skipped
    ensures i !in s.unread ==> i !in Drain(s).unread
    decreases |s.queue|, Remaining(s.activity, |s.loaded|)
  {
    if !Settled(s) {
      RunStepKeeps(s);
      QueuedPassReachesAll(RunStep(s), fn, i);
      if s.activity == Idle { assert s.queue == [s.queue[0]] + s.queue[1..]; }
      if s.activity.Notifying? && s.activity.rest != [] {
        assert s.activity.rest == [s.activity.rest[0]] + s.activity.rest[1..];
      }
    }
  }

  function Burst(s: State, slugs: seq<(Slug, Option<string>)>): State
    decreases |slugs|
  {
    if slugs == [] then s else Burst(Switch(s, slugs[0].0, slugs[0].1), slugs[1..])
  }

  lemma {:induction false} BurstQueuesOnce(s: State, slugs: seq<(Slug, Option<string>)>)
    requires s.activity == Idle && (s.queue == [] || s.queue == [Notify, Rehydrate])
    requires s.pendingNotify == s.pendingRehydrate == (s.queue != [])
    ensures var end := Burst(s, slugs);
            && end.activity == Idle && end.subscribers == s.subscribers
            && end.queue ==
               if s.queue == [] && (forall p | p in slugs :: p.0 == s.slug) then [] else [Notify, Rehydrate]
    decreases |slugs|
  {
    if slugs != [] {
      assert slugs[0] in slugs;
      assert forall p :: p in slugs <==> p == slugs[0] || p in slugs[1..];
      BurstQueuesOnce(Switch(s, slugs[0].0, slugs[0].1), slugs[1..]);
    }
  }

  /** However many switches are made before the microtasks run, each subscriber is called once, and not
      at all when no switch named another slug. */
  lemma BurstIsOnePass(s: State, slugs: seq<(Slug, Option<string>)>)
    requires Settled(s) && !s.pendingNotify && !s.pendingRehydrate
    ensures Calls(Burst(s, slugs)) == if forall p | p in slugs :: p.0 == s.slug then 0 else |s.subscribers|
  {
    BurstQueuesOnce(s, slugs);
    var end := Burst(s, slugs);
    CallsAreCounted(end);
    assert PassesQueued([Notify, Rehydrate]) == 1 by {
      assert [Notify, Rehydrate][1..] == [Rehydrate];
    }
  }

  // ----- the module variables, changed in place -----

  class Workspace {
    var slug: Slug
    var wsId: Option<string>
    var pendingNotify: bool
    var pendingRehydrate: bool
    var queue: seq<Task>
    var activity: Activity
    var subscribers: seq<nat>
    var seen: map<nat, Slug>
    var loaded: seq<Slug>
    var skipped: set<nat>
    var unread: set<nat>

    ghost function Now(): State
      reads this
    {
      State(slug, wsId, pendingNotify, pendingRehydrate, queue, activity, subscribers, seen, loaded, skipped, unread)
    }

    constructor ()
      ensures Now() == INITIAL
    {
      slug, wsId := None, None;
      pendingNotify, pendingRehydrate := false, false;
      queue, activity := [], Idle;
      subscribers, seen, loaded := [], map[], [];
      skipped, unread := {}, {};
    }

    method SetCurrentWorkspace(slug: Slug, wsId: Option<string>)
      modifies this
      ensures Now() == Switch(old(Now()), slug, wsId)
      ensures old(this.slug) == slug ==> Now() == old(Now()).(wsId := wsId)
    {
      if this.slug == slug {
        this.wsId := wsId;
        return;
      }
      this.slug := slug;
      this.wsId := wsId;
      if !pendingNotify {
        pendingNotify := true;
        queue := queue + [Notify];
      }
      if !pendingRehydrate {
        pendingRehydrate := true;
        queue := queue + [Rehydrate];
      }
    }

    method SubscribeToCurrentSlug(fn: nat)
      modifies this
      ensures Now() == Subscribe(old(Now()), fn)
    {
      if fn !in subscribers {
        subscribers := subscribers + [fn];
        seen := seen[fn := slug];
        skipped := skipped - {fn};
        if activity.Notifying? {
          activity := activity.(rest := activity.rest + [fn]);
        }
      }
    }

    method Delete(fn: nat)
      modifies this
      ensures Now() == Unsubscribe(old(Now()), fn)
    {
      subscribers := Omit(subscribers, fn);
      skipped := skipped - {fn};
      if activity.Notifying? {
        activity := activity.(rest := Omit(activity.rest, fn));
      }
    }

    method RegisterForWorkspaceRehydration()
      modifies this
      ensures Now() == Register(old(Now()))
    {
      loaded := loaded + [slug];
    }

    /** The two queued closures and the loops in them, up to the next call out. */
    method RunMicrotask()
      modifies this
      ensures Now() == RunStep(old(Now()))
    {
      match activity {
        case Idle =>
          if queue != [] {
            var task := queue[0];
            queue := queue[1..];
            if task == Notify {
              pendingNotify := false;
              activity := Notifying(slug, subscribers);
            } else {
              pendingRehydrate := false;
              activity := Rehydrating(0);
            }
          }
        case Notifying(current, rest) =>
          if rest == [] {
            activity := Idle;
          } else {
            seen := seen[rest[0] := current];
            skipped := skipped - {rest[0]};
            activity := Notifying(current, rest[1..]);
          }
        case Rehydrating(next) =>
          if next >= |loaded| {
            activity := Idle;
          } else {
            loaded := loaded[next := slug];
            unread := unread - {next};
            activity := Rehydrating(next + 1);
          }
      }
    }

    /** A callback throws out of the loop that called it. */
    method AbandonMicrotask()
      modifies this
      ensures Now() == Abandon(old(Now()))
    {
      if activity.Notifying? {
        skipped := skipped + (set fn | fn in activity.rest);
      } else if activity.Rehydrating? {
        unread := unread + Behind(activity.next, |loaded|);
      }
      activity := Idle;
    }
  }
}
