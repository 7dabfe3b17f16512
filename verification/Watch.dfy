/**
 `watchWithdrawal` and `waitForEvent` as machines of atomic steps. Each step is one callback the
 event loop runs; user callbacks react by unsubscribing re-entrantly, by throwing, or both.
 */
module Watch {

  datatype Kind = Initiated | Proposed | Waiting | Claimable | Claimed

  /** What can be seen from outside: an event delivered, a subscription ended, the watch cleaned up,
      an error handed to the error handler. */
  datatype Entry = Delivered(kind: Kind) | Unsubscribed(sub: nat) | CleanedUp | ErrorReported

  /** What user code does before it returns. */
  datatype Reaction = Reaction(unsubscribes: bool, throws: bool)

  /** A parsed event of a transaction, and what the callback does with it if it passes the filter. */
  datatype TxEvent = TxEvent(matches: bool, reaction: Reaction)

  /** The finalisation period, fetched when the watch starts. */
  datatype Period = Unknown | Known | Unavailable

  datatype State = State(
    customOnError: bool,
    cleaned: bool,
    awaiting: set<nat>,        // subscriptions asked for
    resolved: set<nat>,        // subscriptions made
    subs: seq<nat>,
    sessions: nat,
    timers: seq<nat>,
    live: set<nat>,            // timers neither fired nor cleared
    nextTimer: nat,
    timeoutLive: bool,
    period: Period,
    continuations: nat,        // callbacks waiting for the period
    trace: seq<Entry>)

  /** Right after `watchWithdrawal` returns its handle: three subscriptions over two sessions. */
  function Started(customOnError: bool, timeout: bool): State {
    State(customOnError, false, {0, 1, 2}, {}, [], 2, [], {}, 0, timeout, Unknown, 0, [])
  }

  function Ends(subs: seq<nat>): (es: seq<Entry>)
    ensures |es| == |subs| && forall i :: 0 <= i < |subs| ==> es[i] == Unsubscribed(subs[i])
  {
    seq(|subs|, i requires 0 <= i < |subs| => Unsubscribed(subs[i]))
  }

  function Elements(xs: seq<nat>): set<nat> {
    set x | x in xs
  }

  /** `cleanup` */
  function CleanUp(s: State): State {
    if s.cleaned then s
    else s.(cleaned := true, trace := s.trace + [CleanedUp] + Ends(s.subs), live := s.live - Elements(s.timers),
            subs := [], sessions := 0, timers := [], timeoutLive := false)
  }

  /** User code reacting: throwing shows in what the caller does next. */
  function React(s: State, r: Reaction): State {
    if r.unsubscribes then CleanUp(s) else s
  }

  /** `callback({ status })` */
  function Deliver(s: State, kind: Kind, r: Reaction): State {
    React(s.(trace := s.trace + [Delivered(kind)]), r)
  }

  /** `handleError`: the caller's handler, or the default one, which cleans up. */
  function HandleError(s: State, r: Reaction): State {
    var s' := s.(trace := s.trace + [ErrorReported]);
    if s.customOnError then React(s', r) else CleanUp(s')
  }

  /** The loop over the events of one transaction. A throwing callback ends it; each proposal
      delivered leaves a continuation for when the period is known. */
  function DeliverAll(s: State, kind: Kind, events: seq<TxEvent>): State
    decreases |events|
  {
    if events == [] then s
    else if !events[0].matches then DeliverAll(s, kind, events[1..])
    else
      var s' := Deliver(s, kind, events[0].reaction);
      if events[0].reaction.throws then s'
      else DeliverAll(if kind == Proposed then s'.(continuations := s'.continuations + 1) else s', kind, events[1..])
  }

  datatype Action =
    | SubscribeResolves(sub: nat)
    | SubscribeRejects(sub: nat, onError: Reaction)
    | Tx(kind: Kind, events: seq<TxEvent>)
    | PeriodResolves
    | PeriodRejects(onError: Reaction)
    | Continue(onWaiting: Reaction, onError: Reaction)
    | TimerFires(timer: nat, onClaimable: Reaction)
    | TimeoutFires(onError: Reaction)
    | Unsubscribe

  function Resolve(s: State, sub: nat): State {
    if sub !in s.awaiting then s
    else
      var s' := s.(awaiting := s.awaiting - {sub}, resolved := s.resolved + {sub});
      if s.cleaned then s'.(trace := s.trace + [Unsubscribed(sub)]) else s'.(subs := s.subs + [sub])
  }

  /** A continuation runs once the period is known: 'waiting' now, 'claimable' after a timer. The
      timer is set even if the callback has just unsubscribed. */
  function ContinueStep(s: State, onWaiting: Reaction, onError: Reaction): State {
    if s.continuations == 0 || s.period == Unknown then s
    else
      var s1 := s.(continuations := s.continuations - 1);
      if s.period == Unavailable then (if s1.cleaned then s1 else HandleError(s1, onError))
      else if s1.cleaned then s1
      else
        var s2 := Deliver(s1, Waiting, onWaiting);
        if onWaiting.throws then (if s2.cleaned then s2 else HandleError(s2, onError))
        else s2.(live := s2.live + {s2.nextTimer}, timers := s2.timers + [s2.nextTimer], nextTimer := s2.nextTimer + 1)
  }

  function FireTimer(s: State, timer: nat, r: Reaction): State {
    if timer !in s.live then s
    else
      var s' := s.(live := s.live - {timer});
      if s'.cleaned then s' else Deliver(s', Claimable, r)
  }

  /** The kinds of event a transaction can carry; the other two come from continuations and timers. */
  predicate FromChain(kind: Kind) {
    kind == Initiated || kind == Proposed || kind == Claimed
  }

  function Step(s: State, a: Action): State {
    match a
    case SubscribeResolves(sub) => Resolve(s, sub)
    case SubscribeRejects(sub, r) =>
      if sub in s.awaiting then HandleError(s.(awaiting := s.awaiting - {sub}), r) else s
    case Tx(kind, events) => if FromChain(kind) then DeliverAll(s, kind, events) else s
    case PeriodResolves => if s.period == Unknown then s.(period := Known) else s
    case PeriodRejects(r) => if s.period == Unknown then HandleError(CleanUp(s.(period := Unavailable)), r) else s
    case Continue(w, r) => ContinueStep(s, w, r)
    case TimerFires(timer, r) => FireTimer(s, timer, r)
    case TimeoutFires(r) => if s.timeoutLive then HandleError(CleanUp(s.(timeoutLive := false)), r) else s
    case Unsubscribe => CleanUp(s)
  }

  function Run(s: State, actions: seq<Action>): State {
    if actions == [] then s else Step(Run(s, actions[..|actions| - 1]), actions[|actions| - 1])
  }

  // ---------- the closures of watchWithdrawal ----------

  class Watcher {
    const customOnError: bool
    var cleaned: bool
    var awaiting: set<nat>
    ghost var resolved: set<nat>
    var subs: seq<nat>
    var sessions: nat
    var timers: seq<nat>
    var live: set<nat>
    var nextTimer: nat
    var timeoutLive: bool
    var period: Period
    var continuations: nat
    ghost var trace: seq<Entry>

    ghost function View(): State
      reads this
    {
      State(customOnError, cleaned, awaiting, resolved, subs, sessions, timers, live, nextTimer, timeoutLive, period, continuations, trace)
    }

    constructor (customOnError: bool, timeout: bool)
      ensures View() == Started(customOnError, timeout)
    {
      this.customOnError := customOnError;
      cleaned, awaiting, subs, sessions, timers := false, {0, 1, 2}, [], 2, [];
      live, nextTimer, timeoutLive, period, continuations := {}, 0, timeout, Unknown, 0;
      resolved, trace := {}, [];
    }

    /** `cleanup`, which is also the handle's `unsubscribe`. */
    method Cleanup()
      modifies this
      ensures View() == CleanUp(old(View()))
    {
      if cleaned {
        return;
      }
      cleaned := true;
      trace := trace + [CleanedUp];
      EndSubscriptions();
      CloseSessions();
      ClearTimers();
      timeoutLive := false;
      subs, timers := [], [];
    }

    method EndSubscriptions()
      modifies this`trace
      ensures trace == old(trace) + Ends(subs)
    {
      for i := 0 to |subs|
        invariant trace == old(trace) + Ends(subs)[..i]
      {
        trace := trace + [Unsubscribed(subs[i])];
        assert Ends(subs)[..i + 1] == Ends(subs)[..i] + [Unsubscribed(subs[i])];
      }
      assert Ends(subs)[..|subs|] == Ends(subs);
    }

    method CloseSessions()
      modifies this`sessions
      ensures sessions == 0
    {
      while sessions > 0 {
        sessions := sessions - 1;
      }
    }

    method ClearTimers()
      modifies this`live
      ensures live == old(live) - Elements(timers)
    {
      for i := 0 to |timers|
        invariant live == old(live) - Elements(timers[..i])
      {
        live := live - {timers[i]};
        assert timers[..i + 1] == timers[..i] + [timers[i]];
      }
      assert timers[..|timers|] == timers;
    }

    method Callback(kind: Kind, r: Reaction)
      modifies this
      ensures View() == Deliver(old(View()), kind, r)
    {
      trace := trace + [Delivered(kind)];
      if r.unsubscribes {
        Cleanup();
      }
    }

    method ReportError(r: Reaction)
      modifies this
      ensures View() == HandleError(old(View()), r)
    {
      trace := trace + [ErrorReported];
      if !customOnError || r.unsubscribes {
        Cleanup();
      }
    }

    method OnSubscribed(sub: nat)
      requires sub in awaiting
      modifies this
      ensures View() == Resolve(old(View()), sub)
    {
      awaiting, resolved := awaiting - {sub}, resolved + {sub};
      if !cleaned {
        subs := subs + [sub];
      } else {
        trace := trace + [Unsubscribed(sub)];
      }
    }

    method OnSubscribeFailed(sub: nat, r: Reaction)
      requires sub in awaiting
      modifies this
      ensures View() == Step(old(View()), SubscribeRejects(sub, r))
    {
      awaiting := awaiting - {sub};
      ReportError(r);
    }

    /** A transaction reaches one of the three subscriptions. */
    method OnTx(kind: Kind, events: seq<TxEvent>)
      requires FromChain(kind)
      modifies this
      ensures View() == Step(old(View()), Tx(kind, events))
    {
      for i := 0 to |events|
        invariant DeliverAll(View(), kind, events[i..]) == DeliverAll(old(View()), kind, events)
      {
        assert events[i..][1..] == events[i + 1..];
        if events[i].matches {
          Callback(kind, events[i].reaction);
          if events[i].reaction.throws {
            return;
          }
          if kind == Proposed {
            continuations := continuations + 1;
          }
        }
      }
    }

    method OnPeriodFailed(r: Reaction)
      requires period == Unknown
      modifies this
      ensures View() == Step(old(View()), PeriodRejects(r))
    {
      period := Unavailable;
      Cleanup();
      ReportError(r);
    }

    /** One continuation of a proposal, the period being known or not to be had. */
    method RunContinuation(onWaiting: Reaction, onError: Reaction)
      requires continuations > 0 && period != Unknown
      modifies this
      ensures View() == ContinueStep(old(View()), onWaiting, onError)
    {
      continuations := continuations - 1;
      if period == Unavailable {
        if !cleaned {
          ReportError(onError);
        }
        return;
      }
      if cleaned {
        return;
      }
      Callback(Waiting, onWaiting);
      if onWaiting.throws {
        if !cleaned {
          ReportError(onError);
        }
        return;
      }
      var timer := nextTimer;
      nextTimer := nextTimer + 1;
      live := live + {timer};
      timers := timers + [timer];
    }

    method OnTimer(timer: nat, r: Reaction)
      requires timer in live
      modifies this
      ensures View() == FireTimer(old(View()), timer, r)
    {
      live := live - {timer};
      if !cleaned {
        Callback(Claimable, r);
      }
    }

    method OnTimeout(r: Reaction)
      requires timeoutLive
      modifies this
      ensures View() == Step(old(View()), TimeoutFires(r))
    {
      timeoutLive := false;
      Cleanup();
      ReportError(r);
    }
  }
}
