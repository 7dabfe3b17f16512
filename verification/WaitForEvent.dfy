/** `waitForEvent` on top of a watch: one promise, settled by the target event, an error or a timer. */
module WaitForEvent {
  import opened OrderedMap
  import opened Watch
  import opened WatchEffects
  import opened WatchProofs

  datatype Outcome = Resolved(kind: Kind) | Rejected | TimedOut

  /** The watch underneath, and the promise: `outcomes` lists the calls of resolve and reject. */
  datatype WaitState = WaitState(watch: State, target: Kind, settled: bool, timerLive: bool, outcomes: seq<Outcome>)

  /** A step of the watch, or the wait's own timer. `userThrows`: the caller's `onError` throws before
      the wait can settle. `matches`: which events of a transaction pass the filter. */
  datatype WaitAction =
    | SubscribeDone(sub: nat)
    | SubscribeFails(sub: nat, userThrows: bool)
    | Transaction(kind: Kind, matches: seq<bool>)
    | PeriodDone
    | PeriodFails(userThrows: bool)
    | ContinueWatch(userThrows: bool)
    | WatchTimer(timer: nat)
    | WaitTimer

  function Begin(target: Kind): WaitState {
    WaitState(Started(true, false), target, false, true, [])
  }

  /** The callback passed to the watch: on the target event it settles, and settling unsubscribes. */
  function OnEvent(settled: bool, target: Kind, kind: Kind): Reaction {
    Reaction(kind == target && !settled, false)
  }

  /** The error handler passed to the watch. */
  function OnError(settled: bool, userThrows: bool): Reaction {
    Reaction(!settled && !userThrows, userThrows)
  }

  const NOTHING := Reaction(false, false)

  /** The reactions to the events of one transaction: the first that matches may settle. */
  function TxReactions(first: Reaction, matches: seq<bool>): seq<TxEvent>
    decreases |matches|
  {
    if matches == [] then []
    else [TxEvent(matches[0], first)] + TxReactions(if matches[0] then NOTHING else first, matches[1..])
  }

  /** The step the watch takes. */
  function WatchAction(ws: WaitState, a: WaitAction): Action
    requires !a.WaitTimer?
  {
    match a
    case SubscribeDone(sub) => SubscribeResolves(sub)
    case SubscribeFails(sub, t) => SubscribeRejects(sub, OnError(ws.settled, t))
    case Transaction(kind, matches) => Tx(kind, TxReactions(OnEvent(ws.settled, ws.target, kind), matches))
    case PeriodDone => PeriodResolves
    case PeriodFails(t) => PeriodRejects(OnError(ws.settled, t))
    case ContinueWatch(t) => Continue(OnEvent(ws.settled, ws.target, Waiting), OnError(ws.settled, t))
    case WatchTimer(timer) => TimerFires(timer, OnEvent(ws.settled, ws.target, Claimable))
  }

  /** How a step settles the promise, if it is not settled yet. */
  function Settlement(ws: WaitState, a: WaitAction): Option<Outcome> {
    match a
    case SubscribeDone(_) => None
    case SubscribeFails(sub, t) => if sub in ws.watch.awaiting && !t then Some(Rejected) else None
    case Transaction(kind, matches) =>
      if FromChain(kind) && kind == ws.target && true in matches then Some(Resolved(kind)) else None
    case PeriodDone => None
    case PeriodFails(t) => if ws.watch.period == Unknown && !t then Some(Rejected) else None
    case ContinueWatch(t) =>
      if ws.watch.continuations == 0 || ws.watch.cleaned || ws.watch.period == Unknown then None
      else if ws.watch.period == Unavailable then (if t then None else Some(Rejected))
      else if ws.target == Waiting then Some(Resolved(Waiting))
      else None
    case WatchTimer(timer) =>
      if timer in ws.watch.live && !ws.watch.cleaned && ws.target == Claimable then Some(Resolved(Claimable)) else None
    case WaitTimer => if ws.timerLive then Some(TimedOut) else None
  }

  function WaitStep(ws: WaitState, a: WaitAction): WaitState {
    var watch :=
      if !a.WaitTimer? then Step(ws.watch, WatchAction(ws, a))
      else if ws.timerLive && !ws.settled then CleanUp(ws.watch)
      else ws.watch;
    var timerLive := ws.timerLive && !a.WaitTimer?;
    match Settlement(ws, a)
    case Some(o) =>
      if ws.settled then ws.(watch := watch, timerLive := timerLive)
      else ws.(watch := watch, settled := true, timerLive := false, outcomes := ws.outcomes + [o])
    case None => ws.(watch := watch, timerLive := timerLive)
  }

  function WaitRun(ws: WaitState, actions: seq<WaitAction>): WaitState {
    if actions == [] then ws else WaitStep(WaitRun(ws, actions[..|actions| - 1]), actions[|actions| - 1])
  }

  // ---------- the closures of waitForEvent ----------

  class Waiter {
    const watcher: Watcher
    const target: Kind
    var settled: bool
    var timerLive: bool
    ghost var outcomes: seq<Outcome>

    ghost predicate Valid()
      reads this
    {
      watcher.customOnError
    }

    ghost function View(): WaitState
      reads this, watcher
    {
      WaitState(watcher.View(), target, settled, timerLive, outcomes)
    }

    constructor (target: Kind)
      ensures Valid() && fresh(watcher) && View() == Begin(target)
    {
      var w := new Watcher(true, false);
      watcher, this.target := w, target;
      settled, timerLive, outcomes := false, true, [];
    }

    /** `settle`: the first call unsubscribes and stops the timer. Called from a callback of the watch
        it finds the watch cleaned up, since that callback has reacted by unsubscribing. */
    method Settle(o: Outcome) returns (first: bool)
      modifies this, watcher
      ensures first == !old(settled) && settled
      ensures timerLive == (old(timerLive) && old(settled))
      ensures outcomes == if first then old(outcomes) + [o] else old(outcomes)
      ensures watcher.View() == if first then CleanUp(old(watcher.View())) else old(watcher.View())
    {
      if settled {
        return false;
      }
      settled := true;
      watcher.Cleanup();
      timerLive := false;
      outcomes := outcomes + [o];
      return true;
    }

    method OnSubscribeFailed(sub: nat, userThrows: bool)
      requires Valid() && sub in watcher.awaiting
      modifies this, watcher
      ensures Valid() && View() == WaitStep(old(View()), SubscribeFails(sub, userThrows))
    {
      WatchStepEffect(View(), SubscribeFails(sub, userThrows));
      watcher.OnSubscribeFailed(sub, OnError(settled, userThrows));
      if !userThrows {
        var _ := Settle(Rejected);
      }
    }

    method OnTx(kind: Kind, matches: seq<bool>)
      requires Valid() && FromChain(kind)
      modifies this, watcher
      ensures Valid() && View() == WaitStep(old(View()), Transaction(kind, matches))
    {
      WatchStepEffect(View(), Transaction(kind, matches));
      watcher.OnTx(kind, TxReactions(OnEvent(settled, target, kind), matches));
      if kind == target && true in matches {
        var _ := Settle(Resolved(kind));
      }
    }

    method OnSubscribed(sub: nat)
      requires Valid() && sub in watcher.awaiting
      modifies this, watcher
      ensures Valid() && View() == WaitStep(old(View()), SubscribeDone(sub))
    {
      watcher.OnSubscribed(sub);
    }

    method OnContinuation(userThrows: bool)
      requires Valid() && watcher.continuations > 0 && watcher.period != Unknown
      modifies this, watcher
      ensures Valid() && View() == WaitStep(old(View()), ContinueWatch(userThrows))
    {
      WatchStepEffect(View(), ContinueWatch(userThrows));
      var cleaned, period := watcher.cleaned, watcher.period;
      watcher.RunContinuation(OnEvent(settled, target, Waiting), OnError(settled, userThrows));
      if !cleaned && period == Unavailable && !userThrows {
        var _ := Settle(Rejected);
      } else if !cleaned && period == Known && target == Waiting {
        var _ := Settle(Resolved(Waiting));
      }
    }

    method OnPeriodFailed(userThrows: bool)
      requires Valid() && watcher.period == Unknown
      modifies this, watcher
      ensures Valid() && View() == WaitStep(old(View()), PeriodFails(userThrows))
    {
      WatchStepEffect(View(), PeriodFails(userThrows));
      watcher.OnPeriodFailed(OnError(settled, userThrows));
      if !userThrows {
        var _ := Settle(Rejected);
      }
    }

    method OnWatchTimer(timer: nat)
      requires Valid() && timer in watcher.live
      modifies this, watcher
      ensures Valid() && View() == WaitStep(old(View()), WatchTimer(timer))
    {
      WatchStepEffect(View(), WatchTimer(timer));
      var delivers := !watcher.cleaned;
      watcher.OnTimer(timer, OnEvent(settled, target, Claimable));
      if delivers && target == Claimable {
        var _ := Settle(Resolved(Claimable));
      }
    }

    method OnWaitTimer()
      requires Valid() && timerLive
      modifies this, watcher
      ensures Valid() && View() == WaitStep(old(View()), WaitTimer)
    {
      timerLive := false;
      var _ := Settle(TimedOut);
    }
  }

  // ---------- the properties ----------

  ghost predicate WaitInv(ws: WaitState) {
    && Inv(ws.watch) && ws.watch.customOnError
    && |ws.outcomes| == (if ws.settled then 1 else 0)
    && (ws.settled ==> ws.watch.cleaned)
    && (ws.settled || ws.timerLive)
    && (Delivered(ws.target) in ws.watch.trace ==> ws.settled)
    && (forall o :: o in ws.outcomes && o.Resolved? ==> o.kind == ws.target && Delivered(ws.target) in ws.watch.trace)
  }

  /** What a step does to the part of the watch the promise depends on. */
  ghost predicate Effect(s: State, s': State, delivered: set<Kind>, cleans: bool) {
    && s'.customOnError == s.customOnError
    && (s.cleaned || cleans ==> s'.cleaned)
    && forall k :: Delivered(k) in s'.trace <==> Delivered(k) in s.trace || k in delivered
  }

  lemma CleanUpEffect(s: State)
    ensures Effect(s, CleanUp(s), {}, true)
  {
    if !s.cleaned {
      forall k ensures Delivered(k) in CleanUp(s).trace <==> Delivered(k) in s.trace {
        assert Delivered(k) !in Ends(s.subs);
      }
    }
  }

  lemma DeliverEffect(s: State, kind: Kind, r: Reaction)
    ensures Effect(s, Deliver(s, kind, r), {kind}, r.unsubscribes)
  {
    var s1 := s.(trace := s.trace + [Delivered(kind)]);
    CleanUpEffect(s1);
  }

  lemma HandleErrorEffect(s: State, r: Reaction)
    ensures Effect(s, HandleError(s, r), {}, r.unsubscribes)
  {
    var s1 := s.(trace := s.trace + [ErrorReported]);
    CleanUpEffect(s1);
  }

  lemma {:induction false} DeliverAllEffect(s: State, kind: Kind, first: Reaction, matches: seq<bool>)
    requires !first.throws
    ensures Effect(s, DeliverAll(s, kind, TxReactions(first, matches)),
                   if true in matches then {kind} else {}, first.unsubscribes && true in matches)
    decreases |matches|
  {
    if matches != [] {
      var rest := matches[1..];
      assert true in matches <==> matches[0] || true in rest;
      assert TxReactions(first, matches)[1..] == TxReactions(if matches[0] then NOTHING else first, rest);
      if matches[0] {
        DeliverEffect(s, kind, first);
        var s1 := Deliver(s, kind, first);
        var s2 := if kind == Proposed then s1.(continuations := s1.continuations + 1) else s1;
        DeliverAllEffect(s2, kind, NOTHING, rest);
      } else {
        DeliverAllEffect(s, kind, first, rest);
      }
    }
  }

  lemma ContinueEffect(s: State, w: Reaction, r: Reaction)
    requires !w.throws
    ensures var runs := s.continuations > 0 && s.period != Unknown && !s.cleaned;
            Effect(s, ContinueStep(s, w, r), if runs && s.period == Known then {Waiting} else {},
                   runs && (if s.period == Known then w.unsubscribes else r.unsubscribes))
  {
    var s1 := s.(continuations := if s.continuations > 0 then s.continuations - 1 else 0);
    DeliverEffect(s1, Waiting, w);
    HandleErrorEffect(s1, r);
  }

  lemma TimerEffect(s: State, timer: nat, r: Reaction)
    ensures var fires := timer in s.live && !s.cleaned;
            Effect(s, FireTimer(s, timer, r), if fires then {Claimable} else {}, fires && r.unsubscribes)
  {
    DeliverEffect(s.(live := s.live - {timer}), Claimable, r);
  }

  lemma PeriodRejectsEffect(s: State, r: Reaction)
    ensures Effect(s, Step(s, PeriodRejects(r)), {}, s.period == Unknown)
  {
    var s1 := s.(period := Unavailable);
    CleanUpEffect(s1);
    HandleErrorEffect(CleanUp(s1), r);
  }

  /** A step of the watch cleans up whenever it settles the promise, and delivers the target event
      only if it resolves it, or if it is settled already. */
  ghost predicate Agrees(ws: WaitState, s': State, o: Option<Outcome>) {
    && s'.customOnError == ws.watch.customOnError
    && (ws.watch.cleaned || (!ws.settled && o.Some?) ==> s'.cleaned)
    && (Delivered(ws.target) in s'.trace <==> Delivered(ws.target) in ws.watch.trace || (o.Some? && o.value.Resolved?))
    && (o.Some? && o.value.Resolved? ==> o.value.kind == ws.target)
  }

  lemma TransactionAgrees(ws: WaitState, kind: Kind, matches: seq<bool>)
    requires FromChain(kind)
    ensures Agrees(ws, DeliverAll(ws.watch, kind, TxReactions(OnEvent(ws.settled, ws.target, kind), matches)),
                   Settlement(ws, Transaction(kind, matches)))
  {
    DeliverAllEffect(ws.watch, kind, OnEvent(ws.settled, ws.target, kind), matches);
  }

  lemma ContinueAgrees(ws: WaitState, t: bool)
    ensures Agrees(ws, ContinueStep(ws.watch, OnEvent(ws.settled, ws.target, Waiting), OnError(ws.settled, t)),
                   Settlement(ws, ContinueWatch(t)))
  {
    ContinueEffect(ws.watch, OnEvent(ws.settled, ws.target, Waiting), OnError(ws.settled, t));
  }

  lemma TimerAgrees(ws: WaitState, timer: nat)
    ensures Agrees(ws, FireTimer(ws.watch, timer, OnEvent(ws.settled, ws.target, Claimable)), Settlement(ws, WatchTimer(timer)))
  {
    TimerEffect(ws.watch, timer, OnEvent(ws.settled, ws.target, Claimable));
  }

  lemma WatchStepEffect(ws: WaitState, a: WaitAction)
    requires !a.WaitTimer?
    ensures Agrees(ws, Step(ws.watch, WatchAction(ws, a)), Settlement(ws, a))
  {
    match a
    case SubscribeDone(sub) =>
    case SubscribeFails(sub, t) =>
      HandleErrorEffect(ws.watch.(awaiting := ws.watch.awaiting - {sub}), OnError(ws.settled, t));
    case Transaction(kind, matches) => if FromChain(kind) { TransactionAgrees(ws, kind, matches); }
    case PeriodDone =>
    case PeriodFails(t) => PeriodRejectsEffect(ws.watch, OnError(ws.settled, t));
    case ContinueWatch(t) => ContinueAgrees(ws, t);
    case WatchTimer(timer) => TimerAgrees(ws, timer);
  }

  lemma WaitStepKeeps(ws: WaitState, a: WaitAction)
    requires WaitInv(ws)
    ensures WaitInv(WaitStep(ws, a))
  {
    if a.WaitTimer? {
      CleanUpKeeps(ws.watch);
      CleanUpEffect(ws.watch);
    } else {
      StepKeeps(ws.watch, WatchAction(ws, a));
      WatchStepEffect(ws, a);
    }
  }

  lemma {:induction false} WaitRunKeeps(target: Kind, actions: seq<WaitAction>)
    ensures WaitInv(WaitRun(Begin(target), actions)) && WaitRun(Begin(target), actions).target == target
  {
    if actions == [] {
      StartedInv(true, false);
    } else {
      WaitRunKeeps(target, actions[..|actions| - 1]);
      WaitStepKeeps(WaitRun(Begin(target), actions[..|actions| - 1]), actions[|actions| - 1]);
    }
  }

  /** In every run the promise is settled at most once; it is settled once the target event has been
      delivered, and resolved with no other event; a settled wait has unsubscribed, each subscription
      made ending exactly once; and until it is settled its timer stands. */
  lemma SettlesOnce(target: Kind, actions: seq<WaitAction>)
    ensures var ws := WaitRun(Begin(target), actions);
            && |ws.outcomes| == (if ws.settled then 1 else 0)
            && (Delivered(target) in ws.watch.trace ==> ws.settled)
            && (forall o :: o in ws.outcomes && o.Resolved? ==> o.kind == target && Delivered(target) in ws.watch.trace)
            && (ws.settled ==> ws.watch.cleaned)
            && (ws.settled ==> forall sub: nat :: sub in ws.watch.resolved ==> Count(ws.watch.trace, Unsubscribed(sub)) == 1)
            && (!ws.settled ==> ws.timerLive)
            && QuietAfterCleanUp(ws.watch.trace)
  {
    WaitRunKeeps(target, actions);
  }

  /** The caller's `onError` throws in this step. */
  predicate UserThrows(a: WaitAction) {
    match a
    case SubscribeFails(_, t) => t
    case PeriodFails(t) => t
    case ContinueWatch(t) => t
    case _ => false
  }

  ghost predicate Reports(s: State, s': State) {
    Count(s'.trace, ErrorReported) > Count(s.trace, ErrorReported)
  }

  lemma WatchReports(ws: WaitState, a: WaitAction)
    requires !a.WaitTimer? && !ws.settled
    ensures Reports(ws.watch, Step(ws.watch, WatchAction(ws, a))) && !UserThrows(a) <==> Settlement(ws, a) == Some(Rejected)
  {
    StepExactly(ws.watch, WatchAction(ws, a));
  }

  /** A wait that is not settled is settled by a step exactly when the target event is delivered, an
      error is reported that the caller's own handler returns from, or its timer fires; and it is
      resolved with that event, rejected, or timed out accordingly. */
  lemma SettlesExactly(ws: WaitState, a: WaitAction)
    requires WaitInv(ws) && !ws.settled
    ensures var ws' := WaitStep(ws, a);
            var delivered := Delivered(ws.target) in ws'.watch.trace;
            var failed := Reports(ws.watch, ws'.watch) && !UserThrows(a);
            && (ws'.settled <==> delivered || failed || a.WaitTimer?)
            && (delivered ==> ws'.outcomes == [Resolved(ws.target)])
            && (failed ==> ws'.outcomes == [Rejected])
            && (a.WaitTimer? ==> ws'.outcomes == [TimedOut])
  {
    if a.WaitTimer? {
      CleanUpEffect(ws.watch);
      CleanUpInvisible(ws.watch, ErrorReported);
    } else {
      WatchStepEffect(ws, a);
      WatchReports(ws, a);
    }
  }

  /** After the step of its timer a wait is settled. */
  lemma TimerSettles(target: Kind, actions: seq<WaitAction>)
    ensures WaitRun(Begin(target), actions + [WaitTimer]).settled
  {
    WaitRunKeeps(target, actions);
    assert (actions + [WaitTimer])[..|actions|] == actions;
  }
}
