/** What exactly each step of a watched withdrawal delivers, reports and ends. */
module WatchEffects {
  import opened Collections
  import opened Watch
  import opened WatchProofs

  // ---------- the events of one transaction ----------

  /** Event i is passed to the callback: it matches, and no matching event before it made it throw. */
  predicate Called(events: seq<TxEvent>, i: int) {
    && 0 <= i < |events| && events[i].matches
    && forall j :: 0 <= j < i && events[j].matches ==> !events[j].reaction.throws
  }

  /** The callback is called with event i and returns. */
  predicate Returned(events: seq<TxEvent>, i: int) {
    Called(events, i) && !events[i].reaction.throws
  }

  function CallsMade(events: seq<TxEvent>): nat {
    HowMany(|events|, i => Called(events, i))
  }

  function CallsReturned(events: seq<TxEvent>): nat {
    HowMany(|events|, i => Returned(events, i))
  }

  predicate SomeUnsubscribes(events: seq<TxEvent>) {
    exists i :: 0 <= i < |events| && Called(events, i) && events[i].reaction.unsubscribes
  }

  lemma CalledRest(events: seq<TxEvent>, i: int)
    requires events != [] && i >= 0
    ensures Called(events, i + 1) <==> Called(events[1..], i) && !(events[0].matches && events[0].reaction.throws)
  {
    var rest := events[1..];
    if Called(events, i + 1) {
      assert forall j :: 0 <= j < i ==> rest[j] == events[j + 1];
    }
    if Called(rest, i) && !(events[0].matches && events[0].reaction.throws) {
      forall j | 0 <= j < i + 1 && events[j].matches ensures !events[j].reaction.throws {
        if j > 0 { assert rest[j - 1] == events[j]; }
      }
    }
  }

  /** The events after the first count only if the first did not make the callback throw. */
  lemma CallsFirst(events: seq<TxEvent>)
    requires events != []
    ensures var first, stops := events[0], events[0].matches && events[0].reaction.throws;
            && CallsMade(events) == (if first.matches then 1 else 0) + (if stops then 0 else CallsMade(events[1..]))
            && CallsReturned(events) ==
               (if first.matches && !first.reaction.throws then 1 else 0) + (if stops then 0 else CallsReturned(events[1..]))
  {
    var rest, n := events[1..], |events| - 1;
    var stops := events[0].matches && events[0].reaction.throws;
    var called, returned := (i: int) => Called(events, i), (i: int) => Returned(events, i);
    var calledRest, returnedRest := (i: int) => Called(events, i + 1), (i: int) => Returned(events, i + 1);
    HowManyFirst(n, called, calledRest);
    HowManyFirst(n, returned, returnedRest);
    forall i | 0 <= i < n
      ensures calledRest(i) <==> Called(rest, i) && !stops
      ensures returnedRest(i) <==> Returned(rest, i) && !stops
    {
      CalledRest(events, i);
      assert rest[i] == events[i + 1];
    }
    if stops {
      HowManyNone(n, calledRest);
      HowManyNone(n, returnedRest);
    } else {
      HowManySame(n, calledRest, i => Called(rest, i));
      HowManySame(n, returnedRest, i => Returned(rest, i));
    }
    assert Called(events, 0) <==> events[0].matches;
  }

  lemma UnsubscribesFirst(events: seq<TxEvent>)
    requires events != []
    ensures SomeUnsubscribes(events) <==>
            || (events[0].matches && events[0].reaction.unsubscribes)
            || (!(events[0].matches && events[0].reaction.throws) && SomeUnsubscribes(events[1..]))
  {
    var rest := events[1..];
    if i :| 0 <= i < |events| && Called(events, i) && events[i].reaction.unsubscribes {
      if i > 0 {
        CalledRest(events, i - 1);
        assert rest[i - 1] == events[i];
      }
    }
    if events[0].matches && events[0].reaction.unsubscribes {
      assert Called(events, 0);
    }
    if !(events[0].matches && events[0].reaction.throws) && SomeUnsubscribes(rest) {
      var i :| 0 <= i < |rest| && Called(rest, i) && rest[i].reaction.unsubscribes;
      CalledRest(events, i);
      assert events[i + 1] == rest[i];
    }
  }

  // ---------- what clean-up leaves of the counts ----------

  /** An entry that is neither the end of a subscription nor the clean-up. */
  predicate Visible(e: Entry) {
    e.Delivered? || e.ErrorReported?
  }

  lemma {:induction false} EndsInvisible(trace: seq<Entry>, subs: seq<nat>, e: Entry)
    requires Visible(e)
    ensures Count(trace + Ends(subs), e) == Count(trace, e)
  {
    if subs == [] {
      assert trace + Ends(subs) == trace;
    } else {
      var front, last := subs[..|subs| - 1], subs[|subs| - 1];
      EndsInvisible(trace, front, e);
      CountEndsSnoc(trace, front, last, e);
      assert subs == front + [last];
    }
  }

  lemma CleanUpInvisible(s: State, e: Entry)
    requires Visible(e)
    ensures Count(CleanUp(s).trace, e) == Count(s.trace, e)
  {
    CountSnoc(s.trace, CleanedUp, e);
    EndsInvisible(s.trace + [CleanedUp], s.subs, e);
  }

  /** What the counts, the flag and the continuations become. */
  ghost predicate Changes(s: State, s': State, kind: Kind, calls: nat, errors: nat, cleans: bool, continuations: int) {
    && (forall k :: Count(s'.trace, Delivered(k)) == Count(s.trace, Delivered(k)) + (if k == kind then calls else 0))
    && Count(s'.trace, ErrorReported) == Count(s.trace, ErrorReported) + errors
    && (s'.cleaned <==> s.cleaned || cleans)
    && s'.continuations == s.continuations + continuations
  }

  lemma ReactChanges(s: State, r: Reaction, kind: Kind)
    ensures Changes(s, React(s, r), kind, 0, 0, r.unsubscribes, 0)
  {
    forall e | Visible(e) ensures Count(React(s, r).trace, e) == Count(s.trace, e) {
      CleanUpInvisible(s, e);
    }
  }

  lemma {:induction false} ComposeChanges(s: State, s1: State, s': State, kind: Kind, calls: nat, errors: nat, cleans: bool, calls': nat, errors': nat, cleans': bool, continuations: int, continuations': int)
    requires Changes(s, s1, kind, calls, errors, cleans, continuations) && Changes(s1, s', kind, calls', errors', cleans', continuations')
    ensures Changes(s, s', kind, calls + calls', errors + errors', cleans || cleans', continuations + continuations')
  {
  }

  lemma DeliverChanges(s: State, kind: Kind, r: Reaction)
    ensures Changes(s, Deliver(s, kind, r), kind, 1, 0, r.unsubscribes, 0)
  {
    var s1 := s.(trace := s.trace + [Delivered(kind)]);
    forall e ensures Count(s1.trace, e) == Count(s.trace, e) + (if e == Delivered(kind) then 1 else 0) {
      CountSnoc(s.trace, Delivered(kind), e);
    }
    ReactChanges(s1, r, kind);
  }

  lemma HandleErrorChanges(s: State, r: Reaction, kind: Kind)
    ensures Changes(s, HandleError(s, r), kind, 0, 1, !s.customOnError || r.unsubscribes, 0)
  {
    var s1 := s.(trace := s.trace + [ErrorReported]);
    forall e ensures Count(s1.trace, e) == Count(s.trace, e) + (if e == ErrorReported then 1 else 0) {
      CountSnoc(s.trace, ErrorReported, e);
    }
    ReactChanges(s1, Reaction(!s.customOnError || r.unsubscribes, false), kind);
  }

  lemma CleanUpChanges(s: State, kind: Kind)
    ensures Changes(s, CleanUp(s), kind, 0, 0, true, 0)
  {
    ReactChanges(s, Reaction(true, false), kind);
  }

  // ---------- what each step delivers ----------

  /** A transaction is delivered to the callback event by event up to the one that makes it throw; each
      proposal it returns from leaves a continuation; and it is cleaned up if a call unsubscribes. */
  lemma {:induction false} TxExactly(s: State, kind: Kind, events: seq<TxEvent>)
    ensures Changes(s, DeliverAll(s, kind, events), kind, CallsMade(events), 0, SomeUnsubscribes(events),
                    if kind == Proposed then CallsReturned(events) else 0)
    decreases |events|
  {
    if events == [] {
      NothingInNone(events);
    } else {
      var first := events[0];
      CallsFirst(events);
      UnsubscribesFirst(events);
      if !first.matches {
        TxExactly(s, kind, events[1..]);
      } else {
        var s1 := Deliver(s, kind, first.reaction);
        DeliverChanges(s, kind, first.reaction);
        if !first.reaction.throws {
          var more := if kind == Proposed then 1 else 0;
          var s2 := if kind == Proposed then s1.(continuations := s1.continuations + 1) else s1;
          assert Changes(s, s2, kind, 1, 0, first.reaction.unsubscribes, more);
          TxExactly(s2, kind, events[1..]);
          ComposeChanges(s, s2, DeliverAll(s2, kind, events[1..]), kind, 1, 0, first.reaction.unsubscribes,
                         CallsMade(events[1..]), 0, SomeUnsubscribes(events[1..]), more,
                         if kind == Proposed then CallsReturned(events[1..]) else 0);
        }
      }
    }
  }

  lemma NothingInNone(events: seq<TxEvent>)
    requires events == []
    ensures CallsMade(events) == CallsReturned(events) == 0 && !SomeUnsubscribes(events)
  {
  }

  /** A continuation can run: the period is known or not to be had, and the watch is not cleaned up. */
  predicate Runs(s: State) {
    s.continuations > 0 && s.period != Unknown && !s.cleaned
  }

  /** The one kind of event a step can deliver. */
  function KindOf(a: Action): Kind {
    match a
    case Tx(kind, _) => kind
    case Continue(_, _) => Waiting
    case _ => Claimable
  }

  /** How many events of its kind a step delivers. */
  function Deliveries(s: State, a: Action): nat {
    match a
    case Tx(kind, events) => if FromChain(kind) then CallsMade(events) else 0
    case Continue(_, _) => if Runs(s) && s.period == Known then 1 else 0
    case TimerFires(timer, _) => if timer in s.live && !s.cleaned then 1 else 0
    case _ => 0
  }

  /** The step is a failure handed to the error handler. */
  predicate Fails(s: State, a: Action) {
    match a
    case SubscribeRejects(sub, _) => sub in s.awaiting
    case PeriodRejects(_) => s.period == Unknown
    case TimeoutFires(_) => s.timeoutLive
    case Continue(w, _) => Runs(s) && (s.period == Unavailable || (w.throws && !w.unsubscribes))
    case _ => false
  }

  /** The step cleans up. */
  predicate Cleans(s: State, a: Action) {
    match a
    case SubscribeResolves(_) => false
    case SubscribeRejects(sub, r) => sub in s.awaiting && (!s.customOnError || r.unsubscribes)
    case Tx(kind, events) => FromChain(kind) && SomeUnsubscribes(events)
    case PeriodResolves => false
    case PeriodRejects(_) => s.period == Unknown
    case Continue(w, r) =>
      Runs(s) && ((s.period == Known && w.unsubscribes) || (Fails(s, a) && (!s.customOnError || r.unsubscribes)))
    case TimerFires(timer, r) => timer in s.live && !s.cleaned && r.unsubscribes
    case TimeoutFires(_) => s.timeoutLive
    case Unsubscribe => true
  }

  function ContinuationsAdded(s: State, a: Action): int {
    match a
    case Tx(kind, events) => if kind == Proposed then CallsReturned(events) else 0
    case Continue(_, _) => if s.continuations > 0 && s.period != Unknown then -1 else 0
    case _ => 0
  }

  lemma ContinueExactly(s: State, w: Reaction, r: Reaction)
    ensures var a := Continue(w, r);
            Changes(s, ContinueStep(s, w, r), Waiting, Deliveries(s, a), if Fails(s, a) then 1 else 0, Cleans(s, a), ContinuationsAdded(s, a))
  {
    if Runs(s) {
      var s1 := s.(continuations := s.continuations - 1);
      assert Changes(s, s1, Waiting, 0, 0, false, -1);
      if s.period == Unavailable {
        HandleErrorChanges(s1, r, Waiting);
        ComposeChanges(s, s1, HandleError(s1, r), Waiting, 0, 0, false, 0, 1, !s.customOnError || r.unsubscribes, -1, 0);
      } else {
        RunExactly(s, s1, w, r);
      }
    }
  }

  /** The callback is told 'waiting'; a throw is an error unless it has unsubscribed. */
  lemma RunExactly(s: State, s1: State, w: Reaction, r: Reaction)
    requires Runs(s) && s.period == Known && s1 == s.(continuations := s.continuations - 1)
    requires Changes(s, s1, Waiting, 0, 0, false, -1)
    ensures var a := Continue(w, r);
            Changes(s, ContinueStep(s, w, r), Waiting, 1, if Fails(s, a) then 1 else 0, Cleans(s, a), -1)
  {
    var s2 := Deliver(s1, Waiting, w);
    DeliverChanges(s1, Waiting, w);
    ComposeChanges(s, s1, s2, Waiting, 0, 0, false, 1, 0, w.unsubscribes, -1, 0);
    if w.throws && !s2.cleaned {
      HandleErrorChanges(s2, r, Waiting);
      ComposeChanges(s, s2, HandleError(s2, r), Waiting, 1, 0, w.unsubscribes, 0, 1, !s.customOnError || r.unsubscribes, -1, 0);
    }
  }

  lemma FailureExactly(s: State, r: Reaction)
    ensures Changes(s, HandleError(CleanUp(s), r), Claimable, 0, 1, true, 0)
  {
    CleanUpChanges(s, Claimable);
    HandleErrorChanges(CleanUp(s), r, Claimable);
  }

  /** What a step changes, as the tables say. */
  ghost predicate StepChanges(s: State, a: Action) {
    Changes(s, Step(s, a), KindOf(a), Deliveries(s, a), if Fails(s, a) then 1 else 0, Cleans(s, a), ContinuationsAdded(s, a))
  }

  lemma ResolveExactly(s: State, sub: nat)
    ensures StepChanges(s, SubscribeResolves(sub))
  {
    forall e | Visible(e) ensures Count(Resolve(s, sub).trace, e) == Count(s.trace, e) {
      CountSnoc(s.trace, Unsubscribed(sub), e);
    }
  }

  /** Only the trace, the flag and the continuations matter. */
  lemma ChangesFrom(s0: State, s: State, s': State, kind: Kind, calls: nat, errors: nat, cleans: bool, continuations: int)
    requires s0.trace == s.trace && s0.cleaned == s.cleaned && s0.continuations == s.continuations
    requires Changes(s0, s', kind, calls, errors, cleans, continuations)
    ensures Changes(s, s', kind, calls, errors, cleans, continuations)
  {
  }

  lemma NothingChanges(s: State, s': State, kind: Kind)
    requires s'.trace == s.trace && s'.cleaned == s.cleaned && s'.continuations == s.continuations
    ensures Changes(s, s', kind, 0, 0, false, 0)
  {
  }

  lemma RejectExactly(s: State, sub: nat, r: Reaction)
    ensures StepChanges(s, SubscribeRejects(sub, r))
  {
    if sub in s.awaiting {
      var s0 := s.(awaiting := s.awaiting - {sub});
      HandleErrorChanges(s0, r, Claimable);
      ChangesFrom(s0, s, HandleError(s0, r), Claimable, 0, 1, !s.customOnError || r.unsubscribes, 0);
    } else {
      NothingChanges(s, s, Claimable);
    }
  }

  lemma FireExactly(s: State, timer: nat, r: Reaction)
    ensures StepChanges(s, TimerFires(timer, r))
  {
    var s0 := s.(live := s.live - {timer});
    if timer in s.live && !s.cleaned {
      DeliverChanges(s0, Claimable, r);
      ChangesFrom(s0, s, Deliver(s0, Claimable, r), Claimable, 1, 0, r.unsubscribes, 0);
    } else {
      NothingChanges(s, FireTimer(s, timer, r), Claimable);
    }
  }

  lemma PeriodExactly(s: State, r: Reaction)
    ensures StepChanges(s, PeriodRejects(r)) && StepChanges(s, PeriodResolves)
  {
    var s0 := s.(period := Unavailable);
    NothingChanges(s, Step(s, PeriodResolves), Claimable);
    if s.period == Unknown {
      FailureExactly(s0, r);
      ChangesFrom(s0, s, HandleError(CleanUp(s0), r), Claimable, 0, 1, true, 0);
    } else {
      NothingChanges(s, s, Claimable);
    }
  }

  lemma TimeoutExactly(s: State, r: Reaction)
    ensures StepChanges(s, TimeoutFires(r))
  {
    var s0 := s.(timeoutLive := false);
    if s.timeoutLive {
      FailureExactly(s0, r);
      ChangesFrom(s0, s, HandleError(CleanUp(s0), r), Claimable, 0, 1, true, 0);
    } else {
      NothingChanges(s, s, Claimable);
    }
  }

  /** Every step delivers exactly these events, reports exactly these errors, and cleans up exactly when
      this says so. */
  lemma StepExactly(s: State, a: Action)
    ensures StepChanges(s, a)
  {
    match a
    case SubscribeResolves(sub) => ResolveExactly(s, sub);
    case SubscribeRejects(sub, r) => RejectExactly(s, sub, r);
    case Tx(kind, events) => if FromChain(kind) { TxExactly(s, kind, events); } else { NothingChanges(s, s, kind); }
    case PeriodResolves => PeriodExactly(s, Reaction(false, false));
    case PeriodRejects(r) => PeriodExactly(s, r);
    case Continue(w, r) => ContinueExactly(s, w, r);
    case TimerFires(timer, r) => FireExactly(s, timer, r);
    case TimeoutFires(r) => TimeoutExactly(s, r);
    case Unsubscribe => CleanUpChanges(s, Claimable);
  }

  /** Without an error handler of the caller's own, every failure leaves the watch cleaned up. */
  lemma FailureCleansUp(s: State, a: Action)
    requires Fails(s, a) && !s.customOnError
    ensures Step(s, a).cleaned
  {
    StepExactly(s, a);
  }

  // ---------- timers, sessions and the period ----------

  /** Reacting, delivering and handling errors end everything at clean-up, and change nothing of this
      before or after it. */
  ghost predicate Moves(s: State, s': State) {
    && s'.period == s.period && s'.nextTimer == s.nextTimer && s'.customOnError == s.customOnError
    && s'.awaiting == s.awaiting && s'.resolved == s.resolved
    && (s.cleaned ==> s'.cleaned && s'.live == s.live && s'.subs == s.subs && s'.sessions == s.sessions && s'.timeoutLive == s.timeoutLive)
    && (!s'.cleaned ==> s'.live == s.live && s'.subs == s.subs && s'.sessions == s.sessions && s'.timeoutLive == s.timeoutLive)
    && (s'.cleaned && !s.cleaned ==> s'.sessions == 0 && !s'.timeoutLive && s'.subs == [])
  }

  lemma DeliverMoves(s: State, kind: Kind, r: Reaction)
    ensures Moves(s, Deliver(s, kind, r)) && Moves(s, HandleError(s, r)) && Moves(s, CleanUp(s))
  {
  }

  lemma {:induction false} DeliverAllMoves(s: State, kind: Kind, events: seq<TxEvent>)
    ensures Moves(s, DeliverAll(s, kind, events))
    decreases |events|
  {
    if events != [] {
      if !events[0].matches {
        DeliverAllMoves(s, kind, events[1..]);
      } else {
        DeliverMoves(s, kind, events[0].reaction);
        var s1 := Deliver(s, kind, events[0].reaction);
        if !events[0].reaction.throws {
          DeliverAllMoves(if kind == Proposed then s1.(continuations := s1.continuations + 1) else s1, kind, events[1..]);
        }
      }
    }
  }

  function PeriodAfter(s: State, a: Action): Period {
    if s.period != Unknown then s.period
    else if a == PeriodResolves then Known
    else if a.PeriodRejects? then Unavailable
    else Unknown
  }

  /** The timers alive after a step that does not clean up: one more for a continuation whose callback
      returned, one less for one that fired. */
  function LiveAfter(s: State, a: Action): set<nat> {
    if a.TimerFires? then s.live - {a.timer}
    else if a.Continue? && Runs(s) && s.period == Known && !a.onWaiting.throws then s.live + {s.nextTimer}
    else s.live
  }

  lemma StepMoves(s: State, a: Action)
    ensures var s' := Step(s, a);
            && s'.period == PeriodAfter(s, a) && s'.customOnError == s.customOnError
            && (!s'.cleaned ==> s'.live == LiveAfter(s, a))
  {
    match a
    case SubscribeResolves(_) =>
    case SubscribeRejects(sub, r) => DeliverMoves(s.(awaiting := s.awaiting - {sub}), Claimable, r);
    case Tx(kind, events) => DeliverAllMoves(s, kind, events);
    case PeriodResolves =>
    case PeriodRejects(r) =>
    case Continue(w, r) => ContinueMoves(s, w, r);
    case TimerFires(timer, r) => DeliverMoves(s.(live := s.live - {timer}), Claimable, r);
    case TimeoutFires(r) =>
    case Unsubscribe =>
  }

  lemma ContinueMoves(s: State, w: Reaction, r: Reaction)
    ensures var s' := ContinueStep(s, w, r);
            && s'.period == s.period && s'.customOnError == s.customOnError
            && (!s'.cleaned ==> s'.live == LiveAfter(s, Continue(w, r)))
  {
    if s.continuations > 0 && s.period != Unknown {
      var s1 := s.(continuations := s.continuations - 1);
      DeliverMoves(s1, Waiting, w);
      DeliverMoves(s1, Waiting, r);
      DeliverMoves(Deliver(s1, Waiting, w), Waiting, r);
    }
  }

  /** Two sessions are open until the clean-up, and none after it; no timeout runs on after it. */
  ghost predicate SessionsRight(s: State) {
    s.sessions == (if s.cleaned then 0 else 2) && (s.cleaned ==> !s.timeoutLive)
  }

  lemma StepKeepsSessions(s: State, a: Action)
    requires SessionsRight(s)
    ensures SessionsRight(Step(s, a))
  {
    if a.Tx? {
      DeliverAllMoves(s, a.kind, a.events);
    }
  }

  /** In every run the sessions are open exactly as long as the watch is not cleaned up. */
  lemma {:induction false} SessionsClose(customOnError: bool, timeout: bool, actions: seq<Action>)
    ensures SessionsRight(Run(Started(customOnError, timeout), actions))
  {
    if actions != [] {
      SessionsClose(customOnError, timeout, actions[..|actions| - 1]);
      StepKeepsSessions(Run(Started(customOnError, timeout), actions[..|actions| - 1]), actions[|actions| - 1]);
    }
  }

  // ---------- nothing is forgotten ----------

  /** The proposals the callback returned from in a run. */
  function ProposalsReturned(actions: seq<Action>): nat {
    if actions == [] then 0
    else
      var a := actions[|actions| - 1];
      ProposalsReturned(actions[..|actions| - 1]) + (if a.Tx? && a.kind == Proposed then CallsReturned(a.events) else 0)
  }

  predicate NoWaitingThrows(actions: seq<Action>) {
    forall i :: 0 <= i < |actions| && actions[i].Continue? ==> !actions[i].onWaiting.throws
  }

  /** Until the clean-up, a proposal returned from is a 'waiting' delivered or one still to come, and a
      'waiting' returned from is a 'claimable' delivered or a live timer. */
  ghost predicate Accounted(s: State, actions: seq<Action>) {
    && (s.period == Unavailable ==> s.cleaned)
    && (!s.cleaned ==>
        && Count(s.trace, Delivered(Waiting)) + s.continuations == ProposalsReturned(actions)
        && (NoWaitingThrows(actions) ==>
            Count(s.trace, Delivered(Claimable)) + |s.live| == Count(s.trace, Delivered(Waiting))))
  }

  lemma AccountedNext(s: State, front: seq<Action>, a: Action)
    requires Accounted(s, front) && forall t :: t in s.live ==> t < s.nextTimer
    ensures Accounted(Step(s, a), front + [a])
  {
    var s', actions := Step(s, a), front + [a];
    assert actions[..|front|] == front && actions[|front|] == a;
    assert forall i :: 0 <= i < |front| ==> actions[i] == front[i];
    StepExactly(s, a);
    StepMoves(s, a);
    if !s'.cleaned {
      assert Count(s'.trace, Delivered(Waiting)) == Count(s.trace, Delivered(Waiting)) + (if KindOf(a) == Waiting then Deliveries(s, a) else 0);
      assert Count(s'.trace, Delivered(Claimable)) == Count(s.trace, Delivered(Claimable)) + (if KindOf(a) == Claimable then Deliveries(s, a) else 0);
      if NoWaitingThrows(actions) {
        assert NoWaitingThrows(front);
        LiveCount(s, a);
      }
    }
  }

  lemma LiveCount(s: State, a: Action)
    requires forall t :: t in s.live ==> t < s.nextTimer
    requires a.Continue? ==> !a.onWaiting.throws
    requires !s.cleaned
    ensures |LiveAfter(s, a)| == |s.live| - (if a.TimerFires? then Deliveries(s, a) else 0)
                                          + (if a.Continue? && s.period == Known then Deliveries(s, a) else 0)
  {
    if a.TimerFires? && a.timer !in s.live {
      assert s.live - {a.timer} == s.live;
    }
  }

  /** In every run, until it is cleaned up, the watch forgets nothing. */
  lemma {:induction false} NothingForgotten(customOnError: bool, timeout: bool, actions: seq<Action>)
    ensures Accounted(Run(Started(customOnError, timeout), actions), actions)
  {
    if actions != [] {
      var front, a := actions[..|actions| - 1], actions[|actions| - 1];
      NothingForgotten(customOnError, timeout, front);
      StartedInv(customOnError, timeout);
      RunKeeps(Started(customOnError, timeout), front);
      AccountedNext(Run(Started(customOnError, timeout), front), front, a);
      assert actions == front + [a];
    }
  }
}
