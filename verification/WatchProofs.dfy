/** What holds of a watched withdrawal over every run. */
module WatchProofs {
  import opened Collections
  import opened Watch

  // ---------- counting in a trace ----------

  function Count(trace: seq<Entry>, e: Entry): nat {
    if trace == [] then 0
    else Count(trace[..|trace| - 1], e) + (if trace[|trace| - 1] == e then 1 else 0)
  }

  lemma CountSnoc(trace: seq<Entry>, x: Entry, e: Entry)
    ensures Count(trace + [x], e) == Count(trace, e) + (if x == e then 1 else 0)
  {
    assert (trace + [x])[..|trace|] == trace;
  }

  lemma {:induction false} CountEnds(trace: seq<Entry>, subs: seq<nat>, e: Entry)
    requires forall i, j :: 0 <= i < j < |subs| ==> subs[i] != subs[j]
    ensures Count(trace + Ends(subs), e) ==
            Count(trace, e) + (if e.Unsubscribed? && e.sub in subs then 1 else 0)
  {
    if subs == [] {
      assert trace + Ends(subs) == trace;
    } else {
      var front, last := subs[..|subs| - 1], subs[|subs| - 1];
      CountEnds(trace, front, e);
      CountEndsSnoc(trace, front, last, e);
      InSnoc(front, last, e);
      assert subs == front + [last];
    }
  }

  lemma CountEndsSnoc(trace: seq<Entry>, subs: seq<nat>, sub: nat, e: Entry)
    ensures Count(trace + Ends(subs + [sub]), e) == Count(trace + Ends(subs), e) + (if e == Unsubscribed(sub) then 1 else 0)
  {
    assert trace + Ends(subs + [sub]) == (trace + Ends(subs)) + [Unsubscribed(sub)];
    CountSnoc(trace + Ends(subs), Unsubscribed(sub), e);
  }

  lemma InSnoc(subs: seq<nat>, sub: nat, e: Entry)
    requires sub !in subs
    ensures (if e.Unsubscribed? && e.sub in subs + [sub] then 1 else 0) ==
            (if e.Unsubscribed? && e.sub in subs then 1 else 0) + (if e == Unsubscribed(sub) then 1 else 0)
  {
  }

  // ---------- the invariant ----------

  /** Claims never outrun waits, nor waits proposals, in the whole trace. */
  ghost predicate Paced(trace: seq<Entry>) {
    Count(trace, Delivered(Claimable)) <= Count(trace, Delivered(Waiting)) <= Count(trace, Delivered(Proposed))
  }

  ghost predicate PacedThroughout(trace: seq<Entry>) {
    forall n :: 0 <= n <= |trace| ==> Paced(trace[..n])
  }

  /** After the clean-up no 'waiting' and no 'claimable' is delivered. */
  ghost predicate QuietAfterCleanUp(trace: seq<Entry>) {
    forall i, j :: 0 <= i < j < |trace| && trace[i] == CleanedUp ==>
      trace[j] != Delivered(Waiting) && trace[j] != Delivered(Claimable)
  }

  ghost predicate SubsInv(s: State) {
    && s.awaiting !! s.resolved
    && (forall i, j :: 0 <= i < j < |s.subs| ==> s.subs[i] != s.subs[j])
    && (forall x :: x in s.subs ==> x in s.resolved)
    && (s.cleaned ==> s.subs == [])
    && (s.cleaned <==> CleanedUp in s.trace)
    && (forall x: nat :: Count(s.trace, Unsubscribed(x)) == if x in s.resolved && x !in s.subs then 1 else 0)
  }

  ghost predicate PaceInv(s: State) {
    && (forall t :: t in s.live ==> t < s.nextTimer)
    && Count(s.trace, Delivered(Claimable)) + |s.live| <= Count(s.trace, Delivered(Waiting))
    && Count(s.trace, Delivered(Waiting)) + s.continuations <= Count(s.trace, Delivered(Proposed))
    && PacedThroughout(s.trace)
    && QuietAfterCleanUp(s.trace)
  }

  ghost predicate Inv(s: State) {
    SubsInv(s) && PaceInv(s)
  }

  // ---------- what keeps it ----------

  lemma PacedSnoc(trace: seq<Entry>, x: Entry)
    requires PacedThroughout(trace) && Paced(trace + [x])
    ensures PacedThroughout(trace + [x])
  {
    forall n | 0 <= n <= |trace + [x]| ensures Paced((trace + [x])[..n]) {
      if n <= |trace| {
        assert (trace + [x])[..n] == trace[..n];
      } else {
        assert (trace + [x])[..n] == trace + [x];
      }
    }
  }

  /** An entry that is not an event delivered changes no count of events. */
  lemma PacedOther(trace: seq<Entry>, x: Entry)
    requires PacedThroughout(trace) && !x.Delivered?
    ensures PacedThroughout(trace + [x])
    ensures forall k :: Count(trace + [x], Delivered(k)) == Count(trace, Delivered(k))
  {
    forall k ensures Count(trace + [x], Delivered(k)) == Count(trace, Delivered(k)) {
      CountSnoc(trace, x, Delivered(k));
    }
    assert trace[..|trace|] == trace;
    assert Paced(trace);
    PacedSnoc(trace, x);
  }

  lemma {:induction false} PacedEnds(trace: seq<Entry>, subs: seq<nat>)
    requires PacedThroughout(trace)
    ensures PacedThroughout(trace + Ends(subs))
    ensures forall k :: Count(trace + Ends(subs), Delivered(k)) == Count(trace, Delivered(k))
  {
    if subs == [] {
      assert trace + Ends(subs) == trace;
    } else {
      var n := |subs| - 1;
      PacedEnds(trace, subs[..n]);
      assert trace + Ends(subs) == (trace + Ends(subs[..n])) + [Unsubscribed(subs[n])];
      PacedOther(trace + Ends(subs[..n]), Unsubscribed(subs[n]));
    }
  }

  lemma CleanUpKeepsSubs(s: State)
    requires SubsInv(s)
    ensures SubsInv(CleanUp(s))
  {
    if !s.cleaned {
      var s' := CleanUp(s);
      forall x: nat ensures Count(s'.trace, Unsubscribed(x)) == if x in s'.resolved && x !in s'.subs then 1 else 0 {
        CountSnoc(s.trace, CleanedUp, Unsubscribed(x));
        CountEnds(s.trace + [CleanedUp], s.subs, Unsubscribed(x));
      }
      assert s'.trace[|s.trace|] == CleanedUp;
    }
  }

  lemma CleanUpKeepsPace(s: State)
    requires PaceInv(s)
    ensures PaceInv(CleanUp(s))
  {
    if !s.cleaned {
      var s' := CleanUp(s);
      PacedOther(s.trace, CleanedUp);
      PacedEnds(s.trace + [CleanedUp], s.subs);
      assert s'.live + (s.live - s'.live) == s.live;
      assert |s'.live| <= |s.live|;
      forall i, j | 0 <= i < j < |s'.trace| && s'.trace[i] == CleanedUp
        ensures s'.trace[j] != Delivered(Waiting) && s'.trace[j] != Delivered(Claimable)
      {
        if j < |s.trace| {
          assert s.trace[i] == CleanedUp;
        }
      }
    }
  }

  /** Recording an entry that leaves subscriptions alone. */
  lemma RecordKeepsSubs(s: State, x: Entry, s': State)
    requires SubsInv(s) && !x.Unsubscribed? && x != CleanedUp
    requires s'.trace == s.trace + [x] && s'.awaiting == s.awaiting && s'.resolved == s.resolved
    requires s'.subs == s.subs && s'.cleaned == s.cleaned
    ensures SubsInv(s')
  {
    forall y: nat ensures Count(s'.trace, Unsubscribed(y)) == Count(s.trace, Unsubscribed(y)) {
      CountSnoc(s.trace, x, Unsubscribed(y));
    }
  }

  /** Recording an event delivered: a 'waiting' uses up a proposal's continuation, a 'claimable' a timer. */
  lemma RecordKeepsPace(s: State, kind: Kind, s': State)
    requires PaceInv(s)
    requires s'.trace == s.trace + [Delivered(kind)] && s'.live == s.live && s'.nextTimer == s.nextTimer
    requires s'.continuations == s.continuations
    requires kind == Waiting ==> Count(s.trace, Delivered(Waiting)) + s.continuations < Count(s.trace, Delivered(Proposed))
    requires kind == Claimable ==> Count(s.trace, Delivered(Claimable)) + |s.live| < Count(s.trace, Delivered(Waiting))
    requires kind == Waiting || kind == Claimable ==> CleanedUp !in s.trace
    ensures PaceInv(s')
    ensures forall k :: Count(s'.trace, Delivered(k)) == Count(s.trace, Delivered(k)) + (if k == kind then 1 else 0)
  {
    forall k ensures Count(s'.trace, Delivered(k)) == Count(s.trace, Delivered(k)) + (if k == kind then 1 else 0) {
      CountSnoc(s.trace, Delivered(kind), Delivered(k));
    }
    assert Paced(s'.trace);
    PacedSnoc(s.trace, Delivered(kind));
    forall i, j | 0 <= i < j < |s'.trace| && s'.trace[i] == CleanedUp
      ensures s'.trace[j] != Delivered(Waiting) && s'.trace[j] != Delivered(Claimable)
    {
      assert s.trace[i] == CleanedUp;
      if j < |s.trace| {
        assert s'.trace[j] == s.trace[j];
      }
    }
  }

  lemma CleanUpKeeps(s: State)
    requires Inv(s)
    ensures Inv(CleanUp(s)) && CleanUp(s).cleaned
    ensures CleanUp(s).continuations == s.continuations && CleanUp(s).live <= s.live && CleanUp(s).nextTimer == s.nextTimer
    ensures forall k :: Count(CleanUp(s).trace, Delivered(k)) == Count(s.trace, Delivered(k))
  {
    CleanUpKeepsSubs(s);
    CleanUpKeepsPace(s);
    if !s.cleaned {
      PacedOther(s.trace, CleanedUp);
      PacedEnds(s.trace + [CleanedUp], s.subs);
    }
  }

  lemma DeliverKeeps(s: State, kind: Kind, r: Reaction)
    requires Inv(s)
    requires kind == Waiting ==> Count(s.trace, Delivered(Waiting)) + s.continuations < Count(s.trace, Delivered(Proposed))
    requires kind == Claimable ==> Count(s.trace, Delivered(Claimable)) + |s.live| < Count(s.trace, Delivered(Waiting))
    requires kind == Waiting || kind == Claimable ==> !s.cleaned
    ensures var s' := Deliver(s, kind, r);
            && Inv(s') && s'.continuations == s.continuations && s'.live <= s.live && s'.nextTimer == s.nextTimer
            && forall k :: Count(s'.trace, Delivered(k)) == Count(s.trace, Delivered(k)) + (if k == kind then 1 else 0)
  {
    var s1 := s.(trace := s.trace + [Delivered(kind)]);
    RecordKeepsSubs(s, Delivered(kind), s1);
    RecordKeepsPace(s, kind, s1);
    CleanUpKeeps(s1);
  }

  lemma HandleErrorKeeps(s: State, r: Reaction)
    requires Inv(s)
    ensures Inv(HandleError(s, r))
  {
    var s1 := s.(trace := s.trace + [ErrorReported]);
    RecordKeepsSubs(s, ErrorReported, s1);
    PacedOther(s.trace, ErrorReported);
    forall i, j | 0 <= i < j < |s1.trace| && s1.trace[i] == CleanedUp
      ensures s1.trace[j] != Delivered(Waiting) && s1.trace[j] != Delivered(Claimable)
    {
      assert s.trace[i] == CleanedUp;
    }
    CleanUpKeeps(s1);
  }

  lemma {:induction false} DeliverAllKeeps(s: State, kind: Kind, events: seq<TxEvent>)
    requires Inv(s) && FromChain(kind)
    ensures Inv(DeliverAll(s, kind, events))
    decreases |events|
  {
    if events != [] {
      if events[0].matches {
        DeliverKeeps(s, kind, events[0].reaction);
        var s' := Deliver(s, kind, events[0].reaction);
        if !events[0].reaction.throws {
          var s2 := if kind == Proposed then s'.(continuations := s'.continuations + 1) else s';
          DeliverAllKeeps(s2, kind, events[1..]);
        }
      } else {
        DeliverAllKeeps(s, kind, events[1..]);
      }
    }
  }

  lemma ResolveKeeps(s: State, sub: nat)
    requires Inv(s)
    ensures Inv(Resolve(s, sub))
  {
    if sub in s.awaiting && s.cleaned {
      var s' := Resolve(s, sub);
      forall x: nat ensures Count(s'.trace, Unsubscribed(x)) == if x in s'.resolved && x !in s'.subs then 1 else 0 {
        CountSnoc(s.trace, Unsubscribed(sub), Unsubscribed(x));
      }
      PacedOther(s.trace, Unsubscribed(sub));
    }
  }

  function AddTimer(s: State): State {
    s.(live := s.live + {s.nextTimer}, timers := s.timers + [s.nextTimer], nextTimer := s.nextTimer + 1)
  }

  lemma AddTimerKeeps(s: State)
    requires Inv(s)
    requires Count(s.trace, Delivered(Claimable)) + |s.live| < Count(s.trace, Delivered(Waiting))
    ensures Inv(AddTimer(s))
  {
    assert s.nextTimer !in s.live;
    assert |s.live + {s.nextTimer}| == |s.live| + 1;
  }

  lemma DropContinuationKeeps(s: State)
    requires Inv(s) && s.continuations > 0
    ensures Inv(s.(continuations := s.continuations - 1))
  {
  }

  /** A 'waiting' delivered, and its timer set or its error handled. */
  lemma WaitKeeps(s: State, onWaiting: Reaction, onError: Reaction)
    requires Inv(s) && !s.cleaned
    requires Count(s.trace, Delivered(Waiting)) + s.continuations < Count(s.trace, Delivered(Proposed))
    ensures var s2 := Deliver(s, Waiting, onWaiting);
            Inv(s2) && Inv(HandleError(s2, onError)) && Inv(AddTimer(s2))
  {
    DeliverKeeps(s, Waiting, onWaiting);
    var s2 := Deliver(s, Waiting, onWaiting);
    HandleErrorKeeps(s2, onError);
    SubsetSize(s2.live, s.live);
    AddTimerKeeps(s2);
  }

  lemma ContinueKeeps(s: State, onWaiting: Reaction, onError: Reaction)
    requires Inv(s)
    ensures Inv(ContinueStep(s, onWaiting, onError))
  {
    if s.continuations > 0 && s.period != Unknown {
      var s1 := s.(continuations := s.continuations - 1);
      DropContinuationKeeps(s);
      if s.period == Unavailable {
        HandleErrorKeeps(s1, onError);
      } else if !s1.cleaned {
        WaitKeeps(s1, onWaiting, onError);
      }
    }
  }

  lemma FireTimerKeeps(s: State, timer: nat, r: Reaction)
    requires Inv(s)
    ensures Inv(FireTimer(s, timer, r))
  {
    if timer in s.live {
      var s1 := s.(live := s.live - {timer});
      assert |s1.live| == |s.live| - 1;
      assert Inv(s1);
      if !s1.cleaned {
        DeliverKeeps(s1, Claimable, r);
      }
    }
  }

  lemma FailureKeeps(s: State, r: Reaction)
    requires Inv(s)
    ensures Inv(HandleError(CleanUp(s), r))
  {
    CleanUpKeeps(s);
    HandleErrorKeeps(CleanUp(s), r);
  }

  /** The other fields do not matter. */
  lemma SameKeeps(s: State, s': State)
    requires Inv(s)
    requires s'.awaiting <= s.awaiting && s'.resolved == s.resolved && s'.subs == s.subs
    requires s'.cleaned == s.cleaned && s'.trace == s.trace
    requires s'.live == s.live && s'.nextTimer == s.nextTimer && s'.continuations == s.continuations
    ensures Inv(s')
  {
  }

  lemma RejectionKeeps(s: State, sub: nat, r: Reaction)
    requires Inv(s)
    ensures Inv(Step(s, SubscribeRejects(sub, r)))
  {
    if sub in s.awaiting {
      SameKeeps(s, s.(awaiting := s.awaiting - {sub}));
      HandleErrorKeeps(s.(awaiting := s.awaiting - {sub}), r);
    }
  }

  lemma PeriodRejectsKeeps(s: State, r: Reaction)
    requires Inv(s)
    ensures Inv(Step(s, PeriodRejects(r)))
  {
    SameKeeps(s, s.(period := Unavailable));
    FailureKeeps(s.(period := Unavailable), r);
  }

  lemma TimeoutKeeps(s: State, r: Reaction)
    requires Inv(s)
    ensures Inv(Step(s, TimeoutFires(r)))
  {
    SameKeeps(s, s.(timeoutLive := false));
    FailureKeeps(s.(timeoutLive := false), r);
  }

  lemma StepKeeps(s: State, a: Action)
    requires Inv(s)
    ensures Inv(Step(s, a))
  {
    match a
    case SubscribeResolves(sub) => ResolveKeeps(s, sub);
    case SubscribeRejects(sub, r) => RejectionKeeps(s, sub, r);
    case Tx(kind, events) => if FromChain(kind) { DeliverAllKeeps(s, kind, events); }
    case PeriodResolves => SameKeeps(s, s.(period := Known));
    case PeriodRejects(r) => PeriodRejectsKeeps(s, r);
    case Continue(w, r) => ContinueKeeps(s, w, r);
    case TimerFires(timer, r) => FireTimerKeeps(s, timer, r);
    case TimeoutFires(r) => TimeoutKeeps(s, r);
    case Unsubscribe => CleanUpKeeps(s);
  }

  lemma {:induction false} RunKeeps(s: State, actions: seq<Action>)
    requires Inv(s)
    ensures Inv(Run(s, actions))
  {
    if actions != [] {
      RunKeeps(s, actions[..|actions| - 1]);
      StepKeeps(Run(s, actions[..|actions| - 1]), actions[|actions| - 1]);
    }
  }

  lemma StartedInv(customOnError: bool, timeout: bool)
    ensures Inv(Started(customOnError, timeout))
  {
  }

  // ---------- the properties ----------

  /** In every run: each subscription made is ended exactly once when the watch has been cleaned up,
      whether it was made before or after, and never while the watch holds it. */
  lemma SubscriptionsEndOnce(customOnError: bool, timeout: bool, actions: seq<Action>, sub: nat)
    ensures var s := Run(Started(customOnError, timeout), actions);
            && (s.cleaned && sub in s.resolved ==> Count(s.trace, Unsubscribed(sub)) == 1)
            && (sub !in s.resolved ==> Count(s.trace, Unsubscribed(sub)) == 0)
            && (!s.cleaned && sub in s.subs ==> Count(s.trace, Unsubscribed(sub)) == 0)
  {
    StartedInv(customOnError, timeout);
    RunKeeps(Started(customOnError, timeout), actions);
  }

  /** In every run, at every moment: no more 'claimable' than 'waiting' and no more 'waiting' than
      'proposed' events have been delivered, and neither of the first two after clean-up. */
  lemma EventsAreOrdered(customOnError: bool, timeout: bool, actions: seq<Action>)
    ensures var trace := Run(Started(customOnError, timeout), actions).trace;
            PacedThroughout(trace) && QuietAfterCleanUp(trace)
  {
    StartedInv(customOnError, timeout);
    RunKeeps(Started(customOnError, timeout), actions);
  }

  // ---------- timers left running ----------

  /** Every live timer is tracked, until a clean-up ends all of them. */
  ghost predicate Tidy(s: State) {
    if s.cleaned then s.live == {} else s.live <= Elements(s.timers)
  }

  lemma CleanUpTidies(s: State)
    requires Tidy(s)
    ensures Tidy(CleanUp(s)) && CleanUp(s).cleaned
  {
  }

  lemma HandleErrorTidies(s: State, r: Reaction)
    requires Tidy(s)
    ensures Tidy(HandleError(s, r))
  {
    CleanUpTidies(s.(trace := s.trace + [ErrorReported]));
  }

  lemma {:induction false} DeliverAllTidies(s: State, kind: Kind, events: seq<TxEvent>)
    requires Tidy(s)
    ensures Tidy(DeliverAll(s, kind, events))
    decreases |events|
  {
    if events != [] {
      if !events[0].matches {
        DeliverAllTidies(s, kind, events[1..]);
      } else {
        CleanUpTidies(s.(trace := s.trace + [Delivered(kind)]));
        var s' := Deliver(s, kind, events[0].reaction);
        if !events[0].reaction.throws {
          DeliverAllTidies(if kind == Proposed then s'.(continuations := s'.continuations + 1) else s', kind, events[1..]);
        }
      }
    }
  }

  /** A continuation that runs, and whose callback unsubscribes and returns. */
  predicate Leaks(s: State, a: Action) {
    && a.Continue? && a.onWaiting.unsubscribes && !a.onWaiting.throws
    && !s.cleaned && s.continuations > 0 && s.period == Known
  }

  lemma LeakingStep(s: State, a: Action)
    requires Tidy(s) && Leaks(s, a)
    ensures Step(s, a).cleaned && Step(s, a).live == {s.nextTimer}
  {
    var s1 := s.(continuations := s.continuations - 1, trace := s.trace + [Delivered(Waiting)]);
    CleanUpTidies(s1);
    assert Deliver(s.(continuations := s.continuations - 1), Waiting, a.onWaiting) == CleanUp(s1);
  }

  lemma ContinueTidies(s: State, w: Reaction, r: Reaction)
    requires Tidy(s) && !Leaks(s, Continue(w, r))
    ensures Tidy(ContinueStep(s, w, r))
  {
    if s.continuations > 0 && s.period != Unknown {
      var s1 := s.(continuations := s.continuations - 1);
      HandleErrorTidies(s1, r);
      var s2 := s1.(trace := s1.trace + [Delivered(Waiting)]);
      CleanUpTidies(s2);
      HandleErrorTidies(React(s2, w), r);
      if !w.unsubscribes {
        assert Elements(s2.timers + [s2.nextTimer]) == Elements(s2.timers) + {s2.nextTimer};
      }
    }
  }

  lemma FireTidies(s: State, timer: nat, r: Reaction)
    requires Tidy(s)
    ensures Tidy(FireTimer(s, timer, r))
  {
    CleanUpTidies(s.(live := s.live - {timer}, trace := s.trace + [Delivered(Claimable)]));
  }

  /** Every other step leaves no timer untracked and none running after clean-up. */
  lemma StepTidies(s: State, a: Action)
    requires Tidy(s) && !Leaks(s, a)
    ensures Tidy(Step(s, a))
  {
    match a
    case SubscribeResolves(_) =>
    case SubscribeRejects(sub, r) => HandleErrorTidies(s.(awaiting := s.awaiting - {sub}), r);
    case Tx(kind, events) => DeliverAllTidies(s, kind, events);
    case PeriodResolves =>
    case PeriodRejects(r) =>
      CleanUpTidies(s.(period := Unavailable));
      HandleErrorTidies(CleanUp(s.(period := Unavailable)), r);
    case Continue(w, r) => ContinueTidies(s, w, r);
    case TimerFires(timer, r) => FireTidies(s, timer, r);
    case TimeoutFires(r) =>
      CleanUpTidies(s.(timeoutLive := false));
      HandleErrorTidies(CleanUp(s.(timeoutLive := false)), r);
    case Unsubscribe => CleanUpTidies(s);
  }

  lemma {:induction false} DeliverAllCleaned(s: State, kind: Kind, events: seq<TxEvent>)
    requires s.cleaned
    ensures var s' := DeliverAll(s, kind, events); s'.cleaned && s'.live == s.live
    decreases |events|
  {
    if events != [] {
      if !events[0].matches {
        DeliverAllCleaned(s, kind, events[1..]);
      } else {
        var s' := Deliver(s, kind, events[0].reaction);
        if !events[0].reaction.throws {
          DeliverAllCleaned(if kind == Proposed then s'.(continuations := s'.continuations + 1) else s', kind, events[1..]);
        }
      }
    }
  }

  /** After clean-up a timer only goes, by firing. */
  lemma CleanedStep(s: State, a: Action)
    requires s.cleaned
    ensures Step(s, a).cleaned
    ensures Step(s, a).live == if a.TimerFires? then s.live - {a.timer} else s.live
  {
    if a.Tx? {
      DeliverAllCleaned(s, a.kind, a.events);
    }
  }

  lemma {:induction false} CleanedStays(s: State, actions: seq<Action>, n: nat)
    requires n <= |actions| && Run(s, actions[..n]).cleaned
    ensures Run(s, actions).cleaned
    decreases |actions|
  {
    if n == |actions| {
      assert actions[..n] == actions;
    } else {
      var front := actions[..|actions| - 1];
      assert front[..n] == actions[..n];
      CleanedStays(s, front, n);
      CleanedStep(Run(s, front), actions[|actions| - 1]);
    }
  }

  /** Timer x was set by a callback that had just unsubscribed, and has not fired since. */
  ghost predicate LeftRunning(s: State, actions: seq<Action>, n: nat, x: nat)
    requires n < |actions|
  {
    && Leaks(Run(s, actions[..n]), actions[n]) && x == Run(s, actions[..n]).nextTimer
    && forall j :: n < j < |actions| && actions[j].TimerFires? ==> actions[j].timer != x
  }

  lemma {:induction false} RunTidies(s: State, actions: seq<Action>)
    requires Tidy(s)
    ensures Run(s, actions).cleaned || Tidy(Run(s, actions))
  {
    if actions != [] {
      var front, a := actions[..|actions| - 1], actions[|actions| - 1];
      RunTidies(s, front);
      if Run(s, front).cleaned {
        CleanedStep(Run(s, front), a);
      } else if Leaks(Run(s, front), a) {
        LeakingStep(Run(s, front), a);
      } else {
        StepTidies(Run(s, front), a);
      }
    }
  }

  /** Which timers one more step leaves running after clean-up. */
  lemma LeftRunningNext(s: State, front: seq<Action>, a: Action, n: nat, x: nat)
    requires n <= |front|
    ensures LeftRunning(s, front + [a], n, x) <==>
            if n == |front| then Leaks(Run(s, front), a) && x == Run(s, front).nextTimer
            else LeftRunning(s, front, n, x) && !(a.TimerFires? && a.timer == x)
  {
    var actions := front + [a];
    assert actions[..n] == front[..n] && (n == |front| ==> front[..n] == front);
    if n < |front| {
      assert actions[n] == front[n] && actions[|front|] == a;
      assert forall j :: n < j < |front| ==> actions[j] == front[j];
    }
  }

  /** No leak lies before a state that is not cleaned up. */
  lemma NoLeakBefore(s: State, actions: seq<Action>, n: nat)
    requires Tidy(s) && n < |actions| && !Run(s, actions).cleaned
    ensures !Leaks(Run(s, actions[..n]), actions[n])
  {
    if Leaks(Run(s, actions[..n]), actions[n]) {
      RunTidies(s, actions[..n]);
      LeakingStep(Run(s, actions[..n]), actions[n]);
      assert actions[..n + 1][..n] == actions[..n];
      CleanedStays(s, actions, n + 1);
      assert false;
    }
  }

  ghost predicate LeftBySome(s: State, actions: seq<Action>, x: nat) {
    exists n :: 0 <= n < |actions| && LeftRunning(s, actions, n, x)
  }

  lemma LeftBySomeNext(s: State, front: seq<Action>, a: Action, x: nat)
    ensures LeftBySome(s, front + [a], x) <==>
            || (Leaks(Run(s, front), a) && x == Run(s, front).nextTimer)
            || (LeftBySome(s, front, x) && !(a.TimerFires? && a.timer == x))
  {
    forall n | 0 <= n <= |front|
      ensures LeftRunning(s, front + [a], n, x) <==>
              if n == |front| then Leaks(Run(s, front), a) && x == Run(s, front).nextTimer
              else LeftRunning(s, front, n, x) && !(a.TimerFires? && a.timer == x)
    {
      LeftRunningNext(s, front, a, n, x);
    }
    if LeftBySome(s, front, x) {
      var n :| 0 <= n < |front| && LeftRunning(s, front, n, x);
      assert LeftRunning(s, front + [a], n, x) <==> !(a.TimerFires? && a.timer == x);
    }
    assert LeftRunning(s, front + [a], |front|, x) <==> Leaks(Run(s, front), a) && x == Run(s, front).nextTimer;
  }

  lemma LeftByNone(s: State, actions: seq<Action>, x: nat)
    requires Tidy(s) && !Run(s, actions).cleaned
    ensures !LeftBySome(s, actions, x)
  {
    if LeftBySome(s, actions, x) {
      var n :| 0 <= n < |actions| && LeftRunning(s, actions, n, x);
      NoLeakBefore(s, actions, n);
    }
  }

  lemma {:induction false} LiveExactly(s: State, actions: seq<Action>)
    requires Tidy(s) && !s.cleaned && Run(s, actions).cleaned
    ensures forall x :: x in Run(s, actions).live <==> LeftBySome(s, actions, x)
    ensures |Run(s, actions).live| <= 1
  {
    var front, a := actions[..|actions| - 1], actions[|actions| - 1];
    var before := Run(s, front);
    assert actions == front + [a];
    forall x ensures x in Run(s, actions).live <==> LeftBySome(s, actions, x) {
      LeftBySomeNext(s, front, a, x);
      if before.cleaned {
        LiveExactly(s, front);
        CleanedStep(before, a);
      } else {
        LeftByNone(s, front, x);
        CleaningStep(s, front, a);
      }
    }
    if before.cleaned {
      LiveExactly(s, front);
      CleanedStep(before, a);
      SubsetSize(Run(s, actions).live, before.live);
    } else {
      CleaningStep(s, front, a);
    }
  }

  /** What the step that cleans up leaves running. */
  lemma CleaningStep(s: State, front: seq<Action>, a: Action)
    requires Tidy(s) && !Run(s, front).cleaned && Step(Run(s, front), a).cleaned
    ensures var before := Run(s, front);
            Step(before, a).live == if Leaks(before, a) then {before.nextTimer} else {}
  {
    RunTidies(s, front);
    if Leaks(Run(s, front), a) {
      LeakingStep(Run(s, front), a);
    } else {
      StepTidies(Run(s, front), a);
    }
  }

  /** In every run, the timers alive after clean-up are exactly those set by a 'waiting' callback that
      had just unsubscribed and did not throw, and that have not fired since: one at most. */
  lemma TimersLeftExactly(customOnError: bool, timeout: bool, actions: seq<Action>)
    ensures var s0 := Started(customOnError, timeout);
            var s := Run(s0, actions);
            s.cleaned ==> |s.live| <= 1 && forall x :: x in s.live <==> LeftBySome(s0, actions, x)
  {
    if Run(Started(customOnError, timeout), actions).cleaned {
      LiveExactly(Started(customOnError, timeout), actions);
    }
  }

  /** A callback that unsubscribes on 'waiting' leaves its timer running; it delivers nothing. */
  lemma TimerOutlivesCleanUp()
    ensures var proposed := Tx(Proposed, [TxEvent(true, Reaction(false, false))]);
            var s := Run(Started(true, false), [PeriodResolves, proposed, Continue(Reaction(true, false), Reaction(false, false))]);
            s.cleaned && s.live == {0} && Delivered(Claimable) !in FireTimer(s, 0, Reaction(false, false)).trace
  {
    var quiet := Reaction(false, false);
    var event := [TxEvent(true, quiet)];
    var actions := [PeriodResolves, Tx(Proposed, event), Continue(Reaction(true, false), quiet)];
    var s0 := Started(true, false);
    var s1 := Step(s0, actions[0]);
    assert actions[..3] == actions && actions[..2][..1] == actions[..1] && actions[..1][..0] == [];
    assert Run(s0, actions[..1]) == s1;
    assert event[1..] == [];
    assert DeliverAll(s1, Proposed, event) == Deliver(s1, Proposed, quiet).(continuations := 1);
    assert Run(s0, actions[..2]) == Step(s1, actions[1]);
    assert Run(s0, actions) == Step(Run(s0, actions[..2]), actions[2]);
  }
}
