/** When the request cache answers, and what promises deliver, over every run. */
module CachedClientHits {
  import opened CachedClient
  import opened CachedClientProofs
  import opened Keys
  import opened OrderedMap

  // ---------- what is in a cache ----------

  /** The step at place n resolves a running fetch for t. */
  ghost predicate ResolvedAt(chain: Chain, actions: seq<Action>, n: int, t: Target) {
    && 0 <= n < |actions| && actions[n].SettleStep? && actions[n].ok
    && Resolves(Run(chain, actions[..n]), actions[n], t)
  }

  /** The step resolves a running fetch for t. */
  ghost predicate Resolves(s: State, a: Action, t: Target) {
    && a.SettleStep? && a.ok && a.id < |s.fetches|
    && s.fetches[a.id].phase.Fetching? && s.fetches[a.id].target == t
  }

  /** No step after place n clears the caches or evicts this key from its cache. */
  ghost predicate KeptSince(actions: seq<Action>, n: int, f: Family, key: string) {
    forall j :: 0 <= j && n < j < |actions| ==> actions[j] != ClearCache && actions[j] != Evict(f, key)
  }

  ghost predicate ResolvedAndKept(chain: Chain, actions: seq<Action>, t: Target) {
    exists n :: ResolvedAt(chain, actions, n, t) && KeptSince(actions, n, FamilyOf(t), CacheText(chain, t))
  }

  /** What a step does to one key of one cache. */
  lemma KeyStep(chain: Chain, s: State, a: Action, f: Family, key: string)
    ensures key in Step(chain, s, a).Cache(f) <==>
            || (exists u :: Resolves(s, a, u) && Answer(chain, u).Some? && FamilyOf(u) == f && CacheText(chain, u) == key)
            || (key in s.Cache(f) && a != ClearCache && a != Evict(f, key))
  {
    match a
    case Call(t, skipCache) => CallShape(chain, s, t, skipCache);
    case SettleStep(id, ok) =>
      if id < |s.fetches| && s.fetches[id].phase.Fetching? {
        SettleFills(chain, s, id, ok, f, key);
        assert ok ==> Resolves(s, a, s.fetches[id].target);
      }
    case FinishStep(_) =>
    case ClearCache =>
    case Evict(g, k) => EvictEmpties(s, g, k, f, key);
  }

  lemma EvictEmpties(s: State, g: Family, k: string, f: Family, key: string)
    ensures key in s.WithCache(g, s.Cache(g) - {k}).Cache(f) <==> key in s.Cache(f) && !(g == f && k == key)
  {
  }

  lemma SettleFills(chain: Chain, s: State, id: nat, ok: bool, f: Family, key: string)
    requires id < |s.fetches| && s.fetches[id].phase.Fetching?
    ensures var u := s.fetches[id].target;
            key in Settle(chain, s, id, ok).Cache(f) <==>
            (ok && Answer(chain, u).Some? && FamilyOf(u) == f && CacheText(chain, u) == key) || key in s.Cache(f)
  {
    var u := s.fetches[id].target;
    var result := if ok then Answer(chain, u) else None;
    StoreFills(s.(fetches := s.fetches[id := Fetch(u, Settled(result))]), FamilyOf(u), CacheText(chain, u), result, f, key);
  }

  lemma StoreFills(s: State, g: Family, k: string, result: Option<Response>, f: Family, key: string)
    ensures key in Store(s, g, k, result).Cache(f) <==> (result.Some? && g == f && k == key) || key in s.Cache(f)
  {
  }

  lemma ResolvedNext(chain: Chain, front: seq<Action>, a: Action, t: Target)
    ensures var actions := front + [a];
            ResolvedAndKept(chain, actions, t) <==>
            || Resolves(Run(chain, front), a, t)
            || (ResolvedAndKept(chain, front, t) && a != ClearCache && a != Evict(FamilyOf(t), CacheText(chain, t)))
  {
    var actions, f, key := front + [a], FamilyOf(t), CacheText(chain, t);
    assert actions[|front|] == a && actions[..|front|] == front;
    assert forall n :: 0 <= n < |front| ==> actions[n] == front[n] && actions[..n] == front[..n];
    if Resolves(Run(chain, front), a, t) {
      assert ResolvedAt(chain, actions, |front|, t) && KeptSince(actions, |front|, f, key);
    }
    if ResolvedAndKept(chain, front, t) && a != ClearCache && a != Evict(f, key) {
      var n :| ResolvedAt(chain, front, n, t) && KeptSince(front, n, f, key);
      assert ResolvedAt(chain, actions, n, t) && KeptSince(actions, n, f, key);
    }
    if ResolvedAndKept(chain, actions, t) && !Resolves(Run(chain, front), a, t) {
      var n :| ResolvedAt(chain, actions, n, t) && KeptSince(actions, n, f, key);
      assert n < |front|;
      assert actions[|front|] != ClearCache && actions[|front|] != Evict(f, key);
      assert ResolvedAt(chain, front, n, t) && KeptSince(front, n, f, key);
    }
  }

  /** Only a fetch for t itself can fill t's place. */
  lemma FilledByOwn(chain: Chain, requests: set<string>, front: seq<Action>, a: Action, t: Target)
    requires GoodHash(chain, requests) && CanonicalRun(chain, requests, front) && Canonical(chain, requests, t)
    ensures (exists u :: Resolves(Run(chain, front), a, u) && Answer(chain, u).Some? && FamilyOf(u) == FamilyOf(t) &&
                         CacheText(chain, u) == CacheText(chain, t)) <==>
            Resolves(Run(chain, front), a, t) && Answer(chain, t).Some?
  {
    RunKeepsValues(chain, requests, front);
    forall u | Resolves(Run(chain, front), a, u) && FamilyOf(u) == FamilyOf(t) && CacheText(chain, u) == CacheText(chain, t)
      ensures u == t
    {
      assert Readings(chain, requests).canonical(Run(chain, front).fetches[a.id].target);
      CacheTextUnique(chain, requests, u, t);
    }
  }

  /** t's place in its cache is filled, as the run says it should be. */
  ghost predicate FilledRight(chain: Chain, actions: seq<Action>, t: Target) {
    CacheText(chain, t) in Run(chain, actions).Cache(FamilyOf(t)) <==> Answer(chain, t).Some? && ResolvedAndKept(chain, actions, t)
  }

  lemma FilledNext(chain: Chain, requests: set<string>, front: seq<Action>, a: Action, t: Target)
    requires GoodHash(chain, requests) && CanonicalRun(chain, requests, front) && Canonical(chain, requests, t)
    requires FilledRight(chain, front, t)
    ensures FilledRight(chain, front + [a], t)
  {
    KeyStep(chain, Run(chain, front), a, FamilyOf(t), CacheText(chain, t));
    FilledByOwn(chain, requests, front, a, t);
    ResolvedNext(chain, front, a, t);
    RunNext(chain, front, a);
  }

  lemma FilledStart(chain: Chain, t: Target)
    ensures FilledRight(chain, [], t)
  {
  }

  lemma CanonicalFront(chain: Chain, requests: set<string>, front: seq<Action>, a: Action)
    requires CanonicalRun(chain, requests, front + [a])
    ensures CanonicalRun(chain, requests, front)
  {
    assert forall i :: 0 <= i < |front| ==> (front + [a])[i] == front[i];
  }

  /** What holds at the start and from one step to the next holds of every run. */
  lemma {:induction false} OverRuns(p: seq<Action> -> bool, actions: seq<Action>)
    requires p([]) && forall front, a :: p(front) ==> p(front + [a])
    ensures p(actions)
  {
    if actions != [] {
      var front, a := actions[..|actions| - 1], actions[|actions| - 1];
      OverRuns(p, front);
      assert actions == front + [a];
    }
  }

  lemma KeyExactly(chain: Chain, requests: set<string>, actions: seq<Action>, t: Target)
    requires GoodHash(chain, requests) && CanonicalRun(chain, requests, actions) && Canonical(chain, requests, t)
    ensures FilledRight(chain, actions, t)
  {
    var p := run => CanonicalRun(chain, requests, run) ==> FilledRight(chain, run, t);
    FilledStart(chain, t);
    forall front, a | p(front) ensures p(front + [a]) {
      if CanonicalRun(chain, requests, front + [a]) {
        CanonicalFront(chain, requests, front, a);
        FilledNext(chain, requests, front, a, t);
      }
    }
    OverRuns(p, actions);
  }

  /** In every run a call that may use the cache is answered from it exactly when a fetch for its own
      target has resolved, and since then neither were the caches cleared nor was its key evicted. It
      is then served the answer, and no fetch starts. */
  lemma CachedExactly(chain: Chain, requests: set<string>, actions: seq<Action>, t: Target)
    requires GoodHash(chain, requests) && CanonicalRun(chain, requests, actions) && Canonical(chain, requests, t)
    ensures var (s', r) := Request(chain, Run(chain, actions), t, false);
            && (r.Cached? <==> Answer(chain, t).Some? && ResolvedAndKept(chain, actions, t))
            && (r.Cached? ==> Some(r.value) == Answer(chain, t) && s' == Run(chain, actions))
  {
    KeyExactly(chain, requests, actions, t);
    CallReturnsOwn(chain, requests, actions, t, false);
  }

  /** A call told to skip the cache is never answered from it: it waits for a fetch, and starts one
      only if none is pending for its key. */
  lemma SkipCacheFetches(chain: Chain, s: State, t: Target)
    ensures var (s', r) := Request(chain, s, t, true);
            && !r.Cached?
            && (r.Started? <==> PendingText(chain, t) !in s.pending)
            && (r.Joined? ==> s' == s)
            && (r.Started? ==> s'.fetches == s.fetches + [Fetch(t, Fetching)] && r.id == |s.fetches|)
  {
  }

  // ---------- what a promise delivers ----------

  lemma StepDelivered(chain: Chain, s: State, a: Action, id: nat)
    requires id < |s.fetches| && !s.fetches[id].phase.Fetching?
    ensures var s' := Step(chain, s, a);
            && id < |s'.fetches| && !s'.fetches[id].phase.Fetching? && Delivered(s'.fetches[id]) == Delivered(s.fetches[id])
  {
    match a
    case Call(t, skipCache) => CallShape(chain, s, t, skipCache);
    case SettleStep(i, ok) => SettleShape(chain, s, i, ok);
    case FinishStep(i) => FinishShape(chain, s, i);
    case ClearCache =>
    case Evict(f, key) => EvictShape(s, f, key);
  }

  lemma {:induction false} DeliveredStays(chain: Chain, actions: seq<Action>, n: nat, id: nat)
    requires n <= |actions| && id < |Run(chain, actions[..n]).fetches| && !Run(chain, actions[..n]).fetches[id].phase.Fetching?
    ensures id < |Run(chain, actions).fetches|
    ensures Delivered(Run(chain, actions).fetches[id]) == Delivered(Run(chain, actions[..n]).fetches[id])
    ensures !Run(chain, actions).fetches[id].phase.Fetching?
    decreases |actions|
  {
    if n == |actions| {
      assert actions[..n] == actions;
    } else {
      var front := actions[..|actions| - 1];
      assert front[..n] == actions[..n];
      DeliveredStays(chain, front, n, id);
      StepDelivered(chain, Run(chain, front), actions[|actions| - 1], id);
    }
  }

  /** A fetch that resolves delivers the answer for its target to all who wait for it, then and ever
      after; one that fails delivers nothing. */
  lemma SettledDelivers(chain: Chain, actions: seq<Action>, n: nat, id: nat, ok: bool)
    requires n < |actions| && actions[n] == SettleStep(id, ok)
    requires id < |Run(chain, actions[..n]).fetches| && Run(chain, actions[..n]).fetches[id].phase.Fetching?
    ensures id < |Run(chain, actions).fetches|
    ensures Delivered(Run(chain, actions).fetches[id]) ==
            if ok then Answer(chain, Run(chain, actions[..n]).fetches[id].target) else None
  {
    var front := actions[..n];
    assert actions[..n + 1] == front + [actions[n]];
    RunNext(chain, front, actions[n]);
    SettleStores(chain, Run(chain, front), id, ok);
    DeliveredStays(chain, actions, n + 1, id);
  }

  /** A call that waits for a fetch is served, once that fetch has resolved, exactly the answer it
      waits for, wherever in the run the fetch resolves. */
  lemma ServedOnceResolved(chain: Chain, requests: set<string>, actions: seq<Action>, n: nat, m: nat)
    requires GoodHash(chain, requests) && CanonicalRun(chain, requests, actions)
    requires n < |actions| && actions[n].Call? && m < |actions| && actions[m].SettleStep? && actions[m].ok
    requires var r := Request(chain, Run(chain, actions[..n]), actions[n].t, actions[n].skipCache).1;
             !r.Cached? && r.id == actions[m].id
    requires var fetches := Run(chain, actions[..m]).fetches;
             actions[m].id < |fetches| && fetches[actions[m].id].phase.Fetching?
    ensures Served(chain, actions, n) == Answer(chain, Source(chain, actions, n))
  {
    var id := actions[m].id;
    SettledDelivers(chain, actions, m, id, true);
    TargetsStay(chain, actions, m, id);
    SourceIsTarget(chain, requests, actions, n);
  }

  /** What a call waits for is what its fetch was started for. */
  lemma SourceIsTarget(chain: Chain, requests: set<string>, actions: seq<Action>, n: nat)
    requires GoodHash(chain, requests) && CanonicalRun(chain, requests, actions)
    requires n < |actions| && actions[n].Call?
    ensures var r := Request(chain, Run(chain, actions[..n]), actions[n].t, actions[n].skipCache).1;
            !r.Cached? ==> r.id < |Run(chain, actions).fetches| && Run(chain, actions).fetches[r.id].target == Source(chain, actions, n)
  {
    var r := Request(chain, Run(chain, actions[..n]), actions[n].t, actions[n].skipCache).1;
    CallReturnsOwn(chain, requests, actions[..n], actions[n].t, actions[n].skipCache);
    if r.Started? {
      StartedInRun(chain, actions, n);
    }
    PromiseTargetIs(chain, actions, n, r);
  }

  lemma PromiseTargetIs(chain: Chain, actions: seq<Action>, n: nat, r: Outcome)
    requires n < |actions| && actions[n].Call?
    requires r.Started? || OwnOutcome(chain, actions[n].t, r, Run(chain, actions[..n]).fetches)
    requires r.Started? ==> OwnOutcome(chain, actions[n].t, r, Run(chain, actions[..n + 1]).fetches)
    ensures var crossed := IsCrossed(Run(chain, actions[..n]).fetches, r, actions[n].t);
            !r.Cached? ==>
              && r.id < |Run(chain, actions).fetches|
              && Run(chain, actions).fetches[r.id].target == if crossed then CrossOf(actions[n].t) else actions[n].t
  {
    if r.Joined? {
      TargetsStay(chain, actions, n, r.id);
    } else if r.Started? {
      TargetsStay(chain, actions, n + 1, r.id);
    }
  }

  // ---------- what finishing does ----------

  /** When a fetch finishes, no fetch is pending for its key, not even a newer one; other keys and the
      caches are as they were. */
  lemma FinishFrees(chain: Chain, s: State, id: nat)
    requires id < |s.fetches| && s.fetches[id].phase.Settled?
    ensures var s', pKey := Step(chain, s, FinishStep(id)), PendingText(chain, s.fetches[id].target);
            && pKey !in s'.pending
            && (forall k :: k != pKey ==> (k in s'.pending <==> k in s.pending) && (k in s.pending ==> s'.pending[k] == s.pending[k]))
            && (forall f :: s'.Cache(f) == s.Cache(f))
            && |s'.fetches| == |s.fetches| && s'.fetches[id].phase.Finished?
  {
  }

  /** After a clear, an older fetch that finishes makes the newer one for its key unreachable: the next
      call that cannot use the cache starts another, though the newer one is still running. */
  lemma LateFinishOrphans(chain: Chain, t: Target)
    ensures var s := Run(chain, [Call(t, true), ClearCache, Call(t, true), SettleStep(0, false), FinishStep(0)]);
            && |s.fetches| == 2 && s.fetches[1] == Fetch(t, Fetching)
            && Request(chain, s, t, true).1 == Started(2)
  {
    var a, b, c, d := [Call(t, true)], [Call(t, true), ClearCache], Burst(t, 1), Burst(t, 1) + [SettleStep(0, false)];
    assert Burst(t, 0) == a && a + [ClearCache] == b && b + [Call(t, true)] == c;
    BurstRun(chain, t, 1);
    var s := Run(chain, c);
    assert Grown(s, Fetch(t, Fetching), 1);
    RunNext(chain, c, SettleStep(0, false));
    RunNext(chain, d, FinishStep(0));
    SettleStores(chain, s, 0, false);
    var settled := Run(chain, d);
    assert settled.fetches == [Fetch(t, Settled(None)), Fetch(t, Fetching)];
    FinishFrees(chain, settled, 0);
    assert d + [FinishStep(0)] == [Call(t, true), ClearCache, Call(t, true), SettleStep(0, false), FinishStep(0)];
    SkipCacheFetches(chain, Run(chain, d + [FinishStep(0)]), t);
    FinishShape(chain, settled, 0);
  }

  // ---------- what an answer is ----------

  /** The answer served for a denom's contract is the chain's, with its address in normal form; there
      is none when the chain's address is not one. Every other answer is the chain's as it is. */
  lemma AnswerIs(chain: Chain, t: Target)
    ensures var raw, r := chain.answer(t), Answer(chain, t);
            if t.ContractOf? then
              && (r.Some? <==> NormalizeEvmAddress(raw.address).Some?)
              && (r.Some? ==>
                  && r.value.payload == raw.payload && IsEvmForm(r.value.address)
                  && HexValue(r.value.address[2..]) == HexValue(WithoutPrefix(raw.address)))
            else r == Some(raw)
  {
    if t.ContractOf? {
      if NormalizeEvmAddress(chain.answer(t).address).Some? {
        EvmAddressValue(chain.answer(t).address);
      }
    }
  }
}
