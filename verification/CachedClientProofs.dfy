/** What holds of the request cache over every run. */
module CachedClientProofs {
  import opened CachedClient
  import opened Collections
  import opened Decimal
  import opened Keys
  import opened OrderedMap

  // ---------- how many fetches one key can have ----------

  /** The fetches started under a pending key whose `.finally` has not run. */
  ghost function Outstanding(text: Target -> string, fetches: seq<Fetch>, key: string): set<nat> {
    set id: nat | id < |fetches| && !fetches[id].phase.Finished? && text(fetches[id].target) == key
  }

  /** Those of them a new caller cannot join. */
  ghost function Orphans(text: Target -> string, fetches: seq<Fetch>, pending: map<string, nat>, key: string): set<nat> {
    Outstanding(text, fetches, key) - (if key in pending then {pending[key]} else {})
  }

  /** A pending entry is an unfinished fetch for its own key, and only `clearCache` makes orphans. */
  ghost predicate PendingInv(text: Target -> string, s: State) {
    && (forall k :: k in s.pending ==> s.pending[k] in Outstanding(text, s.fetches, k))
    && (forall k :: |Orphans(text, s.fetches, s.pending, k)| <= s.clears)
  }

  lemma StartOutstanding(text: Target -> string, s: State, t: Target, s': State, k: string)
    requires s'.fetches == s.fetches + [Fetch(t, Fetching)]
    ensures Outstanding(text, s'.fetches, k) == Outstanding(text, s.fetches, k) + (if k == text(t) then {|s.fetches|} else {})
  {
    assert forall i: nat :: i < |s.fetches| ==> s'.fetches[i] == s.fetches[i];
  }

  lemma StartKeepsPending(text: Target -> string, s: State, t: Target, s': State)
    requires PendingInv(text, s) && text(t) !in s.pending
    requires s'.pending == s.pending[text(t) := |s.fetches|] && s'.fetches == s.fetches + [Fetch(t, Fetching)]
    requires s'.clears == s.clears
    ensures PendingInv(text, s')
  {
    forall k
      ensures k in s'.pending ==> s'.pending[k] in Outstanding(text, s'.fetches, k)
      ensures |Orphans(text, s'.fetches, s'.pending, k)| <= s'.clears
    {
      StartOutstanding(text, s, t, s', k);
      StartOrphans(text, s, t, s', k);
      assert |Orphans(text, s.fetches, s.pending, k)| <= s.clears;
    }
  }

  lemma StartOrphans(text: Target -> string, s: State, t: Target, s': State, k: string)
    requires text(t) !in s.pending && s'.pending == s.pending[text(t) := |s.fetches|]
    requires s'.fetches == s.fetches + [Fetch(t, Fetching)]
    ensures Orphans(text, s'.fetches, s'.pending, k) == Orphans(text, s.fetches, s.pending, k)
  {
    StartOutstanding(text, s, t, s', k);
    assert |s.fetches| !in Outstanding(text, s.fetches, k);
  }

  lemma SettleOutstanding(text: Target -> string, fetches: seq<Fetch>, id: nat, f: Fetch, k: string)
    requires id < |fetches| && !fetches[id].phase.Finished? && !f.phase.Finished? && f.target == fetches[id].target
    ensures Outstanding(text, fetches[id := f], k) == Outstanding(text, fetches, k)
  {
  }

  lemma SettleKeepsPending(text: Target -> string, s: State, id: nat, f: Fetch, s': State)
    requires PendingInv(text, s) && id < |s.fetches| && s.fetches[id].phase.Fetching?
    requires f.target == s.fetches[id].target && f.phase.Settled?
    requires s'.pending == s.pending && s'.clears == s.clears && s'.fetches == s.fetches[id := f]
    ensures PendingInv(text, s')
  {
    forall k
      ensures k in s'.pending ==> s'.pending[k] in Outstanding(text, s'.fetches, k)
      ensures |Orphans(text, s'.fetches, s'.pending, k)| <= s'.clears
    {
      SettleOutstanding(text, s.fetches, id, f, k);
      assert |Orphans(text, s.fetches, s.pending, k)| <= s.clears;
    }
  }

  lemma FinishOutstanding(text: Target -> string, s: State, id: nat, f: Fetch, s': State, k: string)
    requires id < |s.fetches| && f.target == s.fetches[id].target && f.phase.Finished?
    requires s'.fetches == s.fetches[id := f]
    ensures Outstanding(text, s'.fetches, k) == Outstanding(text, s.fetches, k) - {id}
  {
  }

  lemma FinishKeepsPending(text: Target -> string, s: State, id: nat, f: Fetch, s': State)
    requires PendingInv(text, s) && id < |s.fetches| && s.fetches[id].phase.Settled?
    requires f.target == s.fetches[id].target && f.phase.Finished?
    requires s'.pending == s.pending - {text(f.target)} && s'.clears == s.clears && s'.fetches == s.fetches[id := f]
    ensures PendingInv(text, s')
  {
    forall k
      ensures k in s'.pending ==> s'.pending[k] in Outstanding(text, s'.fetches, k)
      ensures |Orphans(text, s'.fetches, s'.pending, k)| <= s'.clears
    {
      FinishOutstanding(text, s, id, f, s', k);
      FinishOrphans(text, s, id, f, s', k);
      assert |Orphans(text, s.fetches, s.pending, k)| <= s.clears;
      if k in s'.pending {
        assert s.pending[k] in Outstanding(text, s.fetches, k) && s.pending[k] != id;
      }
    }
  }

  /** When a newer entry loses its place, the older fetch leaves: the orphans do not grow in number. */
  lemma FinishOrphans(text: Target -> string, s: State, id: nat, f: Fetch, s': State, k: string)
    requires id < |s.fetches| && s.fetches[id].phase.Settled?
    requires k in s.pending ==> s.pending[k] in Outstanding(text, s.fetches, k)
    requires f.target == s.fetches[id].target && f.phase.Finished?
    requires s'.pending == s.pending - {text(f.target)} && s'.fetches == s.fetches[id := f]
    ensures |Orphans(text, s'.fetches, s'.pending, k)| <= |Orphans(text, s.fetches, s.pending, k)|
  {
    var out := Outstanding(text, s.fetches, k);
    var before, after := Orphans(text, s.fetches, s.pending, k), Orphans(text, s'.fetches, s'.pending, k);
    FinishOutstanding(text, s, id, f, s', k);
    if k == text(f.target) && k in s.pending && s.pending[k] != id {
      assert after == out - {id} && before == out - {s.pending[k]};
      OneLess(out, id, s.pending[k]);
    } else {
      SubsetSize(after, before);
    }
  }

  lemma OneLess(out: set<nat>, x: nat, y: nat)
    requires x in out
    ensures |out - {x}| <= |out - {y}|
  {
    if y in out {
      assert |out - {y}| == |out| - 1;
    } else {
      assert out - {y} == out;
    }
  }

  lemma ClearKeepsPending(text: Target -> string, s: State)
    requires PendingInv(text, s)
    ensures PendingInv(text, Clear(s))
  {
    var s' := Clear(s);
    forall k ensures |Orphans(text, s'.fetches, s'.pending, k)| <= s'.clears {
      var left := if k in s.pending then {s.pending[k]} else {};
      SubsetSize(Orphans(text, s'.fetches, s'.pending, k), Orphans(text, s.fetches, s.pending, k) + left);
    }
  }

  lemma EvictKeepsPending(text: Target -> string, s: State, f: Family, key: string)
    requires PendingInv(text, s)
    ensures PendingInv(text, s.WithCache(f, s.Cache(f) - {key}))
  {
    var s' := s.WithCache(f, s.Cache(f) - {key});
    assert s'.pending == s.pending && s'.fetches == s.fetches && s'.clears == s.clears;
  }

  lemma InitialPending(text: Target -> string)
    ensures PendingInv(text, INITIAL)
  {
    forall k ensures Orphans(text, INITIAL.fetches, INITIAL.pending, k) == {} {
    }
  }

  ghost function PendingTexts(chain: Chain): Target -> string {
    t => PendingText(chain, t)
  }

  lemma CallShape(chain: Chain, s: State, t: Target, skipCache: bool)
    ensures var s' := Request(chain, s, t, skipCache).0;
            || s' == s
            || (&& PendingText(chain, t) !in s.pending
                && s' == s.(pending := s.pending[PendingText(chain, t) := |s.fetches|],
                            fetches := s.fetches + [Fetch(t, Fetching)]))
  {
  }

  lemma SettleShape(chain: Chain, s: State, id: nat, ok: bool)
    ensures var s' := Settle(chain, s, id, ok);
            || s' == s
            || (&& id < |s.fetches| && s.fetches[id].phase.Fetching?
                && s'.pending == s.pending && s'.clears == s.clears
                && exists result ::
                     && (result == None || result == Answer(chain, s.fetches[id].target))
                     && s'.fetches == s.fetches[id := Fetch(s.fetches[id].target, Settled(result))])
  {
    if id < |s.fetches| && s.fetches[id].phase.Fetching? {
      var t := s.fetches[id].target;
      var result := if ok then Answer(chain, t) else None;
      StoreShape(s.(fetches := s.fetches[id := Fetch(t, Settled(result))]), FamilyOf(t), CacheText(chain, t), result);
    }
  }

  lemma FinishShape(chain: Chain, s: State, id: nat)
    ensures var s' := Finish(chain, s, id);
            || s' == s
            || (&& id < |s.fetches| && s.fetches[id].phase.Settled?
                && s'.pending == s.pending - {PendingText(chain, s.fetches[id].target)} && s'.clears == s.clears
                && s'.fetches == s.fetches[id := Fetch(s.fetches[id].target, Finished(s.fetches[id].phase.result))])
  {
  }

  lemma CallKeepsPending(chain: Chain, s: State, t: Target, skipCache: bool)
    requires PendingInv(PendingTexts(chain), s)
    ensures PendingInv(PendingTexts(chain), Request(chain, s, t, skipCache).0)
  {
    var s' := Request(chain, s, t, skipCache).0;
    CallShape(chain, s, t, skipCache);
    if s' != s { StartKeepsPending(PendingTexts(chain), s, t, s'); }
  }

  lemma SettlingKeepsPending(chain: Chain, s: State, id: nat, ok: bool)
    requires PendingInv(PendingTexts(chain), s)
    ensures PendingInv(PendingTexts(chain), Settle(chain, s, id, ok))
  {
    var s' := Settle(chain, s, id, ok);
    SettleShape(chain, s, id, ok);
    if s' != s { SettleKeepsPending(PendingTexts(chain), s, id, s'.fetches[id], s'); }
  }

  lemma FinishingKeepsPending(chain: Chain, s: State, id: nat)
    requires PendingInv(PendingTexts(chain), s)
    ensures PendingInv(PendingTexts(chain), Finish(chain, s, id))
  {
    var s' := Finish(chain, s, id);
    FinishShape(chain, s, id);
    if s' != s { FinishKeepsPending(PendingTexts(chain), s, id, s'.fetches[id], s'); }
  }

  lemma StepKeepsPending(chain: Chain, s: State, a: Action)
    requires PendingInv(PendingTexts(chain), s)
    ensures PendingInv(PendingTexts(chain), Step(chain, s, a))
  {
    match a
    case Call(t, skipCache) => CallKeepsPending(chain, s, t, skipCache);
    case SettleStep(id, ok) => SettlingKeepsPending(chain, s, id, ok);
    case FinishStep(id) => FinishingKeepsPending(chain, s, id);
    case ClearCache => ClearKeepsPending(PendingTexts(chain), s);
    case Evict(f, key) => EvictKeepsPending(PendingTexts(chain), s, f, key);
  }

  lemma {:induction false} RunKeepsPending(chain: Chain, actions: seq<Action>)
    ensures PendingInv(PendingTexts(chain), Run(chain, actions))
  {
    if actions == [] {
      InitialPending(PendingTexts(chain));
    } else {
      RunKeepsPending(chain, actions[..|actions| - 1]);
      StepKeepsPending(chain, Run(chain, actions[..|actions| - 1]), actions[|actions| - 1]);
    }
  }

  /** After any run, one pending key has at most one fetch more outstanding than `clearCache` was
      called times: exactly one at most when it never was. */
  lemma OutstandingBound(chain: Chain, actions: seq<Action>, key: string)
    ensures |Outstanding(PendingTexts(chain), Run(chain, actions).fetches, key)| <= 1 + Run(chain, actions).clears
  {
    var s := Run(chain, actions);
    RunKeepsPending(chain, actions);
    if key in s.pending {
      assert Outstanding(PendingTexts(chain), s.fetches, key) == Orphans(PendingTexts(chain), s.fetches, s.pending, key) + {s.pending[key]};
    } else {
      assert Outstanding(PendingTexts(chain), s.fetches, key) == Orphans(PendingTexts(chain), s.fetches, s.pending, key);
    }
  }

  /** Once every fetch has finished, nothing is left pending: a failed fetch blocks no later one. */
  lemma QuiescentNothingPending(chain: Chain, actions: seq<Action>)
    requires forall i :: 0 <= i < |Run(chain, actions).fetches| ==> Run(chain, actions).fetches[i].phase.Finished?
    ensures Run(chain, actions).pending == map[]
  {
    var s := Run(chain, actions);
    RunKeepsPending(chain, actions);
    forall k ensures k !in s.pending {
      assert Outstanding(PendingTexts(chain), s.fetches, k) == {};
    }
  }

  /** Call and clear, n times, and call once more. */
  ghost function Burst(t: Target, n: nat): seq<Action> {
    if n == 0 then [Call(t, true)] else Burst(t, n - 1) + [ClearCache] + [Call(t, true)]
  }

  lemma RunNext(chain: Chain, actions: seq<Action>, a: Action)
    ensures Run(chain, actions + [a]) == Step(chain, Run(chain, actions), a)
  {
    assert (actions + [a])[..|actions|] == actions;
  }

  lemma CallAfterClear(chain: Chain, s: State, t: Target)
    ensures var s' := Request(chain, Clear(s), t, true).0;
            s'.clears == s.clears + 1 && s'.fetches == s.fetches + [Fetch(t, Fetching)]
  {
  }

  /** The state after a burst. */
  ghost function AfterBurst(chain: Chain, t: Target, n: nat): State {
    Request(chain, if n == 0 then INITIAL else Clear(AfterBurst(chain, t, n - 1)), t, true).0
  }

  lemma {:induction false} BurstRuns(chain: Chain, t: Target, n: nat)
    ensures Run(chain, Burst(t, n)) == AfterBurst(chain, t, n)
  {
    if n == 0 {
      BurstStart(chain, t);
    } else {
      var front := Burst(t, n - 1);
      BurstRuns(chain, t, n - 1);
      ClearAndCall(chain, front, t);
      assert Burst(t, n) == front + [ClearCache] + [Call(t, true)];
    }
  }

  lemma BurstStart(chain: Chain, t: Target)
    ensures Run(chain, Burst(t, 0)) == AfterBurst(chain, t, 0)
  {
    assert [] + [Call(t, true)] == Burst(t, 0);
    RunNext(chain, [], Call(t, true));
  }

  lemma ClearAndCall(chain: Chain, front: seq<Action>, t: Target)
    ensures Run(chain, front + [ClearCache] + [Call(t, true)]) == Request(chain, Clear(Run(chain, front)), t, true).0
  {
    RunNext(chain, front, ClearCache);
    RunNext(chain, front + [ClearCache], Call(t, true));
  }

  /** n clears, and n + 1 fetches alike. */
  ghost predicate Grown(s: State, f: Fetch, n: nat) {
    s.clears == n && |s.fetches| == n + 1 && forall i :: 0 <= i <= n ==> s.fetches[i] == f
  }

  lemma GrownNext(s: State, s': State, f: Fetch, n: nat)
    requires Grown(s, f, n) && s'.clears == s.clears + 1 && s'.fetches == s.fetches + [f]
    ensures Grown(s', f, n + 1)
  {
  }

  lemma {:induction false} BurstGrows(chain: Chain, t: Target, n: nat)
    ensures Grown(AfterBurst(chain, t, n), Fetch(t, Fetching), n)
  {
    if n > 0 {
      var s := AfterBurst(chain, t, n - 1);
      BurstGrows(chain, t, n - 1);
      CallAfterClear(chain, s, t);
      GrownNext(s, AfterBurst(chain, t, n), Fetch(t, Fetching), n - 1);
    }
  }

  lemma BurstRun(chain: Chain, t: Target, n: nat)
    ensures Grown(Run(chain, Burst(t, n)), Fetch(t, Fetching), n)
  {
    BurstRuns(chain, t, n);
    BurstGrows(chain, t, n);
  }

  /** The bound is reached: with n clears, n + 1 fetches for one key can be outstanding at once. */
  lemma OutstandingBoundReached(chain: Chain, t: Target, n: nat)
    ensures var s := Run(chain, Burst(t, n));
            s.clears == n && |Outstanding(PendingTexts(chain), s.fetches, PendingText(chain, t))| == n + 1
  {
    BurstRun(chain, t, n);
    var s := Run(chain, Burst(t, n));
    assert Outstanding(PendingTexts(chain), s.fetches, PendingText(chain, t)) == UpTo(n + 1);
  }

  ghost function UpTo(n: nat): (r: set<nat>)
    ensures |r| == n && forall i: nat :: i in r <==> i < n
  {
    if n == 0 then {} else UpTo(n - 1) + {n - 1}
  }

  // ---------- keys stand for targets ----------

  /** The hash of each of these request texts has no colon, and no two of them share one. */
  ghost predicate GoodHash(chain: Chain, requests: set<string>) {
    && (forall r :: r in requests ==> ':' !in chain.hash(r))
    && (forall r, q :: r in requests && q in requests && chain.hash(r) == chain.hash(q) ==> r == q)
  }

  /** A target a call can produce: normalised addresses, service and method names that are
      identifiers, and one of these requests. */
  ghost predicate Canonical(chain: Chain, requests: set<string>, t: Target) {
    match t
    case MoveModule(addr, m) => chain.chainId != "" && NormalizeMoveAddress(addr) == Some(addr)
    case ContractOf(denom) => chain.chainId != ""
    case DenomOf(addr) => chain.chainId != "" && IsEvmForm(addr)
    case AtHeight(s, m, r, _) => '.' !in s && ':' !in m && r in requests
  }

  lemma MoveTextUnique(chain: Chain, requests: set<string>, t: Target, u: Target)
    requires t.MoveModule? && u.MoveModule? && Canonical(chain, requests, t) && Canonical(chain, requests, u)
    requires CacheText(chain, t) == CacheText(chain, u)
    ensures t == u
  {
    MoveAddressForm(t.addr);
    MoveAddressForm(u.addr);
    CancelFront(chain.chainId, ":move:" + (t.addr + ([':'] + t.moduleName)), ":move:" + (u.addr + ([':'] + u.moduleName)));
    CancelFront(":move:", t.addr + ([':'] + t.moduleName), u.addr + ([':'] + u.moduleName));
    Cancel(t.addr, [':'] + t.moduleName, u.addr, [':'] + u.moduleName);
    CancelFront([':'], t.moduleName, u.moduleName);
  }

  lemma HeightTextUnique(chain: Chain, requests: set<string>, t: Target, u: Target)
    requires GoodHash(chain, requests)
    requires t.AtHeight? && u.AtHeight? && Canonical(chain, requests, t) && Canonical(chain, requests, u)
    requires CacheText(chain, t) == CacheText(chain, u)
    ensures t == u
  {
    HeightKeyInjective(chain.chainId, t.service, t.methodName, chain.hash(t.request), t.height,
                       u.service, u.methodName, chain.hash(u.request), u.height);
  }

  /** Within one cache, a key stands for one target. */
  lemma CacheTextUnique(chain: Chain, requests: set<string>, t: Target, u: Target)
    requires GoodHash(chain, requests) && Canonical(chain, requests, t) && Canonical(chain, requests, u)
    requires FamilyOf(t) == FamilyOf(u) && CacheText(chain, t) == CacheText(chain, u)
    ensures t == u
  {
    match t
    case MoveModule(_, _) => MoveTextUnique(chain, requests, t, u);
    case ContractOf(denom) =>
      CancelFront(chain.chainId, ":d2c:" + denom, ":d2c:" + u.denom);
      CancelFront(":d2c:", denom, u.denom);
    case DenomOf(addr) =>
      CancelFront(chain.chainId, ":c2d:" + addr, ":c2d:" + u.addr);
      CancelFront(":c2d:", addr, u.addr);
    case AtHeight(_, _, _, _) => HeightTextUnique(chain, requests, t, u);
  }

  /** The two directions of the EVM mapping share one prefix, so they meet on a denom that is itself
      a normalised contract address. */
  predicate Crossed(t: Target, u: Target) {
    (t.ContractOf? && u.DenomOf? && t.denom == u.addr) || (t.DenomOf? && u.ContractOf? && t.addr == u.denom)
  }

  lemma DenomTextUnique(chainId: string, a: string, b: string)
    ensures chainId + (":denom:" + a) == chainId + (":denom:" + b) <==> a == b
  {
    if chainId + (":denom:" + a) == chainId + (":denom:" + b) {
      CancelFront(chainId, ":denom:" + a, ":denom:" + b);
      CancelFront(":denom:", a, b);
    }
  }

  lemma MoveApartFromDenom(chainId: string, a: string, b: string)
    ensures chainId + (":move:" + a) != chainId + (":denom:" + b)
  {
    var n := |chainId|;
    assert (chainId + (":move:" + a))[n + 1] == 'm' && (chainId + (":denom:" + b))[n + 1] == 'd';
  }

  lemma HeightApart(chain: Chain, t: Target, u: Target)
    requires t.AtHeight? && !u.AtHeight? && chain.chainId != ""
    ensures PendingText(chain, t) != PendingText(chain, u)
  {
    var rest := t.service + (['.'] + (t.methodName + ([':'] + (chain.hash(t.request) + (":h" + IntText(t.height))))));
    assert PendingText(chain, t) == "h:" + (chain.chainId + ([':'] + rest));
    match u
    case MoveModule(addr, m) => HeightApartFromMove(chain.chainId, rest, addr + ([':'] + m));
    case ContractOf(denom) => HeightApartFromDenom(chain.chainId, rest, denom);
    case DenomOf(addr) => HeightApartFromDenom(chain.chainId, rest, addr);
  }

  lemma HeightApartFromMove(chainId: string, rest: string, tail: string)
    requires chainId != ""
    ensures "h:" + (chainId + ([':'] + rest)) != chainId + (":move:" + tail)
  {
    assert ":move:" + tail == [':', 'm'] + ("ove:" + tail);
    HeightFamilyApart(chainId, rest, "ove:" + tail, 'm');
  }

  lemma HeightApartFromDenom(chainId: string, rest: string, tail: string)
    requires chainId != ""
    ensures "h:" + (chainId + ([':'] + rest)) != chainId + (":denom:" + tail)
  {
    assert ":denom:" + tail == [':', 'd'] + ("enom:" + tail);
    HeightFamilyApart(chainId, rest, "enom:" + tail, 'd');
  }

  /** Two targets share a pending key exactly when they are the same target or crossed, for every
      chain id: the `h:` family never meets the chain-prefixed ones. */
  lemma PendingTextUnique(chain: Chain, requests: set<string>, t: Target, u: Target)
    requires GoodHash(chain, requests) && Canonical(chain, requests, t) && Canonical(chain, requests, u)
    ensures PendingText(chain, t) == PendingText(chain, u) <==> t == u || Crossed(t, u)
  {
    if t.AtHeight? && u.AtHeight? {
      if PendingText(chain, t) == PendingText(chain, u) {
        CancelFront("h:", CacheText(chain, t), CacheText(chain, u));
        HeightTextUnique(chain, requests, t, u);
      }
    } else if t.AtHeight? {
      HeightApart(chain, t, u);
    } else if u.AtHeight? {
      HeightApart(chain, u, t);
    } else if t.MoveModule? && u.MoveModule? {
      if PendingText(chain, t) == PendingText(chain, u) {
        MoveTextUnique(chain, requests, t, u);
      }
    } else if t.MoveModule? {
      MoveApartFromDenom(chain.chainId, t.addr + ([':'] + t.moduleName), if u.ContractOf? then u.denom else u.addr);
    } else if u.MoveModule? {
      MoveApartFromDenom(chain.chainId, u.addr + ([':'] + u.moduleName), if t.ContractOf? then t.denom else t.addr);
    } else {
      DenomTextUnique(chain.chainId, if t.ContractOf? then t.denom else t.addr, if u.ContractOf? then u.denom else u.addr);
    }
  }

  // ---------- what is served ----------

  ghost predicate CanonicalRun(chain: Chain, requests: set<string>, actions: seq<Action>) {
    forall i :: 0 <= i < |actions| && actions[i].Call? ==> Canonical(chain, requests, actions[i].t)
  }

  /** What a promise delivered, if it resolved. */
  function Delivered(f: Fetch): Option<Response> {
    match f.phase
    case Fetching => None
    case Settled(r) => r
    case Finished(r) => r
  }

  /** How targets are read: which are canonical, their cache keys and their answers. */
  datatype Reading = Reading(canonical: Target -> bool, text: Target -> string, answer: Target -> Option<Response>)

  /** Every cached value is the answer for whichever target its key stands for, and every settled
      fetch delivered the answer for its own target or nothing. */
  ghost predicate ValuesInv(r: Reading, s: State) {
    && (forall i :: 0 <= i < |s.fetches| ==> r.canonical(s.fetches[i].target))
    && (forall i :: 0 <= i < |s.fetches| ==>
          Delivered(s.fetches[i]) == None || Delivered(s.fetches[i]) == r.answer(s.fetches[i].target))
    && (forall t :: r.canonical(t) && r.text(t) in s.Cache(FamilyOf(t)) ==>
          Some(s.Cache(FamilyOf(t))[r.text(t)]) == r.answer(t))
  }

  lemma SettleKeepsValues(r: Reading, s: State, id: nat, f: Fetch, s': State)
    requires ValuesInv(r, s) && id < |s.fetches| && f.target == s.fetches[id].target
    requires f.phase == Settled(None) || f.phase == Settled(r.answer(f.target))
    requires s'.fetches == s.fetches[id := f]
    requires forall g :: s'.Cache(g) == s.Cache(g) ||
                         (g == FamilyOf(f.target) && f.phase.result.Some? &&
                          s'.Cache(g) == s.Cache(g)[r.text(f.target) := f.phase.result.value])
    requires forall t :: r.canonical(t) && FamilyOf(t) == FamilyOf(f.target) && r.text(t) == r.text(f.target) ==> t == f.target
    ensures ValuesInv(r, s')
  {
  }

  ghost function Readings(chain: Chain, requests: set<string>): Reading {
    Reading(t => Canonical(chain, requests, t), t => CacheText(chain, t), t => Answer(chain, t))
  }

  /** Caches that only lose entries, and fetches that keep their targets and what they delivered,
      but for new ones. */
  lemma OthersKeepValues(r: Reading, s: State, s': State)
    requires ValuesInv(r, s)
    requires forall g, k :: k in s'.Cache(g) ==> k in s.Cache(g) && s'.Cache(g)[k] == s.Cache(g)[k]
    requires |s.fetches| <= |s'.fetches|
    requires forall i :: 0 <= i < |s.fetches| ==>
      s'.fetches[i].target == s.fetches[i].target && Delivered(s'.fetches[i]) == Delivered(s.fetches[i])
    requires forall i :: |s.fetches| <= i < |s'.fetches| ==> r.canonical(s'.fetches[i].target) && Delivered(s'.fetches[i]) == None
    ensures ValuesInv(r, s')
  {
  }

  /** The reading agrees with the machine on t, and t's key is no other target's. */
  ghost predicate Reads(r: Reading, chain: Chain, t: Target) {
    && r.canonical(t) && r.text(t) == CacheText(chain, t) && r.answer(t) == Answer(chain, t)
    && forall u :: r.canonical(u) && FamilyOf(u) == FamilyOf(t) && r.text(u) == r.text(t) ==> u == t
  }

  lemma SettleStepKeepsValues(r: Reading, chain: Chain, s: State, id: nat, ok: bool)
    requires ValuesInv(r, s) && id < |s.fetches| && s.fetches[id].phase.Fetching?
    requires Reads(r, chain, s.fetches[id].target)
    ensures ValuesInv(r, Settle(chain, s, id, ok))
  {
    SettleStores(chain, s, id, ok);
    var result := if ok then Answer(chain, s.fetches[id].target) else None;
    SettleKeepsValues(r, s, id, Fetch(s.fetches[id].target, Settled(result)), Settle(chain, s, id, ok));
  }

  lemma SettleStores(chain: Chain, s: State, id: nat, ok: bool)
    requires id < |s.fetches| && s.fetches[id].phase.Fetching?
    ensures var t, s' := s.fetches[id].target, Settle(chain, s, id, ok);
            var result := if ok then Answer(chain, t) else None;
            && s'.fetches == s.fetches[id := Fetch(t, Settled(result))]
            && forall g :: s'.Cache(g) == s.Cache(g) ||
                           (g == FamilyOf(t) && result.Some? && s'.Cache(g) == s.Cache(g)[CacheText(chain, t) := result.value])
  {
    var t := s.fetches[id].target;
    var result := if ok then Answer(chain, t) else None;
    StoreShape(s.(fetches := s.fetches[id := Fetch(t, Settled(result))]), FamilyOf(t), CacheText(chain, t), result);
  }

  lemma StoreShape(s: State, f: Family, key: string, result: Option<Response>)
    ensures var s' := Store(s, f, key, result);
            && s'.fetches == s.fetches && s'.pending == s.pending && s'.clears == s.clears
            && forall g :: s'.Cache(g) == s.Cache(g) ||
                           (g == f && result.Some? && s'.Cache(g) == s.Cache(g)[key := result.value])
  {
  }

  lemma EvictShape(s: State, f: Family, key: string)
    ensures var s' := s.WithCache(f, s.Cache(f) - {key});
            && s'.fetches == s.fetches
            && forall g, k :: k in s'.Cache(g) ==> k in s.Cache(g) && s'.Cache(g)[k] == s.Cache(g)[k]
  {
  }

  lemma CallKeepsValues(r: Reading, chain: Chain, s: State, t: Target, skipCache: bool)
    requires ValuesInv(r, s) && r.canonical(t)
    ensures ValuesInv(r, Request(chain, s, t, skipCache).0)
  {
    CallShape(chain, s, t, skipCache);
    OthersKeepValues(r, s, Request(chain, s, t, skipCache).0);
  }

  lemma StepKeepsValues(r: Reading, chain: Chain, s: State, a: Action)
    requires ValuesInv(r, s)
    requires a.Call? ==> r.canonical(a.t)
    requires a.SettleStep? && a.id < |s.fetches| ==> Reads(r, chain, s.fetches[a.id].target)
    ensures ValuesInv(r, Step(chain, s, a))
  {
    var s' := Step(chain, s, a);
    match a
    case SettleStep(id, ok) =>
      if id < |s.fetches| && s.fetches[id].phase.Fetching? { SettleStepKeepsValues(r, chain, s, id, ok); }
    case Call(t, skipCache) => CallKeepsValues(r, chain, s, t, skipCache);
    case FinishStep(_) => OthersKeepValues(r, s, s');
    case ClearCache => OthersKeepValues(r, s, s');
    case Evict(f, key) =>
      EvictShape(s, f, key);
      OthersKeepValues(r, s, s');
  }

  lemma CanonicalReads(chain: Chain, requests: set<string>, t: Target)
    requires GoodHash(chain, requests) && Canonical(chain, requests, t)
    ensures Reads(Readings(chain, requests), chain, t)
  {
    var r := Readings(chain, requests);
    forall u | r.canonical(u) && FamilyOf(u) == FamilyOf(t) && r.text(u) == r.text(t) ensures u == t {
      CacheTextUnique(chain, requests, u, t);
    }
  }

  lemma {:induction false} RunKeepsValues(chain: Chain, requests: set<string>, actions: seq<Action>)
    requires GoodHash(chain, requests) && CanonicalRun(chain, requests, actions)
    ensures ValuesInv(Readings(chain, requests), Run(chain, actions))
  {
    if actions != [] {
      var s, a := Run(chain, actions[..|actions| - 1]), actions[|actions| - 1];
      RunKeepsValues(chain, requests, actions[..|actions| - 1]);
      if a.SettleStep? && a.id < |s.fetches| {
        assert Readings(chain, requests).canonical(s.fetches[a.id].target);
        CanonicalReads(chain, requests, s.fetches[a.id].target);
      }
      StepKeepsValues(Readings(chain, requests), chain, s, a);
    }
  }

  /** A step keeps the targets of the fetches there are; only a call adds one, for its own target. */
  lemma StepTargets(chain: Chain, s: State, a: Action)
    ensures var s' := Step(chain, s, a);
            && |s.fetches| <= |s'.fetches|
            && (forall i :: 0 <= i < |s.fetches| ==> s'.fetches[i].target == s.fetches[i].target)
            && (forall i :: |s.fetches| <= i < |s'.fetches| ==> a.Call? && s'.fetches[i].target == a.t)
  {
    match a
    case Call(t, skipCache) => CallShape(chain, s, t, skipCache);
    case SettleStep(id, ok) => SettleShape(chain, s, id, ok);
    case FinishStep(_) =>
    case ClearCache =>
    case Evict(f, key) => EvictShape(s, f, key);
  }

  /** A fetch keeps its target to the end of the run. */
  lemma {:induction false} TargetsStay(chain: Chain, actions: seq<Action>, n: nat, id: nat)
    requires n <= |actions| && id < |Run(chain, actions[..n]).fetches|
    ensures id < |Run(chain, actions).fetches|
    ensures Run(chain, actions).fetches[id].target == Run(chain, actions[..n]).fetches[id].target
    decreases |actions|
  {
    if n == |actions| {
      assert actions[..n] == actions;
    } else {
      var front, a := actions[..|actions| - 1], actions[|actions| - 1];
      assert front[..n] == actions[..n];
      TargetsStay(chain, front, n, id);
      StepTargets(chain, Run(chain, front), a);
    }
  }

  /** A cached value is the answer for the caller's own target, and a promise is one for its own
      target or, for the EVM mapping, may be joined for the crossed one. */
  ghost predicate OwnOutcome(chain: Chain, t: Target, r: Outcome, fetches: seq<Fetch>) {
    match r
    case Cached(v) => Some(v) == Answer(chain, t)
    case Joined(id) => id < |fetches| && (fetches[id].target == t || Crossed(fetches[id].target, t))
    case Started(id) => id < |fetches| && fetches[id].target == t
  }

  /** What a call made after some run returns. */
  lemma CallReturnsOwn(chain: Chain, requests: set<string>, actions: seq<Action>, t: Target, skipCache: bool)
    requires GoodHash(chain, requests) && CanonicalRun(chain, requests, actions) && Canonical(chain, requests, t)
    ensures var (s', r) := Request(chain, Run(chain, actions), t, skipCache); OwnOutcome(chain, t, r, s'.fetches)
  {
    var s := Run(chain, actions);
    RunKeepsValues(chain, requests, actions);
    RunKeepsPending(chain, actions);
    var pKey := PendingText(chain, t);
    if pKey in s.pending {
      var id := s.pending[pKey];
      assert id in Outstanding(PendingTexts(chain), s.fetches, pKey);
      PendingTextUnique(chain, requests, s.fetches[id].target, t);
    }
  }

  /** What a caller has got, given the fetches as they are now. */
  function Received(r: Outcome, fetches: seq<Fetch>): Option<Response> {
    match r
    case Cached(v) => Some(v)
    case Joined(id) => if id < |fetches| then Delivered(fetches[id]) else None
    case Started(id) => if id < |fetches| then Delivered(fetches[id]) else None
  }

  /** The value a call at place n of a run is served by the end of the run, if any. */
  ghost function Served(chain: Chain, actions: seq<Action>, n: nat): Option<Response>
    requires n < |actions| && actions[n].Call?
  {
    Received(Request(chain, Run(chain, actions[..n]), actions[n].t, actions[n].skipCache).1, Run(chain, actions).fetches)
  }

  /** The fetch a crossed call would join. */
  ghost predicate IsCrossed(fetches: seq<Fetch>, r: Outcome, t: Target) {
    r.Joined? && r.id < |fetches| && Crossed(fetches[r.id].target, t)
  }

  /** The call at place n joins a fetch of the opposite direction. */
  ghost predicate JoinsCrossed(chain: Chain, actions: seq<Action>, n: nat)
    requires n < |actions| && actions[n].Call?
  {
    var s := Run(chain, actions[..n]);
    IsCrossed(s.fetches, Request(chain, s, actions[n].t, actions[n].skipCache).1, actions[n].t)
  }

  /** The opposite direction on the same text. */
  function CrossOf(t: Target): Target {
    match t
    case ContractOf(denom) => DenomOf(denom)
    case DenomOf(addr) => ContractOf(addr)
    case _ => t
  }

  /** The target whose answer the call at place n waits for. */
  ghost function Source(chain: Chain, actions: seq<Action>, n: nat): Target
    requires n < |actions| && actions[n].Call?
  {
    if JoinsCrossed(chain, actions, n) then CrossOf(actions[n].t) else actions[n].t
  }

  /** In every run, every call is served the answer for its own target, or for the opposite
      direction if it joined that fetch, or nothing. */
  lemma ServedExactly(chain: Chain, requests: set<string>, actions: seq<Action>, n: nat)
    requires GoodHash(chain, requests) && CanonicalRun(chain, requests, actions)
    requires n < |actions| && actions[n].Call?
    ensures Served(chain, actions, n) == None || Served(chain, actions, n) == Answer(chain, Source(chain, actions, n))
  {
    var r := Request(chain, Run(chain, actions[..n]), actions[n].t, actions[n].skipCache).1;
    CallReturnsOwn(chain, requests, actions[..n], actions[n].t, actions[n].skipCache);
    if r.Started? {
      StartedInRun(chain, actions, n);
    }
    ReceivedExactly(chain, requests, actions, n, r);
  }

  lemma ReceivedExactly(chain: Chain, requests: set<string>, actions: seq<Action>, n: nat, r: Outcome)
    requires GoodHash(chain, requests) && CanonicalRun(chain, requests, actions)
    requires n < |actions| && actions[n].Call?
    requires r.Started? || OwnOutcome(chain, actions[n].t, r, Run(chain, actions[..n]).fetches)
    requires r.Started? ==> OwnOutcome(chain, actions[n].t, r, Run(chain, actions[..n + 1]).fetches)
    ensures var crossed := IsCrossed(Run(chain, actions[..n]).fetches, r, actions[n].t);
            var result := Received(r, Run(chain, actions).fetches);
            result == None || result == Answer(chain, if crossed then CrossOf(actions[n].t) else actions[n].t)
  {
    if r.Joined? {
      PromiseDelivers(chain, requests, actions, n, r.id);
    } else if r.Started? {
      PromiseDelivers(chain, requests, actions, n + 1, r.id);
    }
  }

  lemma StartedInRun(chain: Chain, actions: seq<Action>, n: nat)
    requires n < |actions| && actions[n].Call?
    requires Request(chain, Run(chain, actions[..n]), actions[n].t, actions[n].skipCache).1.Started?
    ensures var id, fetches := |Run(chain, actions[..n]).fetches|, Run(chain, actions[..n + 1]).fetches;
            && Request(chain, Run(chain, actions[..n]), actions[n].t, actions[n].skipCache).1 == Started(id)
            && id < |fetches| && fetches[id].target == actions[n].t
  {
    assert actions[..n + 1] == actions[..n] + [actions[n]];
    RunNext(chain, actions[..n], actions[n]);
  }

  /** A call that is served something is served a wrong value exactly when it joined the opposite
      direction and the two answers differ. */
  lemma WrongExactly(chain: Chain, requests: set<string>, actions: seq<Action>, n: nat)
    requires GoodHash(chain, requests) && CanonicalRun(chain, requests, actions)
    requires n < |actions| && actions[n].Call?
    ensures Served(chain, actions, n).Some? ==>
              (Served(chain, actions, n) != Answer(chain, actions[n].t) <==>
               JoinsCrossed(chain, actions, n) && Answer(chain, CrossOf(actions[n].t)) != Answer(chain, actions[n].t))
  {
    ServedExactly(chain, requests, actions, n);
  }

  /** The pending key of a call holds a fetch for its own target or for the opposite direction; the
      call joins the opposite direction exactly when that is what is there and its cache has no answer. */
  lemma CrossesExactly(chain: Chain, requests: set<string>, actions: seq<Action>, n: nat)
    requires GoodHash(chain, requests) && CanonicalRun(chain, requests, actions)
    requires n < |actions| && actions[n].Call?
    ensures var s, t := Run(chain, actions[..n]), actions[n].t;
            var pKey, answered := PendingText(chain, t), !actions[n].skipCache && CacheText(chain, t) in s.Cache(FamilyOf(t));
            && (pKey in s.pending ==>
                && s.pending[pKey] < |s.fetches|
                && s.fetches[s.pending[pKey]].target in {t, CrossOf(t)})
            && (JoinsCrossed(chain, actions, n) <==>
                !answered && pKey in s.pending && s.fetches[s.pending[pKey]].target != t)
  {
    var s, t := Run(chain, actions[..n]), actions[n].t;
    var pKey := PendingText(chain, t);
    RunKeepsPending(chain, actions[..n]);
    RunKeepsValues(chain, requests, actions[..n]);
    if pKey in s.pending {
      assert s.pending[pKey] in Outstanding(PendingTexts(chain), s.fetches, pKey);
      PendingTextUnique(chain, requests, s.fetches[s.pending[pKey]].target, t);
    }
  }

  /** A call is served the answer for its own target or nothing if no call before it asked for the
      opposite direction on the same text. */
  lemma ServedIsOwnAnswer(chain: Chain, requests: set<string>, actions: seq<Action>, n: nat)
    requires GoodHash(chain, requests) && CanonicalRun(chain, requests, actions)
    requires n < |actions| && actions[n].Call?
    requires forall i :: 0 <= i < n && actions[i].Call? ==> !Crossed(actions[i].t, actions[n].t)
    ensures Served(chain, actions, n) == None || Served(chain, actions, n) == Answer(chain, actions[n].t)
  {
    ServedExactly(chain, requests, actions, n);
    if JoinsCrossed(chain, actions, n) {
      var r := Request(chain, Run(chain, actions[..n]), actions[n].t, actions[n].skipCache).1;
      FetchedWasCalled(chain, actions[..n], r.id);
    }
  }

  /** A promise made by place n delivers the answer for its own target by the end of the run, or nothing. */
  lemma PromiseDelivers(chain: Chain, requests: set<string>, actions: seq<Action>, n: nat, id: nat)
    requires GoodHash(chain, requests) && CanonicalRun(chain, requests, actions)
    requires n <= |actions| && id < |Run(chain, actions[..n]).fetches|
    ensures id < |Run(chain, actions).fetches|
    ensures var result := Delivered(Run(chain, actions).fetches[id]);
            result == None || result == Answer(chain, Run(chain, actions[..n]).fetches[id].target)
  {
    TargetsStay(chain, actions, n, id);
    RunKeepsValues(chain, requests, actions);
  }

  /** Every fetch was started by a call for its target. */
  lemma {:induction false} FetchedWasCalled(chain: Chain, actions: seq<Action>, id: nat)
    requires id < |Run(chain, actions).fetches|
    ensures exists i :: 0 <= i < |actions| && actions[i].Call? && actions[i].t == Run(chain, actions).fetches[id].target
  {
    var front, a := actions[..|actions| - 1], actions[|actions| - 1];
    var s := Run(chain, front);
    StepTargets(chain, s, a);
    if id < |s.fetches| {
      FetchedWasCalled(chain, front, id);
      var i :| 0 <= i < |front| && front[i].Call? && front[i].t == s.fetches[id].target;
      assert actions[i] == front[i];
    } else {
      assert actions[|actions| - 1] == a;
    }
  }

  /** The opposite direction finds the fetch running under its own pending key. */
  lemma CrossedCallJoins(chain: Chain, u: Target, t: Target)
    requires Crossed(u, t)
    ensures var s := Run(chain, [Call(u, false)]);
            && s.fetches == [Fetch(u, Fetching)]
            && Request(chain, s, t, false) == (s, Joined(0))
  {
    assert [] + [Call(u, false)] == [Call(u, false)];
    RunNext(chain, [], Call(u, false));
    assert PendingText(chain, t) == PendingText(chain, u);
  }

  /** The exception is real, in both directions: while one direction is being fetched, a call for the
      other joins that fetch, and when it resolves is served its value. */
  lemma CrossedCallServed(chain: Chain, u: Target, t: Target)
    requires Crossed(u, t)
    ensures var actions := [Call(u, false), Call(t, false), SettleStep(0, true)];
            JoinsCrossed(chain, actions, 1) && Served(chain, actions, 1) == Answer(chain, u)
  {
    var a, b, c := Call(u, false), Call(t, false), SettleStep(0, true);
    var s := Run(chain, [a]);
    CrossedCallJoins(chain, u, t);
    assert [a] + [b] == [a, b] && [a, b] + [c] == [a, b, c] && [a, b, c][..1] == [a];
    RunNext(chain, [a], b);
    RunNext(chain, [a, b], c);
    SettleStores(chain, s, 0, true);
    assert Run(chain, [a, b, c]).fetches == [Fetch(u, Settled(Answer(chain, u)))];
  }
}
