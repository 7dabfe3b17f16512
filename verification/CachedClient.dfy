/**
 The request-deduplicating cache around the gRPC services, as a machine of atomic steps: a call up
 to its `return`, the `.then` callback of a settled fetch, its `.finally` callback, `clearCache`,
 and the eviction of an LRU entry at any moment.
 */
module CachedClient {
  import opened Keys
  import opened OrderedMap

  /** A gRPC response: the `address` field the EVM wrapper rewrites, and everything else. */
  datatype Response = Response(address: string, payload: string)

  /** What a request asks for, in canonical form. */
  datatype Target =
    | MoveModule(addr: string, moduleName: string)
    | ContractOf(denom: string)
    | DenomOf(addr: string)
    | AtHeight(service: string, methodName: string, request: string, height: int)

  /** The chain behind the client: its id, SHA-256 of request JSON, and its (immutable) answers. */
  datatype Chain = Chain(chainId: string, hash: string -> string, answer: Target -> Response)

  datatype Family = MoveAbi | DenomToContract | ContractToDenom | HeightCache

  function FamilyOf(t: Target): Family {
    match t
    case MoveModule(_, _) => MoveAbi
    case ContractOf(_) => DenomToContract
    case DenomOf(_) => ContractToDenom
    case AtHeight(_, _, _, _) => HeightCache
  }

  /** The value a fetch for t delivers; None when its `.then` callback throws on a bad address. */
  function Answer(chain: Chain, t: Target): Option<Response> {
    var raw := chain.answer(t);
    if t.ContractOf? then
      match NormalizeEvmAddress(raw.address)
      case None => None
      case Some(addr) => Some(raw.(address := addr))
    else Some(raw)
  }

  function CacheText(chain: Chain, t: Target): string {
    match t
    case MoveModule(addr, m) => chain.chainId + (":move:" + (addr + ([':'] + m)))
    case ContractOf(denom) => chain.chainId + (":d2c:" + denom)
    case DenomOf(addr) => chain.chainId + (":c2d:" + addr)
    case AtHeight(s, m, r, h) => HeightKey(chain.chainId, s, m, chain.hash(r), h)
  }

  function PendingText(chain: Chain, t: Target): string {
    match t
    case MoveModule(_, _) => CacheText(chain, t)
    case ContractOf(denom) => chain.chainId + (":denom:" + denom)
    case DenomOf(addr) => chain.chainId + (":denom:" + addr)
    case AtHeight(_, _, _, _) => "h:" + CacheText(chain, t)
  }

  // ---------- the machine ----------

  /** A fetch: running; settled, its `.then` callback done (None: it failed); or past `.finally`. */
  datatype Phase = Fetching | Settled(result: Option<Response>) | Finished(outcome: Option<Response>)

  datatype Fetch = Fetch(target: Target, phase: Phase)

  /** `fetches` lists every fetch ever started; its index stands for the promise. */
  datatype State = State(
    moveAbi: map<string, Response>,
    denomToContract: map<string, Response>,
    contractToDenom: map<string, Response>,
    heightCache: map<string, Response>,
    pending: map<string, nat>,
    fetches: seq<Fetch>,
    clears: nat)
  {
    function Cache(f: Family): map<string, Response> {
      match f
      case MoveAbi => moveAbi
      case DenomToContract => denomToContract
      case ContractToDenom => contractToDenom
      case HeightCache => heightCache
    }

    function WithCache(f: Family, m: map<string, Response>): State {
      match f
      case MoveAbi => this.(moveAbi := m)
      case DenomToContract => this.(denomToContract := m)
      case ContractToDenom => this.(contractToDenom := m)
      case HeightCache => this.(heightCache := m)
    }
  }

  const INITIAL := State(map[], map[], map[], map[], map[], [], 0)

  /** What a call returns: a cached value, or the promise of a fetch joined or started. */
  datatype Outcome = Cached(value: Response) | Joined(id: nat) | Started(id: nat)

  function Request(chain: Chain, s: State, t: Target, skipCache: bool): (State, Outcome) {
    var cache, key, pKey := s.Cache(FamilyOf(t)), CacheText(chain, t), PendingText(chain, t);
    if !skipCache && key in cache then (s, Cached(cache[key]))
    else if pKey in s.pending then (s, Joined(s.pending[pKey]))
    else
      var id := |s.fetches|;
      (s.(pending := s.pending[pKey := id], fetches := s.fetches + [Fetch(t, Fetching)]), Started(id))
  }

  function Store(s: State, f: Family, key: string, result: Option<Response>): State {
    if result.Some? then s.WithCache(f, s.Cache(f)[key := result.value]) else s
  }

  /** The fetch resolves (ok) or rejects, and `.then` runs. */
  function Settle(chain: Chain, s: State, id: nat, ok: bool): State {
    if id < |s.fetches| && s.fetches[id].phase.Fetching? then
      var t := s.fetches[id].target;
      var result := if ok then Answer(chain, t) else None;
      Store(s.(fetches := s.fetches[id := Fetch(t, Settled(result))]), FamilyOf(t), CacheText(chain, t), result)
    else s
  }

  /** `.finally` runs: it deletes the pending key, whichever promise is stored there. */
  function Finish(chain: Chain, s: State, id: nat): State {
    if id < |s.fetches| && s.fetches[id].phase.Settled? then
      var f := s.fetches[id];
      s.(pending := s.pending - {PendingText(chain, f.target)},
         fetches := s.fetches[id := Fetch(f.target, Finished(f.phase.result))])
    else s
  }

  function Clear(s: State): State {
    State(map[], map[], map[], map[], map[], s.fetches, s.clears + 1)
  }

  datatype Action =
    | Call(t: Target, skipCache: bool)
    | SettleStep(id: nat, ok: bool)
    | FinishStep(id: nat)
    | ClearCache
    | Evict(family: Family, key: string)

  function Step(chain: Chain, s: State, a: Action): State {
    match a
    case Call(t, skipCache) => Request(chain, s, t, skipCache).0
    case SettleStep(id, ok) => Settle(chain, s, id, ok)
    case FinishStep(id) => Finish(chain, s, id)
    case ClearCache => Clear(s)
    case Evict(f, key) => s.WithCache(f, s.Cache(f) - {key})
  }

  function Run(chain: Chain, actions: seq<Action>): State {
    if actions == [] then INITIAL else Step(chain, Run(chain, actions[..|actions| - 1]), actions[|actions| - 1])
  }

  // ---------- the implementation ----------

  /** The keys of an address that is normalised already. */
  lemma DenomKeys(chain: Chain, contractAddr: string, addr: string)
    requires NormalizeEvmAddress(contractAddr) == Some(addr)
    ensures ContractToDenomKey(chain.chainId, addr) == if chain.chainId == "" then None else Some(CacheText(chain, DenomOf(addr)))
    ensures DenomMappingKey(chain.chainId, addr) == if chain.chainId == "" then None else Some(PendingText(chain, DenomOf(addr)))
  {
    EvmAddressForm(contractAddr);
    EvmAddressForm(addr);
  }

  class Client {
    const chain: Chain
    var moveAbi: map<string, Response>
    var denomToContract: map<string, Response>
    var contractToDenom: map<string, Response>
    var heightCache: map<string, Response>
    var pending: map<string, nat>
    var fetches: seq<Fetch>
    ghost var clears: nat

    ghost function View(): State
      reads this
    {
      State(moveAbi, denomToContract, contractToDenom, heightCache, pending, fetches, clears)
    }

    constructor (chain: Chain)
      ensures this.chain == chain && View() == INITIAL
    {
      this.chain := chain;
      moveAbi, denomToContract, contractToDenom, heightCache := map[], map[], map[], map[];
      pending, fetches, clears := map[], [], 0;
    }

    /** A new promise, stored under its pending key. */
    method StartFetch(t: Target, pKey: string) returns (id: nat)
      modifies this`pending, this`fetches
      ensures id == |old(fetches)|
      ensures pending == old(pending)[pKey := id] && fetches == old(fetches) + [Fetch(t, Fetching)]
    {
      id := |fetches|;
      fetches := fetches + [Fetch(t, Fetching)];
      pending := pending[pKey := id];
    }

    /** A method called with a height; without one it goes straight to the service. */
    method WithHeightCache(service: string, methodName: string, request: string, height: int, skipCache: bool) returns (r: Outcome)
      modifies this
      ensures (View(), r) == Request(chain, old(View()), AtHeight(service, methodName, request, height), skipCache)
    {
      var requestHash := chain.hash(request);
      var cacheKey := HeightKey(chain.chainId, service, methodName, requestHash, height);
      if !skipCache && cacheKey in heightCache {
        return Cached(heightCache[cacheKey]);
      }
      var pendingKey := "h:" + cacheKey;
      if pendingKey in pending {
        return Joined(pending[pendingKey]);
      }
      var id := StartFetch(AtHeight(service, methodName, request, height), pendingKey);
      r := Started(id);
    }

    /** `move.module`; None is a ValidationError, which leaves everything as it was. */
    method Module(address: string, moduleName: string, skipCache: bool) returns (r: Option<Outcome>)
      modifies this
      ensures r.None? <==> chain.chainId == "" || moduleName == "" || NormalizeMoveAddress(address).None?
      ensures r.None? ==> View() == old(View())
      ensures r.Some? ==>
                (View(), r.value) ==
                Request(chain, old(View()), MoveModule(NormalizeMoveAddress(address).value, moduleName), skipCache)
    {
      var normalized := NormalizeMoveAddress(address);
      if normalized.None? {
        return None;
      }
      var key := MoveAbiKey(chain.chainId, normalized.value, moduleName);
      MoveAddressIdempotent(address);
      if key.None? {
        return None;
      }
      var pKey := MoveAbiKey(chain.chainId, normalized.value, moduleName).value;
      if !skipCache && key.value in moveAbi {
        return Some(Cached(moveAbi[key.value]));
      }
      if pKey in pending {
        return Some(Joined(pending[pKey]));
      }
      var id := StartFetch(MoveModule(normalized.value, moduleName), pKey);
      r := Some(Started(id));
    }

    /** `evm.contractAddrByDenom` */
    method ContractAddrByDenom(denom: string, skipCache: bool) returns (r: Option<Outcome>)
      modifies this
      ensures r.None? <==> chain.chainId == "" || denom == ""
      ensures r.None? ==> View() == old(View())
      ensures r.Some? ==> (View(), r.value) == Request(chain, old(View()), ContractOf(denom), skipCache)
    {
      var key := DenomToContractKey(chain.chainId, denom);
      if key.None? {
        return None;
      }
      var pKey := DenomMappingKey(chain.chainId, denom).value;
      if !skipCache && key.value in denomToContract {
        return Some(Cached(denomToContract[key.value]));
      }
      if pKey in pending {
        return Some(Joined(pending[pKey]));
      }
      var id := StartFetch(ContractOf(denom), pKey);
      r := Some(Started(id));
    }

    /** `evm.denom` */
    method Denom(contractAddr: string, skipCache: bool) returns (r: Option<Outcome>)
      modifies this
      ensures r.None? <==> chain.chainId == "" || NormalizeEvmAddress(contractAddr).None?
      ensures r.None? ==> View() == old(View())
      ensures r.Some? ==>
                (View(), r.value) ==
                Request(chain, old(View()), DenomOf(NormalizeEvmAddress(contractAddr).value), skipCache)
    {
      var normalized := NormalizeEvmAddress(contractAddr);
      if normalized.None? {
        return None;
      }
      DenomKeys(chain, contractAddr, normalized.value);
      var key := ContractToDenomKey(chain.chainId, normalized.value);
      if key.None? {
        return None;
      }
      var pKey := DenomMappingKey(chain.chainId, normalized.value).value;
      if !skipCache && key.value in contractToDenom {
        return Some(Cached(contractToDenom[key.value]));
      }
      if pKey in pending {
        return Some(Joined(pending[pKey]));
      }
      var id := StartFetch(DenomOf(normalized.value), pKey);
      r := Some(Started(id));
    }

    /** The fetch with this promise resolves or rejects: `.then` stores a result it resolves with. */
    method RunThen(id: nat, ok: bool)
      requires id < |fetches| && fetches[id].phase.Fetching?
      modifies this
      ensures View() == Settle(chain, old(View()), id, ok)
    {
      var t := fetches[id].target;
      if !ok {
        fetches := fetches[id := Fetch(t, Settled(None))];
        return;
      }
      var result := chain.answer(t);
      match t {
        case ContractOf(denom) =>
          var normalized := NormalizeEvmAddress(result.address);
          if normalized.None? {
            fetches := fetches[id := Fetch(t, Settled(None))];
            return;
          }
          result := result.(address := normalized.value);
          denomToContract := denomToContract[CacheText(chain, t) := result];
        case MoveModule(_, _) =>
          moveAbi := moveAbi[CacheText(chain, t) := result];
        case DenomOf(_) =>
          contractToDenom := contractToDenom[CacheText(chain, t) := result];
        case AtHeight(_, _, _, _) =>
          heightCache := heightCache[CacheText(chain, t) := result];
      }
      fetches := fetches[id := Fetch(t, Settled(Some(result)))];
    }

    /** `.finally` */
    method RunFinally(id: nat)
      requires id < |fetches| && fetches[id].phase.Settled?
      modifies this
      ensures View() == Finish(chain, old(View()), id)
    {
      var f := fetches[id];
      pending := pending - {PendingText(chain, f.target)};
      fetches := fetches[id := Fetch(f.target, Finished(f.phase.result))];
    }

    method ClearCache()
      modifies this
      ensures View() == Clear(old(View()))
    {
      moveAbi, denomToContract, contractToDenom, heightCache := map[], map[], map[], map[];
      pending := map[];
      clears := clears + 1;
    }
  }
}
