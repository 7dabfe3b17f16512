/** Several chain data providers as one: a first-wins index of chains and first-wins asset listings. */
module CompositeProvider {
  import opened Collections
  import opened OrderedMap
  import Keys

  datatype ChainInfo = ChainInfo(chainId: string, details: string)

  datatype Asset = Asset(chainId: string, denom: string, symbol: string, details: string)

  /** A child provider: what it lists, until it is refreshed. */
  class Provider {
    var chains: seq<ChainInfo>
    var assets: seq<Asset>

    constructor (chains: seq<ChainInfo>, assets: seq<Asset>)
      ensures this.chains == chains && this.assets == assets
    {
      this.chains, this.assets := chains, assets;
    }

    /** New data arrives from outside. */
    method Refresh(chains: seq<ChainInfo>, assets: seq<Asset>)
      modifies this
      ensures this.chains == chains && this.assets == assets
    {
      this.chains, this.assets := chains, assets;
    }

    function FindBySymbol(symbol: string): seq<Asset>
      reads this
    {
      WithSymbol(assets, symbol)
    }
  }

  function WithSymbol(assets: seq<Asset>, symbol: string): seq<Asset> {
    Filter(assets, HasSymbol(symbol))
  }

  function HasSymbol(symbol: string): Asset -> bool {
    (a: Asset) => a.symbol == symbol
  }

  // ---------- the index ----------

  /** The chains a list of chains names, by id. */
  function ById(chains: seq<ChainInfo>): (m: seq<(string, ChainInfo)>)
    ensures |m| == |chains| && forall i :: 0 <= i < |m| ==> m[i] == (chains[i].chainId, chains[i])
  {
    seq(|chains|, i requires 0 <= i < |chains| => (chains[i].chainId, chains[i]))
  }

  /** A provider, under every chain id it lists. */
  ghost function RoutesTo(p: Provider): (m: seq<(string, Provider)>)
    reads p
    ensures |m| == |p.chains| && forall i :: 0 <= i < |m| ==> m[i] == (p.chains[i].chainId, p)
  {
    seq(|p.chains|, i reads p requires 0 <= i < |p.chains| => (p.chains[i].chainId, p))
  }

  /** All chains listed, in provider order. Looking a chain id up in it is linear search. */
  ghost function AllChains(providers: seq<Provider>): seq<(string, ChainInfo)>
    reads providers
  {
    if providers == [] then []
    else AllChains(providers[..|providers| - 1]) + ById(providers[|providers| - 1].chains)
  }

  ghost function AllRoutes(providers: seq<Provider>): seq<(string, Provider)>
    reads providers
  {
    if providers == [] then []
    else AllRoutes(providers[..|providers| - 1]) + RoutesTo(providers[|providers| - 1])
  }

  lemma AllNext(providers: seq<Provider>, i: nat)
    requires i < |providers|
    ensures AllChains(providers[..i + 1]) == AllChains(providers[..i]) + ById(providers[i].chains)
    ensures AllRoutes(providers[..i + 1]) == AllRoutes(providers[..i]) + RoutesTo(providers[i])
  {
    assert providers[..i + 1][..i] == providers[..i];
  }

  /** The first entry of each key, in order. */
  function FirstEntries<V>(m: seq<(string, V)>): seq<(string, V)> {
    if m == [] then []
    else
      var rest, last := FirstEntries(m[..|m| - 1]), m[|m| - 1];
      if Has(rest, last.0) then rest else rest + [last]
  }

  /** Keeping first entries leaves every lookup as it was, and each key once. */
  lemma {:induction false} FirstsHold<V>(m: seq<(string, V)>)
    ensures Distinct(FirstEntries(m))
    ensures forall k :: Get(FirstEntries(m), k) == Get(m, k)
  {
    if m != [] {
      var n := |m| - 1;
      var rest := FirstEntries(m[..n]);
      FirstsHold(m[..n]);
      assert m == m[..n] + [m[n]];
      forall k ensures Get(FirstEntries(m), k) == Get(m, k) {
        assert Get(rest, k) == Get(m[..n], k);
        GetAppend(m[..n], [m[n]], k);
        GetAppend(rest, [m[n]], k);
        assert Get(rest, m[n].0) == Get(m[..n], m[n].0);
      }
    }
  }

  lemma FirstsNext<V>(m: seq<(string, V)>, n: seq<(string, V)>, j: nat)
    requires j < |n|
    ensures var before := FirstEntries(m + n[..j]);
            FirstEntries(m + n[..j + 1]) == if Has(before, n[j].0) then before else before + [n[j]]
  {
    var all := m + n[..j + 1];
    assert all[..|all| - 1] == m + n[..j] && all[|all| - 1] == n[j];
  }

  /** The two maps of the index list the same ids in the same order. */
  ghost predicate Aligned<U, V>(m: seq<(string, U)>, n: seq<(string, V)>) {
    |m| == |n| && forall i :: 0 <= i < |m| ==> m[i].0 == n[i].0
  }

  lemma AlignedHas<U, V>(m: seq<(string, U)>, n: seq<(string, V)>, k: string)
    requires Aligned(m, n)
    ensures Has(m, k) <==> Has(n, k)
  {
    if Has(m, k) {
      var i := IndexOf(m, k);
      assert n[i].0 == k;
    }
    if Has(n, k) {
      var i := IndexOf(n, k);
      assert m[i].0 == k;
    }
  }

  class Composite {
    const providers: seq<Provider>
    var chainCache: seq<(string, ChainInfo)>
    var chainToProvider: seq<(string, Provider)>

    /** The index is the first-wins index of what the providers list now. */
    ghost predicate Indexed()
      reads this, providers
    {
      && chainCache == FirstEntries(AllChains(providers))
      && chainToProvider == FirstEntries(AllRoutes(providers))
      && Aligned(chainCache, chainToProvider)
    }

    constructor (providers: seq<Provider>)
      ensures this.providers == providers && Indexed()
    {
      this.providers := providers;
      chainCache, chainToProvider := [], [];
      new;
      RebuildCache();
    }

    ghost predicate IndexedUpTo(i: nat)
      requires i <= |providers|
      reads this, providers
    {
      && chainCache == FirstEntries(AllChains(providers[..i]))
      && chainToProvider == FirstEntries(AllRoutes(providers[..i]))
      && Aligned(chainCache, chainToProvider)
    }

    method RebuildCache()
      modifies this
      ensures Indexed()
    {
      chainCache, chainToProvider := [], [];
      for i := 0 to |providers|
        invariant IndexedUpTo(i)
      {
        IndexProvider(i);
      }
      assert providers[..|providers|] == providers;
    }

    method IndexProvider(i: nat)
      requires i < |providers| && IndexedUpTo(i)
      modifies this
      ensures IndexedUpTo(i + 1)
    {
      AllNext(providers, i);
      ghost var chains, routes := AllChains(providers[..i + 1]), AllRoutes(providers[..i + 1]);
      AddChains(providers[i], AllChains(providers[..i]), AllRoutes(providers[..i]));
      assert chainCache == FirstEntries(chains) && chainToProvider == FirstEntries(routes);
    }

    /** One chain: the first provider to list its id wins. */
    method AddChain(chain: ChainInfo, provider: Provider)
      requires Aligned(chainCache, chainToProvider)
      modifies this
      ensures Aligned(chainCache, chainToProvider)
      ensures chainCache ==
              if Has(old(chainCache), chain.chainId) then old(chainCache) else old(chainCache) + [(chain.chainId, chain)]
      ensures chainToProvider ==
              if Has(old(chainToProvider), chain.chainId) then old(chainToProvider)
              else old(chainToProvider) + [(chain.chainId, provider)]
    {
      AlignedHas(chainCache, chainToProvider, chain.chainId);
      if !Has(chainCache, chain.chainId) {
        PutNew(chainCache, chain.chainId, chain);
        PutNew(chainToProvider, chain.chainId, provider);
        chainCache := Put(chainCache, chain.chainId, chain);
        chainToProvider := Put(chainToProvider, chain.chainId, provider);
      }
    }

    /** The inner loop: the chains of one provider, after those already indexed. */
    method AddChains(provider: Provider, ghost chains: seq<(string, ChainInfo)>, ghost routes: seq<(string, Provider)>)
      requires chainCache == FirstEntries(chains) && chainToProvider == FirstEntries(routes) && Aligned(chainCache, chainToProvider)
      modifies this
      ensures chainCache == FirstEntries(chains + ById(provider.chains))
      ensures chainToProvider == FirstEntries(routes + RoutesTo(provider))
      ensures Aligned(chainCache, chainToProvider)
    {
      assert chains + ById(provider.chains)[..0] == chains && routes + RoutesTo(provider)[..0] == routes;
      for j := 0 to |provider.chains|
        invariant chainCache == FirstEntries(chains + ById(provider.chains)[..j])
        invariant chainToProvider == FirstEntries(routes + RoutesTo(provider)[..j])
        invariant Aligned(chainCache, chainToProvider)
      {
        FirstsNext(chains, ById(provider.chains), j);
        FirstsNext(routes, RoutesTo(provider), j);
        AddChain(provider.chains[j], provider);
      }
      assert ById(provider.chains)[..|provider.chains|] == ById(provider.chains);
      assert RoutesTo(provider)[..|provider.chains|] == RoutesTo(provider);
    }

    /** Every child is refreshed, then the index is rebuilt. */
    method Refresh(chains: seq<seq<ChainInfo>>, assets: seq<seq<Asset>>)
      requires |chains| == |assets| == |providers|
      modifies this, providers
      ensures Indexed()
      ensures (forall i, j :: 0 <= i < j < |providers| ==> providers[i] != providers[j]) ==>
                forall i :: 0 <= i < |providers| ==> providers[i].chains == chains[i] && providers[i].assets == assets[i]
    {
      for i := 0 to |providers|
        modifies providers
        invariant (forall j, k :: 0 <= j < k < |providers| ==> providers[j] != providers[k]) ==>
                    forall j :: 0 <= j < i ==> providers[j].chains == chains[j] && providers[j].assets == assets[j]
      {
        providers[i].Refresh(chains[i], assets[i]);
      }
      RebuildCache();
    }

    method GetChainInfo(chainId: string) returns (r: Option<ChainInfo>)
      requires Indexed()
      ensures r == Get(AllChains(providers), chainId)
    {
      FirstsHold(AllChains(providers));
      r := Get(chainCache, chainId);
    }

    /** The provider calls about a chain are routed to. */
    method RouteOf(chainId: string) returns (r: Option<Provider>)
      requires Indexed()
      ensures r == Get(AllRoutes(providers), chainId)
      ensures r.Some? <==> Has(AllChains(providers), chainId)
      ensures r.Some? ==>
                exists i, j :: FirstListed(providers, chainId, i, j) && r.value == providers[i] &&
                               Get(AllChains(providers), chainId) == Some(providers[i].chains[j])
    {
      FirstsHold(AllRoutes(providers));
      FirstsHold(AllChains(providers));
      AlignedHas(chainCache, chainToProvider, chainId);
      assert Get(FirstEntries(AllChains(providers)), chainId) == Get(AllChains(providers), chainId);
      r := Get(chainToProvider, chainId);
      if r.Some? {
        var i, j := SearchFinds(providers, chainId);
      }
    }

    method ListAssets() returns (results: seq<Asset>)
      ensures results == FirstByKey(AllAssets(providers))
    {
      var lists: seq<seq<Asset>> := [];
      for i := 0 to |providers|
        invariant Concat(lists) == AllAssets(providers[..i])
      {
        assert providers[..i + 1][..i] == providers[..i];
        ConcatSnoc(lists, providers[i].assets);
        lists := lists + [providers[i].assets];
      }
      assert providers[..|providers|] == providers;
      results := CollectFirst(lists);
    }

    method FindAssetBySymbol(symbol: string) returns (results: seq<Asset>)
      ensures results == FirstByKey(AllWithSymbol(providers, symbol))
    {
      var lists: seq<seq<Asset>> := [];
      for i := 0 to |providers|
        invariant Concat(lists) == AllWithSymbol(providers[..i], symbol)
      {
        assert providers[..i + 1][..i] == providers[..i];
        ConcatSnoc(lists, providers[i].FindBySymbol(symbol));
        lists := lists + [providers[i].FindBySymbol(symbol)];
      }
      assert providers[..|providers|] == providers;
      results := CollectFirst(lists);
    }
  }

  /** Chain id `chainId` is first listed by provider i, at place j of its list. */
  ghost predicate FirstListed(providers: seq<Provider>, chainId: string, i: int, j: int)
    reads providers
  {
    && 0 <= i < |providers| && 0 <= j < |providers[i].chains|
    && providers[i].chains[j].chainId == chainId
    && (forall l :: 0 <= l < j ==> providers[i].chains[l].chainId != chainId)
    && (forall k, l :: 0 <= k < i && 0 <= l < |providers[k].chains| ==> providers[k].chains[l].chainId != chainId)
  }

  /** Linear search finds the chain at its first listing, and the provider that listed it there. */
  lemma {:induction false} SearchFinds(providers: seq<Provider>, chainId: string) returns (i: int, j: int)
    requires Has(AllChains(providers), chainId)
    ensures FirstListed(providers, chainId, i, j)
    ensures Get(AllChains(providers), chainId) == Some(providers[i].chains[j])
    ensures Get(AllRoutes(providers), chainId) == Some(providers[i])
    decreases |providers|
  {
    var n := |providers| - 1;
    var front, last := providers[..n], providers[n];
    assert providers == front + [last];
    AllSnoc(front, last, chainId);
    SameIds(front, chainId);
    if Has(AllChains(front), chainId) {
      i, j := SearchFinds(front, chainId);
      StillFirst(front, last, chainId, i, j);
    } else {
      i := n;
      j := FoundLast(front, last, chainId);
    }
  }

  /** Lookups with one provider more. */
  lemma AllSnoc(front: seq<Provider>, last: Provider, chainId: string)
    ensures Get(AllChains(front + [last]), chainId) ==
            if Has(AllChains(front), chainId) then Get(AllChains(front), chainId) else Get(ById(last.chains), chainId)
    ensures Get(AllRoutes(front + [last]), chainId) ==
            if Has(AllRoutes(front), chainId) then Get(AllRoutes(front), chainId) else Get(RoutesTo(last), chainId)
  {
    assert (front + [last])[..|front|] == front;
    GetAppend(AllChains(front), ById(last.chains), chainId);
    GetAppend(AllRoutes(front), RoutesTo(last), chainId);
  }

  lemma StillFirst(front: seq<Provider>, last: Provider, chainId: string, i: int, j: int)
    requires FirstListed(front, chainId, i, j)
    ensures FirstListed(front + [last], chainId, i, j) && (front + [last])[i] == front[i]
  {
    assert forall k :: 0 <= k < |front| ==> (front + [last])[k] == front[k];
  }

  /** A chain only the last provider lists. */
  lemma FoundLast(front: seq<Provider>, last: Provider, chainId: string) returns (j: int)
    requires !Has(AllChains(front), chainId) && Has(ById(last.chains), chainId)
    ensures FirstListed(front + [last], chainId, |front|, j)
    ensures Get(ById(last.chains), chainId) == Some(last.chains[j])
    ensures Get(RoutesTo(last), chainId) == Some(last)
  {
    j := IndexOf(ById(last.chains), chainId);
    assert forall l :: 0 <= l < j ==> ById(last.chains)[l].0 != chainId;
    assert RoutesTo(last)[j].0 == chainId;
    GetFirst(RoutesTo(last), j);
    NotListed(front, chainId);
    assert forall k :: 0 <= k < |front| ==> (front + [last])[k] == front[k];
  }

  lemma {:induction false} NotListed(providers: seq<Provider>, chainId: string)
    requires !Has(AllChains(providers), chainId)
    ensures forall k, l :: 0 <= k < |providers| && 0 <= l < |providers[k].chains| ==> providers[k].chains[l].chainId != chainId
    decreases |providers|
  {
    if providers != [] {
      var n := |providers| - 1;
      var front, last := providers[..n], providers[n];
      var a, b := AllChains(front), ById(last.chains);
      assert Get(a + b, chainId).None?;
      GetAppend(a, b, chainId);
      NotListed(front, chainId);
      forall k, l | 0 <= k < |providers| && 0 <= l < |providers[k].chains| ensures providers[k].chains[l].chainId != chainId {
        if k < n {
          assert front[k] == providers[k];
        } else {
          assert b[l].0 == last.chains[l].chainId;
        }
      }
    }
  }

  lemma {:induction false} SameIds(providers: seq<Provider>, chainId: string)
    ensures Has(AllChains(providers), chainId) <==> Has(AllRoutes(providers), chainId)
    decreases |providers|
  {
    if providers != [] {
      var n := |providers| - 1;
      SameIds(providers[..n], chainId);
      GetAppend(AllChains(providers[..n]), ById(providers[n].chains), chainId);
      GetAppend(AllRoutes(providers[..n]), RoutesTo(providers[n]), chainId);
      AlignedHas(ById(providers[n].chains), RoutesTo(providers[n]), chainId);
      assert Get(AllChains(providers), chainId).Some? <==> Has(AllChains(providers), chainId);
      assert Get(AllRoutes(providers), chainId).Some? <==> Has(AllRoutes(providers), chainId);
    }
  }

  // ---------- asset listings ----------

  ghost function AllAssets(providers: seq<Provider>): seq<Asset>
    reads providers
  {
    if providers == [] then []
    else AllAssets(providers[..|providers| - 1]) + providers[|providers| - 1].assets
  }

  ghost function AllWithSymbol(providers: seq<Provider>, symbol: string): seq<Asset>
    reads providers
  {
    if providers == [] then []
    else AllWithSymbol(providers[..|providers| - 1], symbol) + providers[|providers| - 1].FindBySymbol(symbol)
  }

  function Concat(lists: seq<seq<Asset>>): seq<Asset> {
    if lists == [] then [] else Concat(lists[..|lists| - 1]) + lists[|lists| - 1]
  }

  lemma ConcatSnoc(lists: seq<seq<Asset>>, xs: seq<Asset>)
    ensures Concat(lists + [xs]) == Concat(lists) + xs
  {
    assert (lists + [xs])[..|lists|] == lists;
  }

  /** Where list i starts when all are put together. */
  function Start(lists: seq<seq<Asset>>, i: nat): nat
    requires i <= |lists|
  {
    if i == 0 then 0 else Start(lists, i - 1) + |lists[i - 1]|
  }

  lemma {:induction false} StartFront(lists: seq<seq<Asset>>, i: nat)
    requires lists != [] && i < |lists|
    ensures Start(lists[..|lists| - 1], i) == Start(lists, i)
  {
    if i > 0 {
      StartFront(lists, i - 1);
    }
  }

  /** Element j of list i stands in its place. */
  lemma {:induction false} ConcatAt(lists: seq<seq<Asset>>, i: nat, j: nat)
    requires i < |lists| && j < |lists[i]|
    ensures |Concat(lists)| == Start(lists, |lists|)
    ensures Start(lists, i) + j < |Concat(lists)| && Concat(lists)[Start(lists, i) + j] == lists[i][j]
  {
    var n := |lists| - 1;
    ConcatLength(lists);
    ConcatLength(lists[..n]);
    StartFront(lists, n);
    StartFront(lists, i);
    if i < n {
      ConcatAt(lists[..n], i, j);
    }
  }

  lemma {:induction false} ConcatLength(lists: seq<seq<Asset>>)
    ensures |Concat(lists)| == Start(lists, |lists|)
  {
    if lists != [] {
      ConcatLength(lists[..|lists| - 1]);
      StartFront(lists, |lists| - 1);
    }
  }

  ghost function AssetLists(providers: seq<Provider>): (lists: seq<seq<Asset>>)
    reads providers
    ensures |lists| == |providers| && forall i :: 0 <= i < |lists| ==> lists[i] == providers[i].assets
  {
    seq(|providers|, i reads providers requires 0 <= i < |providers| => providers[i].assets)
  }

  ghost function SymbolLists(providers: seq<Provider>, symbol: string): (lists: seq<seq<Asset>>)
    reads providers
    ensures |lists| == |providers| && forall i :: 0 <= i < |lists| ==> lists[i] == providers[i].FindBySymbol(symbol)
  {
    seq(|providers|, i reads providers requires 0 <= i < |providers| => providers[i].FindBySymbol(symbol))
  }

  /** The listings put together what the providers list, in provider order. */
  lemma {:induction false} AllInOrder(providers: seq<Provider>, symbol: string)
    ensures AllAssets(providers) == Concat(AssetLists(providers))
    ensures AllWithSymbol(providers, symbol) == Concat(SymbolLists(providers, symbol))
    decreases |providers|
  {
    if providers != [] {
      var front := providers[..|providers| - 1];
      AllInOrder(front, symbol);
      assert AssetLists(providers)[..|front|] == AssetLists(front);
      assert SymbolLists(providers, symbol)[..|front|] == SymbolLists(front, symbol);
    }
  }

  /** What provider i lists at place j stands in the listing after everything the providers before it
      list. */
  lemma AllAssetsAt(providers: seq<Provider>, i: nat, j: nat)
    requires i < |providers| && j < |providers[i].assets|
    ensures var at := Start(AssetLists(providers), i) + j;
            at < |AllAssets(providers)| && AllAssets(providers)[at] == providers[i].assets[j]
  {
    AllInOrder(providers, "");
    ConcatAt(AssetLists(providers), i, j);
  }

  /** The same for one symbol. */
  lemma AllWithSymbolAt(providers: seq<Provider>, symbol: string, i: nat, j: nat)
    requires i < |providers| && j < |WithSymbol(providers[i].assets, symbol)|
    ensures var at := Start(SymbolLists(providers, symbol), i) + j;
            at < |AllWithSymbol(providers, symbol)| && AllWithSymbol(providers, symbol)[at] == WithSymbol(providers[i].assets, symbol)[j]
  {
    var lists := SymbolLists(providers, symbol);
    assert lists[i] == WithSymbol(providers[i].assets, symbol);
    ConcatAt(lists, i, j);
    AllInOrder(providers, symbol);
  }

  function SymbolAt(assets: seq<Asset>, symbol: string): int -> bool {
    p => 0 <= p < |assets| && assets[p].symbol == symbol
  }

  /** A provider lists exactly its assets of a symbol, in its own order. */
  lemma WithSymbolAt(assets: seq<Asset>, symbol: string)
    ensures var own := Positions(|assets|, SymbolAt(assets, symbol));
            |WithSymbol(assets, symbol)| == |own| && forall k :: 0 <= k < |own| ==> WithSymbol(assets, symbol)[k] == assets[own[k]]
  {
    var p := HasSymbol(symbol);
    FilterAt(assets, p);
    PositionsSame(|assets|, At(assets, p), SymbolAt(assets, symbol));
  }

  /** `${chainId}:${denom}` */
  function AssetKey(a: Asset): string {
    a.chainId + ([':'] + a.denom)
  }

  /** The assets whose key no earlier one has. */
  function FirstByKey(assets: seq<Asset>): seq<Asset> {
    if assets == [] then []
    else
      var rest, last := FirstByKey(assets[..|assets| - 1]), assets[|assets| - 1];
      if exists i :: 0 <= i < |assets| - 1 && AssetKey(assets[i]) == AssetKey(last) then rest else rest + [last]
  }

  /** The assets whose chain and denom no earlier one has. */
  function FirstByPair(assets: seq<Asset>): seq<Asset> {
    if assets == [] then []
    else
      var rest, last := FirstByPair(assets[..|assets| - 1]), assets[|assets| - 1];
      if exists i :: 0 <= i < |assets| - 1 && SameAsset(assets[i], last) then rest else rest + [last]
  }

  predicate SameAsset(a: Asset, b: Asset) {
    a.chainId == b.chainId && a.denom == b.denom
  }

  /** No asset before this place has its key. */
  predicate IsFirst(assets: seq<Asset>, i: int) {
    0 <= i < |assets| && forall j :: 0 <= j < i ==> AssetKey(assets[j]) != AssetKey(assets[i])
  }

  function FirstAt(assets: seq<Asset>): int -> bool {
    i => IsFirst(assets, i)
  }

  lemma FirstAtFront(front: seq<Asset>, last: Asset)
    ensures Positions(|front|, FirstAt(front + [last])) == Positions(|front|, FirstAt(front))
  {
    var assets := front + [last];
    forall i | 0 <= i < |front| ensures FirstAt(assets)(i) <==> FirstAt(front)(i) {
      assert forall j :: 0 <= j <= i ==> assets[j] == front[j];
    }
    PositionsSame(|front|, FirstAt(assets), FirstAt(front));
  }

  /** What is kept of a listing: the assets at the places no earlier one has the key of, in order. */
  lemma {:induction false} FirstByKeyAt(assets: seq<Asset>)
    ensures var at := Positions(|assets|, FirstAt(assets));
            |FirstByKey(assets)| == |at| && forall k :: 0 <= k < |at| ==> FirstByKey(assets)[k] == assets[at[k]]
  {
    if assets != [] {
      var n := |assets| - 1;
      var front, last := assets[..n], assets[n];
      assert assets == front + [last];
      FirstByKeyAt(front);
      FirstAtFront(front, last);
      assert Positions(|assets|, FirstAt(assets)) == Positions(n, FirstAt(front)) + (if IsFirst(assets, n) then [n] else []);
      assert FirstByKey(assets) == FirstByKey(front) + (if IsFirst(assets, n) then [last] else []);
    }
  }

  /** The loop shared by `findAssetBySymbol` and `listAssets`: a set of keys seen. */
  method CollectFirst(lists: seq<seq<Asset>>) returns (results: seq<Asset>)
    ensures results == FirstByKey(Concat(lists))
  {
    results := [];
    var seen: set<string> := {};
    for k := 0 to |lists|
      invariant results == FirstByKey(Concat(lists[..k])) && seen == KeysIn(Concat(lists[..k]))
    {
      assert lists[..k + 1] == lists[..k] + [lists[k]];
      ConcatSnoc(lists[..k], lists[k]);
      results, seen := CollectList(results, seen, lists[k], Concat(lists[..k]));
    }
    assert lists[..|lists|] == lists;
  }

  /** What has been kept of some assets, and the keys of all of them. */
  predicate Collected(results: seq<Asset>, seen: set<string>, assets: seq<Asset>) {
    results == FirstByKey(assets) && seen == KeysIn(assets)
  }

  lemma CollectedNext(results: seq<Asset>, seen: set<string>, assets: seq<Asset>, a: Asset)
    requires Collected(results, seen, assets)
    ensures Collected(if AssetKey(a) in seen then results else results + [a], seen + {AssetKey(a)}, assets + [a])
  {
    FirstByKeySnoc(assets, a);
  }

  /** The inner loop, after the assets `before`. */
  method CollectList(results: seq<Asset>, seen: set<string>, assets: seq<Asset>, ghost before: seq<Asset>)
    returns (results': seq<Asset>, seen': set<string>)
    requires Collected(results, seen, before)
    ensures Collected(results', seen', before + assets)
  {
    results', seen' := results, seen;
    assert before + assets[..0] == before;
    for i := 0 to |assets|
      invariant Collected(results', seen', before + assets[..i])
    {
      assert before + assets[..i + 1] == (before + assets[..i]) + [assets[i]];
      results', seen' := KeepNew(results', seen', assets[i], before + assets[..i]);
    }
    assert assets[..|assets|] == assets;
  }

  method KeepNew(results: seq<Asset>, seen: set<string>, a: Asset, ghost before: seq<Asset>)
    returns (results': seq<Asset>, seen': set<string>)
    requires Collected(results, seen, before)
    ensures Collected(results', seen', before + [a])
  {
    var key := AssetKey(a);
    CollectedNext(results, seen, before, a);
    if key in seen {
      assert seen + {key} == seen;
      return results, seen;
    }
    return results + [a], seen + {key};
  }

  function KeysIn(assets: seq<Asset>): set<string> {
    set i | 0 <= i < |assets| :: AssetKey(assets[i])
  }

  lemma FirstByKeySnoc(assets: seq<Asset>, a: Asset)
    ensures FirstByKey(assets + [a]) == if AssetKey(a) in KeysIn(assets) then FirstByKey(assets) else FirstByKey(assets) + [a]
    ensures KeysIn(assets + [a]) == KeysIn(assets) + {AssetKey(a)}
  {
    var all := assets + [a];
    assert all[..|assets|] == assets && all[|assets|] == a;
    assert forall i :: 0 <= i < |assets| ==> all[i] == assets[i];
    forall k ensures k in KeysIn(all) <==> k in KeysIn(assets) || k == AssetKey(a) {
      if k in KeysIn(assets) {
        var i :| 0 <= i < |assets| && AssetKey(assets[i]) == k;
        assert AssetKey(all[i]) == k;
      }
      if k == AssetKey(a) {
        assert AssetKey(all[|assets|]) == k;
      }
    }
  }

  /** Two different assets of the list share a key. */
  ghost predicate Collides(assets: seq<Asset>) {
    exists i, j :: 0 <= i < |assets| && 0 <= j < |assets| && AssetKey(assets[i]) == AssetKey(assets[j]) && !SameAsset(assets[i], assets[j])
  }

  lemma {:induction false} NoCollisionAgrees(assets: seq<Asset>)
    requires !Collides(assets)
    ensures FirstByKey(assets) == FirstByPair(assets)
  {
    if assets != [] {
      var n := |assets| - 1;
      assert forall i :: 0 <= i < n ==> assets[..n][i] == assets[i];
      NoCollisionAgrees(assets[..n]);
      assert forall i :: 0 <= i < n ==> (AssetKey(assets[i]) == AssetKey(assets[n]) <==> SameAsset(assets[i], assets[n]));
    }
  }

  lemma {:induction false} KeysKeptOnce(assets: seq<Asset>)
    ensures forall i, j :: 0 <= i < j < |FirstByKey(assets)| ==> AssetKey(FirstByKey(assets)[i]) != AssetKey(FirstByKey(assets)[j])
    ensures forall i :: 0 <= i < |FirstByKey(assets)| ==> FirstByKey(assets)[i] in assets
  {
    if assets != [] {
      var n := |assets| - 1;
      KeysKeptOnce(assets[..n]);
      assert assets == assets[..n] + [assets[n]];
    }
  }

  lemma {:induction false} PairsAllKept(assets: seq<Asset>, i: nat) returns (p: nat)
    requires i < |assets|
    ensures p < |FirstByPair(assets)| && SameAsset(FirstByPair(assets)[p], assets[i])
  {
    var n := |assets| - 1;
    if i < n {
      p := PairsAllKept(assets[..n], i);
    } else if k :| 0 <= k < n && SameAsset(assets[k], assets[n]) {
      p := PairsAllKept(assets[..n], k);
    } else {
      p := |FirstByPair(assets)| - 1;
    }
  }

  /** The listing keeps the first of each (chain, denom) exactly when no two different assets listed
      share a key. */
  lemma ListingIsFirstWins(assets: seq<Asset>)
    ensures FirstByKey(assets) == FirstByPair(assets) <==> !Collides(assets)
  {
    if Collides(assets) {
      var i, j :| 0 <= i < |assets| && 0 <= j < |assets| && AssetKey(assets[i]) == AssetKey(assets[j]) && !SameAsset(assets[i], assets[j]);
      var p := PairsAllKept(assets, i);
      var q := PairsAllKept(assets, j);
      KeysKeptOnce(assets);
      var m, n := if p < q then p else q, if p < q then q else p;
      var kept, wanted := FirstByKey(assets), FirstByPair(assets);
      assert AssetKey(wanted[m]) == AssetKey(wanted[n]);
      assert |kept| == |wanted| ==> AssetKey(kept[m]) != AssetKey(kept[n]);
    } else {
      NoCollisionAgrees(assets);
    }
  }

  /** Chain ids without a colon cannot make keys collide. */
  lemma ColonFreeNeverCollides(assets: seq<Asset>)
    requires forall i :: 0 <= i < |assets| ==> ':' !in assets[i].chainId
    ensures !Collides(assets)
  {
    forall i, j | 0 <= i < |assets| && 0 <= j < |assets| && AssetKey(assets[i]) == AssetKey(assets[j])
      ensures SameAsset(assets[i], assets[j])
    {
      Keys.CancelField(assets[i].chainId, assets[i].denom, assets[j].chainId, assets[j].denom, ':');
    }
  }

  /** With a colon in a chain id they can. */
  lemma ColonCollides()
    ensures Collides([Asset("a", "b:c", "", ""), Asset("a:b", "c", "", "")])
  {
    var assets := [Asset("a", "b:c", "", ""), Asset("a:b", "c", "", "")];
    assert AssetKey(assets[0]) == "a:b:c" == AssetKey(assets[1]);
    assert |assets[0].chainId| == 1 && |assets[1].chainId| == 3;
    assert !SameAsset(assets[0], assets[1]);
  }
}
