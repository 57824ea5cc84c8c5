// src/adapters/registry.ts: which adapter bundles a process has, over any run of
// start-ups that succeed or fail half way.
module Registries {
  import opened Wrappers
  import opened Text
  import opened Chains

  // What the registry needs of a bundle: the chain its payment adapter signs on,
  // and the chain id its configuration states.
  datatype Payment = EvmPayment(chainId: int) | SolanaPayment(caip2: string)

  datatype Bundle = Bundle(payment: Payment, configChainId: int) {
    function Destination(): Destination {
      match payment
      case SolanaPayment(caip2) => Solana(caip2)
      case EvmPayment(_) => Evm(configChainId)
    }
  }

  // The two start-up checks. The second concerns EVM adapters that sign on real
  // money under a configuration that says test money.
  predicate SlugDrift(k: ChainKey, b: Bundle) { Drifts(k, b.Destination()) }

  predicate AdapterDrift(b: Bundle) {
    b.payment.EvmPayment? && ClassifyEvm(b.payment.chainId) == Mainnet && ClassifyEvm(b.configChainId) == Testnet
  }

  predicate Coherent(k: ChainKey, b: Bundle) { !SlugDrift(k, b) && !AdapterDrift(b) }

  // The environment start-up reads. `build` stands for the adapter factories, which
  // may throw (None) and may return any bundle.
  datatype Env = Env(chains: Option<string>, legacyChain: Option<string>, tempo: bool, solana: bool,
                     build: ChainKey -> Option<Bundle>)

  datatype StartError = NoChain | UnsupportedChain(index: nat) | FactoryFailed | IncoherentConfig

  // ---- reading the environment ----

  function RawChains(e: Env): string {
    if e.chains.Some? && e.chains.value != "" then e.chains.value
    else if e.legacyChain.Some? && e.legacyChain.value != "" then e.legacyChain.value
    else "kite-ozone-testnet"
  }

  function CleanSlugs(parts: seq<string>): seq<string> {
    if parts == [] then []
    else
      var slug := Fold(Trim(parts[0]));
      (if slug != "" then [slug] else []) + CleanSlugs(parts[1..])
  }

  function SlugsOf(e: Env): seq<string> { CleanSlugs(Split(RawChains(e), ',')) }

  predicate Enabled(e: Env, k: ChainKey) { (k == TempoTestnet ==> e.tempo) && (k == SolanaDevnet ==> e.solana) }

  function KeyOfSlug(slug: string): Option<ChainKey> {
    if slug == Slug(KiteOzoneTestnet) then Some(KiteOzoneTestnet)
    else if slug == Slug(KiteMainnet) then Some(KiteMainnet)
    else if slug == Slug(AvalancheFuji) then Some(AvalancheFuji)
    else if slug == Slug(AvalancheMainnet) then Some(AvalancheMainnet)
    else if slug == Slug(BaseSepolia) then Some(BaseSepolia)
    else if slug == Slug(BaseMainnet) then Some(BaseMainnet)
    else if slug == Slug(TempoTestnet) then Some(TempoTestnet)
    else if slug == Slug(SolanaDevnet) then Some(SolanaDevnet)
    else None
  }

  function Supported(e: Env, slug: string): Option<ChainKey> {
    match KeyOfSlug(slug)
    case None => None
    case Some(k) => if Enabled(e, k) then Some(k) else None
  }

  // The key each named slug stands for; None for one that is unknown or disabled.
  function KeysNamed(e: Env, slugs: seq<string>): (named: seq<Option<ChainKey>>)
    ensures |named| == |slugs|
  {
    if slugs == [] then [] else [Supported(e, slugs[0])] + KeysNamed(e, slugs[1..])
  }

  function Named(e: Env): seq<Option<ChainKey>> { KeysNamed(e, SlugsOf(e)) }

  predicate Mentions(entries: seq<string>, slug: string) {
    exists i :: 0 <= i < |entries| && Fold(Trim(entries[i])) == slug
  }

  predicate IsSet(v: Option<string>) { v.Some? && v.value != "" }

  // Which chains an environment names. With WASIAI_A2A_CHAINS set, those of its
  // comma-separated entries, whatever the older variable says; else those of
  // WASIAI_A2A_CHAIN; with neither set, Kite's test network and nothing else. An entry
  // names a chain exactly when it is its slug, trimmed and in lower case, and the
  // chain's rail is enabled. Aliases name nothing here.
  lemma NamedMeaning(e: Env, k: ChainKey)
    ensures IsSet(e.chains) ==>
              (Some(k) in Named(e) <==> Mentions(Split(e.chains.value, ','), Slug(k))
                                        && (k == TempoTestnet ==> e.tempo) && (k == SolanaDevnet ==> e.solana))
    ensures !IsSet(e.chains) && IsSet(e.legacyChain) ==>
              (Some(k) in Named(e) <==> Mentions(Split(e.legacyChain.value, ','), Slug(k))
                                        && (k == TempoTestnet ==> e.tempo) && (k == SolanaDevnet ==> e.solana))
    ensures !IsSet(e.chains) && !IsSet(e.legacyChain) ==> Named(e) == [Some(KiteOzoneTestnet)]
  {
    hide Split;
    EntriesMeaning(e, Split(RawChains(e), ','), k);
    if !IsSet(e.chains) && !IsSet(e.legacyChain) { NothingSet(e); }
  }

  lemma NothingSet(e: Env)
    requires !IsSet(e.chains) && !IsSet(e.legacyChain)
    ensures Named(e) == [Some(KiteOzoneTestnet)]
  {
    hide Split, Trim;
    var slug := "kite-ozone-testnet";
    assert forall i :: 0 <= i < |slug| ==> slug[i] != ',';
    SplitPrefix(slug, "", ',');
    TrimIsFixed(slug);
    assert Fold(slug) == slug;
    assert CleanSlugs([slug]) == [slug] by { assert [slug][1..] == [] && CleanSlugs([]) == []; }
    assert [slug][1..] == [];
  }

  // Blank entries count for nothing; every other entry counts, in its place, as the
  // enabled chain whose slug it is, or as an unsupported one.
  lemma {:induction false} NamedInOrder(e: Env, entries: seq<string>, x: string)
    ensures KeysNamed(e, CleanSlugs(entries + [x])) ==
            KeysNamed(e, CleanSlugs(entries)) + if Trim(x) == "" then [] else [Supported(e, Fold(Trim(x)))]
    ensures Trim(x) != "" ==>
              forall k :: Supported(e, Fold(Trim(x))) == Some(k) <==>
                Fold(Trim(x)) == Slug(k) && (k == TempoTestnet ==> e.tempo) && (k == SolanaDevnet ==> e.solana)
  {
    hide Trim, Slug, KeyOfSlug;
    forall k ensures KeyOfSlug(Fold(Trim(x))) == Some(k) <==> Fold(Trim(x)) == Slug(k) {
      SlugMeaning(Fold(Trim(x)), k);
    }
    if entries == [] {
      assert [] + [x] == [x] && [x][1..] == [];
      assert [Fold(Trim(x))][1..] == [];
    } else {
      NamedInOrder(e, entries[1..], x);
      assert (entries + [x])[1..] == entries[1..] + [x];
      NamedOfConcat(e, CleanSlugs([entries[0]]), CleanSlugs(entries[1..] + [x]));
      NamedOfConcat(e, CleanSlugs([entries[0]]), CleanSlugs(entries[1..]));
      assert [entries[0]][1..] == [];
      assert CleanSlugs([]) == [];
    }
  }

  lemma {:induction false} NamedOfConcat(e: Env, a: seq<string>, b: seq<string>)
    ensures KeysNamed(e, a + b) == KeysNamed(e, a) + KeysNamed(e, b)
  {
    hide Supported;
    if a == [] {
      assert a + b == b;
    } else {
      assert (a + b)[1..] == a[1..] + b;
      NamedOfConcat(e, a[1..], b);
    }
  }

  lemma {:induction false} EntriesMeaning(e: Env, entries: seq<string>, k: ChainKey)
    ensures Some(k) in KeysNamed(e, CleanSlugs(entries)) <==> Enabled(e, k) && Mentions(entries, Slug(k))
  {
    hide Trim, Fold, Slug, KeyOfSlug;
    if entries == [] {
    } else {
      var slug, rest := Fold(Trim(entries[0])), CleanSlugs(entries[1..]);
      EntriesMeaning(e, entries[1..], k);
      SlugMeaning(slug, k);
      MentionsMore(entries, Slug(k));
      assert ([slug] + rest)[1..] == rest && [] + rest == rest;
    }
  }

  lemma MentionsMore(entries: seq<string>, slug: string)
    requires entries != []
    ensures Mentions(entries, slug) <==> Fold(Trim(entries[0])) == slug || Mentions(entries[1..], slug)
  {
    assert forall i :: 0 < i < |entries| ==> entries[i] == entries[1..][i - 1];
  }

  // The slugs are non-empty and pairwise different.
  lemma SlugMeaning(slug: string, k: ChainKey)
    ensures KeyOfSlug(slug) == Some(k) <==> slug == Slug(k)
    ensures Slug(k) != ""
  {
    KeysNameThemselves(k);
    if KeyOfSlug(slug).Some? { KeysNameThemselves(KeyOfSlug(slug).value); }
  }

  predicate AllKnown(named: seq<Option<ChainKey>>) { forall i :: 0 <= i < |named| ==> named[i].Some? }

  // ---- the registry ----

  datatype State = State(bundles: map<ChainKey, Bundle>, defaultKey: Option<ChainKey>, initialized: bool)

  const EMPTY := State(map[], None, false)

  // What a key's factory and the two checks on its bundle come to.
  function Built(build: ChainKey -> Option<Bundle>, k: ChainKey): Result<Bundle, StartError> {
    match build(k)
    case None => Err(FactoryFailed)
    case Some(b) => if SlugDrift(k, b) || AdapterDrift(b) then Err(IncoherentConfig) else Ok(b)
  }

  type Factory = ChainKey -> Result<Bundle, StartError>

  // Why start-up stops short of registering every key, if it does.
  function StopAt(make: Factory, keys: seq<ChainKey>): Option<StartError> {
    if keys == [] then None
    else
      match make(keys[0])
      case Ok(_) => StopAt(make, keys[1..])
      case Err(why) => Some(why)
  }

  // The bundles after registering the keys up to where it stops.
  function Registered(make: Factory, keys: seq<ChainKey>, bundles: map<ChainKey, Bundle>): map<ChainKey, Bundle> {
    if keys == [] then bundles
    else
      match make(keys[0])
      case Ok(b) => Registered(make, keys[1..], bundles[keys[0] := b])
      case Err(_) => bundles
  }

  class Registry {
    var bundles: map<ChainKey, Bundle>
    var defaultKey: Option<ChainKey>
    var initialized: bool

    function View(): State
      reads this
    {
      State(bundles, defaultKey, initialized)
    }

    constructor ()
      ensures View() == EMPTY
    {
      bundles, defaultKey, initialized := map[], None, false;
    }

    // Throws (Err) leave whatever was registered before the throw.
    method InitAdapters(e: Env) returns (r: Result<seq<ChainKey>, StartError>)
      modifies this
      ensures Started(Named(e), k => Built(e.build, k), old(View()), View(), r)
      ensures !IsSet(e.chains) && !IsSet(e.legacyChain) && r.Ok? ==> r.value == [KiteOzoneTestnet]
    {
      hide Named, Started;
      ghost var before := View();
      r := StartNamed(Named(e), k => Built(e.build, k));
      if !IsSet(e.chains) && !IsSet(e.legacyChain) {
        NothingSet(e);
        OneChainStarted(KiteOzoneTestnet, k => Built(e.build, k), before, View(), r);
      }
    }

    method StartNamed(named: seq<Option<ChainKey>>, make: Factory) returns (r: Result<seq<ChainKey>, StartError>)
      modifies this
      ensures Started(named, make, old(View()), View(), r)
    {
      if |named| == 0 {
        return Err(NoChain);
      }
      for i := 0 to |named|
        invariant AllKnown(named[..i])
      {
        if named[i].None? {
          return Err(UnsupportedChain(i));
        }
      }
      assert named[..|named|] == named;
      var keys := Distinct(named);
      DistinctKeysMeaning(named);
      var stop := RegisterAll(make, keys);
      if stop.Some? {
        return Err(stop.value);
      }
      defaultKey := Some(keys[0]);
      initialized := true;
      r := Ok(keys);
    }

    method RegisterAll(make: Factory, keys: seq<ChainKey>) returns (stop: Option<StartError>)
      modifies this`bundles
      ensures bundles == Registered(make, keys, old(bundles)) && stop == StopAt(make, keys)
    {
      var i := 0;
      while i < |keys|
        invariant 0 <= i <= |keys|
        invariant Registered(make, keys[i..], bundles) == Registered(make, keys, old(bundles))
        invariant StopAt(make, keys[i..]) == StopAt(make, keys)
      {
        ghost var rest := keys[i..];
        assert rest[1..] == keys[i + 1..];
        var built := make(keys[i]);
        if built.Err? {
          return Some(built.error);
        }
        bundles := bundles[keys[i] := built.value];
        i := i + 1;
      }
      stop := None;
    }

    method GetAdaptersBundle(key: Option<ChainKey>) returns (b: Option<Bundle>)
      ensures b == BundleFor(View(), key)
    {
      if !initialized {
        return None;
      }
      var k := if key.Some? then key else defaultKey;
      if k.None? {
        return None;
      }
      b := if k.value in bundles then Some(bundles[k.value]) else None;
    }

    method ResetRegistry()
      modifies this
      ensures View() == EMPTY
    {
      bundles, defaultKey, initialized := map[], None, false;
    }
  }

  function BundleFor(s: State, key: Option<ChainKey>): Option<Bundle> {
    var k := if key.Some? then key else s.defaultKey;
    if s.initialized && k.Some? && k.value in s.bundles then Some(s.bundles[k.value]) else None
  }

  // `keys` are the named keys, each once, the first one first.
  ghost predicate DistinctOf(named: seq<Option<ChainKey>>, keys: seq<ChainKey>) {
    && (forall i, j :: 0 <= i < j < |keys| ==> keys[i] != keys[j])
    && (forall i :: 0 <= i < |named| && named[i].Some? ==> named[i].value in keys)
    && (forall j :: 0 <= j < |keys| ==> Some(keys[j]) in named)
    && (|named| > 0 && named[0].Some? ==> |keys| > 0 && named[0].value == keys[0])
  }

  function DistinctKeys(named: seq<Option<ChainKey>>): seq<ChainKey> {
    if named == [] then []
    else
      var keys, last := DistinctKeys(named[..|named| - 1]), named[|named| - 1];
      if last.Some? && last.value !in keys then keys + [last.value] else keys
  }

  lemma {:induction false} DistinctKeysMeaning(named: seq<Option<ChainKey>>)
    ensures DistinctOf(named, DistinctKeys(named))
  {
    if named == [] {
    } else {
      var front := named[..|named| - 1];
      DistinctKeysMeaning(front);
      assert forall x :: x in front ==> x in named;
      assert named == front + [named[|named| - 1]];
    }
  }

  method Distinct(named: seq<Option<ChainKey>>) returns (keys: seq<ChainKey>)
    ensures keys == DistinctKeys(named)
  {
    keys := [];
    for i := 0 to |named|
      invariant keys == DistinctKeys(named[..i])
    {
      if named[i].Some? && named[i].value !in keys {
        keys := keys + [named[i].value];
      }
      assert named[..i + 1][..i] == named[..i];
    }
    assert named[..|named|] == named;
  }

  // One start-up over the named chains, from state s to state t.
  predicate Started(named: seq<Option<ChainKey>>, make: Factory, s: State, t: State,
                    r: Result<seq<ChainKey>, StartError>)
  {
    if |named| == 0 then r == Err(NoChain) && t == s
    else if !AllKnown(named) then
      t == s && r.Err? && r.error.UnsupportedChain?
      && r.error.index < |named| && named[r.error.index].None? && AllKnown(named[..r.error.index])
    else
      var keys := DistinctKeys(named);
      var after := Registered(make, keys, s.bundles);
      match StopAt(make, keys)
      case Some(why) => r == Err(why) && t == s.(bundles := after)
      case None => r == Ok(keys) && t == State(after, named[0], true)
  }

  // ---- what start-up achieves ----

  // What registering the keys leaves behind, however far it gets.
  lemma {:induction false} RegisteredMeaning(make: Factory, keys: seq<ChainKey>, bundles: map<ChainKey, Bundle>)
    ensures var after := Registered(make, keys, bundles);
            && bundles.Keys <= after.Keys
            && forall k :: k in after && (k !in bundles || after[k] != bundles[k]) ==>
                 k in keys && make(k) == Ok(after[k])
  {
    if keys != [] && make(keys[0]).Ok? {
      RegisteredMeaning(make, keys[1..], bundles[keys[0] := make(keys[0]).value]);
    }
  }

  // Registering goes through exactly when every factory does, and then every key
  // has the bundle its factory made.
  lemma {:induction false} StopMeaning(make: Factory, keys: seq<ChainKey>, bundles: map<ChainKey, Bundle>)
    requires forall i, j :: 0 <= i < j < |keys| ==> keys[i] != keys[j]
    ensures StopAt(make, keys).None? <==> forall k :: k in keys ==> make(k).Ok?
    ensures StopAt(make, keys).None? ==>
              forall k :: k in keys ==>
                k in Registered(make, keys, bundles) && make(k) == Ok(Registered(make, keys, bundles)[k])
  {
    if keys != [] && make(keys[0]).Ok? {
      var more := bundles[keys[0] := make(keys[0]).value];
      StopMeaning(make, keys[1..], more);
      RegisteredMeaning(make, keys[1..], more);
    }
  }

  // Start-up succeeds exactly when some chain is named, every named chain is
  // supported and enabled, and every factory yields a coherent bundle. Each named
  // chain then has the bundle its factory made, and the first one is the default.
  lemma StartSucceedsIff(named: seq<Option<ChainKey>>, make: Factory, s: State, t: State,
                         r: Result<seq<ChainKey>, StartError>)
    requires Started(named, make, s, t, r)
    ensures r.Ok? <==> |named| > 0 && AllKnown(named) && forall i :: 0 <= i < |named| ==> make(named[i].value).Ok?
    ensures r.Ok? ==> BundleFor(t, None) == Some(make(named[0].value).value)
    ensures r.Ok? ==> forall i :: 0 <= i < |named| ==> BundleFor(t, named[i]) == Some(make(named[i].value).value)
  {
    if |named| > 0 && AllKnown(named) {
      var keys := DistinctKeys(named);
      DistinctKeysMeaning(named);
      StopMeaning(make, keys, s.bundles);
      assert forall k :: k in keys <==> Some(k) in named;
    }
  }

  lemma OneChainStarted(k: ChainKey, make: Factory, s: State, t: State, r: Result<seq<ChainKey>, StartError>)
    requires Started([Some(k)], make, s, t, r)
    ensures r.Ok? ==> r.value == [k]
  {
    assert [Some(k)][..0] == [];
    assert DistinctKeys([]) == [];
  }

  // What a start-up that fails says, and what it leaves: nothing named, the first
  // unsupported entry, or the first key whose factory or checks fail. Only the last of
  // these has registered anything.
  lemma StartFailure(named: seq<Option<ChainKey>>, make: Factory, s: State, t: State,
                     r: Result<seq<ChainKey>, StartError>)
    requires Started(named, make, s, t, r) && r.Err?
    ensures || (r.error == NoChain && named == [] && t == s)
            || (named != [] && r.error.UnsupportedChain? && r.error.index < |named| && named[r.error.index].None?
                && (forall i :: 0 <= i < r.error.index ==> named[i].Some?) && t == s)
            || (named != [] && AllKnown(named)
                && (exists i :: 0 <= i < |named| && make(named[i].value) == Err(r.error))
                && t.defaultKey == s.defaultKey && t.initialized == s.initialized)
  {
    if named != [] && AllKnown(named) {
      var keys := DistinctKeys(named);
      DistinctKeysMeaning(named);
      var k := WhereItStops(make, keys);
      assert Some(k) in named;
      var i :| 0 <= i < |named| && named[i] == Some(k);
    } else if named != [] {
      assert forall i :: 0 <= i < r.error.index ==> named[..r.error.index][i] == named[i];
    }
  }

  lemma {:induction false} WhereItStops(make: Factory, keys: seq<ChainKey>) returns (k: ChainKey)
    requires StopAt(make, keys).Some?
    ensures k in keys && make(k) == Err(StopAt(make, keys).value)
  {
    if make(keys[0]).Err? {
      k := keys[0];
    } else {
      k := WhereItStops(make, keys[1..]);
    }
  }

  // A factory's answer is refused exactly when it has none, or a bundle whose
  // destination contradicts the slug or the adapter's own chain.
  lemma BuiltIsExact(build: ChainKey -> Option<Bundle>, k: ChainKey)
    ensures Built(build, k) == Err(FactoryFailed) <==> build(k).None?
    ensures Built(build, k).Ok? ==> build(k) == Some(Built(build, k).value)
    ensures build(k).Some? && build(k).value.payment.SolanaPayment? ==>
              (Built(build, k).Ok? <==> Declared(k) == ClassifyCaip2(build(k).value.payment.caip2))
    ensures build(k).Some? && build(k).value.payment.EvmPayment? ==>
              (Built(build, k).Ok? <==>
                && Declared(k) == ClassifyEvm(build(k).value.configChainId)
                && (ClassifyEvm(build(k).value.payment.chainId) == Mainnet ==> Declared(k) == Mainnet))
  {
    hide ClassifyEvm, ClassifyCaip2, IsMainnetKey;
  }

  // A look-up needs a finished start-up; a key that was not registered has no bundle,
  // and is not given the default's.
  lemma LookUp(s: State, key: Option<ChainKey>)
    ensures BundleFor(s, key).Some? <==>
            && s.initialized
            && (key.Some? ==> key.value in s.bundles)
            && (key.None? ==> s.defaultKey.Some? && s.defaultKey.value in s.bundles)
    ensures BundleFor(s, key).Some? ==>
              BundleFor(s, key).value == s.bundles[if key.Some? then key.value else s.defaultKey.value]
    ensures BundleFor(EMPTY, key).None?
  {
  }

  // ---- every reachable registry ----

  // A start-up is one event when nothing comes between its awaits. When something does,
  // it is a series of events: each key it reaches registers, and it ends.
  datatype Event =
    | Init(named: seq<Option<ChainKey>>, build: ChainKey -> Option<Bundle>, result: Result<seq<ChainKey>, StartError>)
    | Register(key: ChainKey, build: ChainKey -> Option<Bundle>)
    | Finish(first: ChainKey)
    | Reset

  ghost predicate Step(s: State, ev: Event, t: State) {
    match ev
    case Init(named, build, r) => Started(named, k => Built(build, k), s, t, r)
    case Register(k, build) => Built(build, k).Ok? && t == s.(bundles := s.bundles[k := Built(build, k).value])
    case Finish(k) => k in s.bundles && t == s.(defaultKey := Some(k), initialized := true)
    case Reset => t == EMPTY
  }

  ghost predicate IsRun(trace: seq<State>, events: seq<Event>) {
    && |trace| == |events| + 1 && trace[0] == EMPTY
    && forall i :: 0 <= i < |events| ==> Step(trace[i], events[i], trace[i + 1])
  }

  ghost predicate Inv(s: State) {
    && (forall k :: k in s.bundles ==> Coherent(k, s.bundles[k]))
    && (s.initialized ==> s.defaultKey.Some? && s.defaultKey.value in s.bundles)
  }

  lemma StepKeepsInv(s: State, ev: Event, t: State)
    requires Inv(s) && Step(s, ev, t)
    ensures Inv(t)
  {
    hide Coherent;
    if ev.Register? { BuiltIsCoherent(ev.build, ev.key); }
    if ev.Init? {
      forall k | Built(ev.build, k).Ok? ensures Coherent(k, Built(ev.build, k).value) { BuiltIsCoherent(ev.build, k); }
      StartKeepsInv(ev.named, k => Built(ev.build, k), s, t, ev.result);
    }
  }

  lemma BuiltIsCoherent(build: ChainKey -> Option<Bundle>, k: ChainKey)
    ensures Built(build, k).Ok? ==> Coherent(k, Built(build, k).value) && build(k) == Some(Built(build, k).value)
  {
  }

  lemma StartKeepsInv(named: seq<Option<ChainKey>>, make: Factory, s: State, t: State,
                      r: Result<seq<ChainKey>, StartError>)
    requires Inv(s) && Started(named, make, s, t, r) && forall k :: make(k).Ok? ==> Coherent(k, make(k).value)
    ensures Inv(t)
  {
    var keys := DistinctKeys(named);
    RegisteredMeaning(make, keys, s.bundles);
    if r.Ok? {
      DistinctKeysMeaning(named);
      StopMeaning(make, keys, s.bundles);
    }
  }

  lemma {:induction false} RunKeepsInv(trace: seq<State>, events: seq<Event>, n: nat)
    requires IsRun(trace, events) && n < |trace|
    ensures Inv(trace[n])
  {
    if n == 0 {
    } else {
      hide Step, Inv;
      var m := n - 1;
      RunKeepsInv(trace, events, m);
      StepKeepsInv(trace[m], events[m], trace[m + 1]);
    }
  }

  ghost predicate IsPath(trace: seq<State>, events: seq<Event>) {
    |trace| == |events| + 1 && forall i :: 0 <= i < |events| ==> Step(trace[i], events[i], trace[i + 1])
  }

  // Registering keys one after the other is a series of single steps, of any length
  // the first failing key allows.
  lemma {:induction false} RegisteringIsSteps(build: ChainKey -> Option<Bundle>, keys: seq<ChainKey>, s: State)
    returns (trace: seq<State>, events: seq<Event>)
    ensures IsPath(trace, events) && trace[0] == s
    ensures trace[|events|] == s.(bundles := Registered(k => Built(build, k), keys, s.bundles))
    ensures forall i :: 0 <= i < |events| ==> events[i].Register?
    decreases |keys|
  {
    hide Built;
    if keys == [] || Built(build, keys[0]).Err? {
      trace, events := [s], [];
    } else {
      var t := s.(bundles := s.bundles[keys[0] := Built(build, keys[0]).value]);
      var rest, more := RegisteringIsSteps(build, keys[1..], t);
      trace, events := [s] + rest, [Register(keys[0], build)] + more;
      forall i | 0 <= i < |events| ensures Step(trace[i], events[i], trace[i + 1]) {
        if i > 0 { assert Step(rest[i - 1], more[i - 1], rest[i]); }
      }
    }
  }

  // So an undisturbed start-up is a series of registrations and, if it succeeds, its end.
  lemma StartIsItsSteps(named: seq<Option<ChainKey>>, build: ChainKey -> Option<Bundle>, s: State, t: State,
                        r: Result<seq<ChainKey>, StartError>)
    returns (trace: seq<State>, events: seq<Event>)
    requires Step(s, Init(named, build, r), t)
    ensures IsPath(trace, events) && trace[0] == s && trace[|events|] == t
    ensures forall i :: 0 <= i < |events| ==> events[i].Register? || events[i].Finish?
  {
    hide Built;
    if |named| == 0 || !AllKnown(named) {
      return [s], [];
    }
    var keys := DistinctKeys(named);
    trace, events := RegisteringIsSteps(build, keys, s);
    if r.Ok? {
      DistinctKeysMeaning(named);
      StopMeaning(k => Built(build, k), keys, s.bundles);
      var path, done := trace, events;
      trace, events := trace + [t], events + [Finish(keys[0])];
      forall i | 0 <= i < |events| ensures Step(trace[i], events[i], trace[i + 1]) {
        if i < |done| { assert Step(path[i], done[i], path[i + 1]); }
      }
    }
  }

  // In every reachable registry a bundle's real destination is what its slug says,
  // and a slug that says test money has an adapter that signs on test money.
  lemma SlugsTellTheTruth(trace: seq<State>, events: seq<Event>, n: nat, k: ChainKey)
    requires IsRun(trace, events) && n < |trace| && k in trace[n].bundles
    ensures var b := trace[n].bundles[k];
            && Classify(b.Destination()) == Declared(k)
            && (!IsMainnetKey(k) && b.payment.EvmPayment? ==> ClassifyEvm(b.payment.chainId) == Testnet)
  {
    RunKeepsInv(trace, events, n);
  }

  // The adapter of an EVM bundle signs in the other environment than the slug says.
  predicate SignsElsewhere(s: State, k: ChainKey) {
    k in s.bundles && s.bundles[k].payment.EvmPayment? && ClassifyEvm(s.bundles[k].payment.chainId) != Declared(k)
  }

  // The check on adapters is one-sided: of the EVM chains, exactly those whose slug says
  // real money can end up with an adapter that signs elsewhere.
  lemma SignsElsewhereIffMainnet(k: ChainKey)
    requires CanonicalChainId(k).Some?
    ensures (exists trace, events, n: nat :: IsRun(trace, events) && n < |trace| && SignsElsewhere(trace[n], k))
            <==> IsMainnetKey(k)
  {
    if trace, events, n: nat :| IsRun(trace, events) && n < |trace| && SignsElsewhere(trace[n], k) {
      SlugsTellTheTruth(trace, events, n, k);
    }
    if IsMainnetKey(k) {
      var trace, events := MainnetSigningOnTestnet(k);
    }
  }

  lemma MainnetSigningOnTestnet(k: ChainKey) returns (trace: seq<State>, events: seq<Event>)
    requires IsMainnetKey(k) && CanonicalChainId(k).Some?
    ensures IsRun(trace, events) && |trace| == 2 && SignsElsewhere(trace[1], k)
  {
    hide IsMainnetKey;
    MainnetKeys(k);
    CanonicalNeverDrifts(k);
    var b := Bundle(EvmPayment(2368), CanonicalChainId(k).value);
    assert Built(_ => Some(b), k) == Ok(b);
    trace, events := [EMPTY, EMPTY.(bundles := map[k := b])], [Register(k, _ => Some(b))];
    assert EMPTY.bundles[k := b] == map[k := b];
  }
}
