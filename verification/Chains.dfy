// src/adapters/chain-resolver.ts: chain keys, their aliases, and whether a key or
// a real destination means real money.
module Chains {
  import opened Wrappers
  import opened Text

  datatype ChainKey =
    | KiteOzoneTestnet | KiteMainnet
    | AvalancheFuji | AvalancheMainnet
    | BaseSepolia | BaseMainnet
    | TempoTestnet | SolanaDevnet

  datatype Environment = Mainnet | Testnet

  function Slug(k: ChainKey): string {
    match k
    case KiteOzoneTestnet => "kite-ozone-testnet"
    case KiteMainnet => "kite-mainnet"
    case AvalancheFuji => "avalanche-fuji"
    case AvalancheMainnet => "avalanche-mainnet"
    case BaseSepolia => "base-sepolia"
    case BaseMainnet => "base-mainnet"
    case TempoTestnet => "tempo-testnet"
    case SolanaDevnet => "solana-devnet"
  }

  predicate EndsWith(s: string, suffix: string) { |suffix| <= |s| && s[|s| - |suffix|..] == suffix }

  // `chainKey.endsWith('-mainnet')`
  predicate IsMainnetKey(k: ChainKey) { EndsWith(Slug(k), "-mainnet") }

  lemma MainnetKeys(k: ChainKey)
    ensures IsMainnetKey(k) <==> k in {KiteMainnet, AvalancheMainnet, BaseMainnet}
  {
    hide EndsWith;
    MainnetSlugs();
    if k !in {KiteMainnet, AvalancheMainnet, BaseMainnet} { OtherEnding(Slug(k)); }
  }

  lemma MainnetSlugs()
    ensures EndsWith(Slug(KiteMainnet), "-mainnet")
    ensures EndsWith(Slug(AvalancheMainnet), "-mainnet")
    ensures EndsWith(Slug(BaseMainnet), "-mainnet")
  {
    hide EndsWith;
    Ending("kite", "-mainnet");
    Ending("avalanche", "-mainnet");
    Ending("base", "-mainnet");
    assert Slug(KiteMainnet) == "kite" + "-mainnet";
    assert Slug(AvalancheMainnet) == "avalanche" + "-mainnet";
    assert Slug(BaseMainnet) == "base" + "-mainnet";
  }

  lemma Ending(front: string, suffix: string)
    ensures EndsWith(front + suffix, suffix)
  {
  }

  lemma OtherEnding(s: string)
    requires |s| >= 7 && s[|s| - 7] != 'm'
    ensures !EndsWith(s, "-mainnet")
  {
    if |s| >= 8 { assert s[|s| - 8..][1] == s[|s| - 7] && "-mainnet"[1] == 'm'; }
  }

  // ---- aliases ----

  // `toLowerCase`, as far as a look-up in an ASCII table can tell: the Kelvin sign
  // is the one non-ASCII character whose lower case is an ASCII letter.
  function FoldChar(c: char): char { if c == '\U{212A}' then 'k' else LowerChar(c) }

  function Fold(s: string): (r: string)
    ensures |r| == |s| && forall i :: 0 <= i < |s| ==> r[i] == FoldChar(s[i])
  {
    seq(|s|, i requires 0 <= i < |s| => FoldChar(s[i]))
  }

  function Alias(key: string): Option<ChainKey> {
    if key in {"43113", "avalanche-fuji", "avalanche-testnet", "avalanche", "fuji"} then Some(AvalancheFuji)
    else if key in {"43114", "avalanche-mainnet"} then Some(AvalancheMainnet)
    else if key in {"2368", "kite-ozone-testnet", "kite-testnet"} then Some(KiteOzoneTestnet)
    else if key in {"2366", "kite-mainnet"} then Some(KiteMainnet)
    else if key in {"8453", "base-mainnet"} then Some(BaseMainnet)
    else if key in {"84532", "base-sepolia", "base-testnet", "base"} then Some(BaseSepolia)
    else if key in {"42429", "tempo-testnet", "tempo"} then Some(TempoTestnet)
    else if key in {"solana-devnet", "solana"} then Some(SolanaDevnet)
    else None
  }

  function Normalize(raw: string): Option<ChainKey> {
    var key := Fold(Trim(raw));
    if key == "" then None else Alias(key)
  }

  // The bare name of a network, which does not say which of its environments.
  predicate IsAmbiguous(raw: string) {
    var key := Fold(Trim(raw));
    Alias(key).Some? && IsNetworkName(key)
  }

  predicate IsNetworkName(key: string) { key in {"kite", "avalanche", "base", "tempo", "solana"} }

  // The names a chain goes by.
  function NamesOf(k: ChainKey): set<string> {
    match k
    case KiteOzoneTestnet => {"kite-ozone-testnet", "kite-testnet", "2368"}
    case KiteMainnet => {"kite-mainnet", "2366"}
    case AvalancheFuji => {"avalanche-fuji", "avalanche-testnet", "avalanche", "fuji", "43113"}
    case AvalancheMainnet => {"avalanche-mainnet", "43114"}
    case BaseSepolia => {"base-sepolia", "base-testnet", "base", "84532"}
    case BaseMainnet => {"base-mainnet", "8453"}
    case TempoTestnet => {"tempo-testnet", "tempo", "42429"}
    case SolanaDevnet => {"solana-devnet", "solana"}
  }

  // A text names a chain exactly when, trimmed and in lower case, it is one of the
  // chain's names; no text names two.
  lemma NormalizeMeaning(raw: string, k: ChainKey)
    ensures Normalize(raw) == Some(k) <==> Fold(Trim(raw)) in NamesOf(k)
    ensures Normalize(raw).None? <==> forall j :: Fold(Trim(raw)) !in NamesOf(j)
  {
    hide Trim, Fold;
    AliasMeaning(Fold(Trim(raw)), k);
    if Normalize(raw).Some? { AliasMeaning(Fold(Trim(raw)), Normalize(raw).value); }
    forall j ensures Fold(Trim(raw)) in NamesOf(j) ==> Normalize(raw) == Some(j) { AliasMeaning(Fold(Trim(raw)), j); }
  }

  lemma AliasMeaning(key: string, k: ChainKey)
    ensures Alias(key) == Some(k) <==> key in NamesOf(k)
    ensures key in NamesOf(k) ==> key != ""
  {
  }

  // Letters match in either case, and the Kelvin sign matches a k; every other
  // character matches only itself.
  lemma FoldIsExact(c: char, d: char)
    requires !('A' <= d <= 'Z') && d != '\U{212A}'
    ensures FoldChar(c) == d <==>
            || c == d
            || ('a' <= d <= 'z' && 'A' <= c <= 'Z' && c as int + 32 == d as int)
            || (d == 'k' && c == '\U{212A}')
  {
  }

  // The texts that leave the environment open.
  lemma AmbiguousMeaning(raw: string)
    ensures IsAmbiguous(raw) <==> Fold(Trim(raw)) in {"avalanche", "base", "tempo", "solana"}
  {
  }

  // The chain id of a key's mainnet, as text.
  function MainnetIdText(k: ChainKey): string
    requires IsMainnetKey(k)
  {
    MainnetKeys(k);
    if k == KiteMainnet then "2366" else if k == AvalancheMainnet then "43114" else "8453"
  }

  // No alias means real money unless it says so: by the full slug or the chain id.
  lemma MainnetIsSpelledOut(raw: string, k: ChainKey)
    requires Normalize(raw) == Some(k) && IsMainnetKey(k)
    ensures Fold(Trim(raw)) == Slug(k) || Fold(Trim(raw)) == MainnetIdText(k)
    ensures !IsAmbiguous(raw)
  {
    hide Trim, Fold, IsMainnetKey, IsNetworkName, Slug, Alias;
    MainnetAlias(Fold(Trim(raw)), k);
  }

  lemma MainnetAlias(key: string, k: ChainKey)
    requires Alias(key) == Some(k) && IsMainnetKey(k)
    ensures (key == Slug(k) || key == MainnetIdText(k)) && !IsNetworkName(key)
  {
    MainnetKeys(k);
    hide IsMainnetKey;
    if k == KiteMainnet {
      assert key == "kite-mainnet" || key == "2366";
      LongIsNoName(key);
    } else if k == AvalancheMainnet {
      assert key == "avalanche-mainnet" || key == "43114";
      LongIsNoName(key);
    } else {
      assert key == "base-mainnet" || key == "8453";
      LongIsNoName(key);
    }
  }

  // Network names are at most nine letters long.
  lemma LongIsNoName(key: string)
    requires key != "" && (|key| > 9 || '0' <= key[0] <= '9')
    ensures !IsNetworkName(key)
  {
  }

  // Every slug and every chain id names its own key.
  lemma KeysNameThemselves(k: ChainKey)
    ensures Alias(Slug(k)) == Some(k)
    ensures CanonicalChainId(k).Some? ==> Alias(ChainIdText(CanonicalChainId(k).value)) == Some(k)
  {
  }

  function ChainIdText(id: int): string {
    match id
    case 2368 => "2368"
    case 2366 => "2366"
    case 43113 => "43113"
    case 43114 => "43114"
    case 84532 => "84532"
    case 8453 => "8453"
    case 42429 => "42429"
    case _ => ""
  }

  // A network's bare name means its test network.
  lemma BareNamesAreTestnets(raw: string)
    requires IsAmbiguous(raw)
    ensures Normalize(raw).Some? && !IsMainnetKey(Normalize(raw).value)
  {
    if IsMainnetKey(Normalize(raw).value) { MainnetIsSpelledOut(raw, Normalize(raw).value); }
  }

  // ---- real destinations ----

  // Where a leg really pays: the chain id of an EVM bundle's configuration, or the
  // CAIP-2 identifier of a Solana adapter.
  datatype Destination = Evm(chainId: int) | Solana(caip2: string)

  function KnownEnvironment(chainId: int): Option<Environment> {
    if chainId in {2368, 43113, 84532, 42429} then Some(Testnet)
    else if chainId in {2366, 43114, 8453} then Some(Mainnet)
    else None
  }

  // A chain id nobody classified counts as real money.
  function ClassifyEvm(chainId: int): Environment {
    match KnownEnvironment(chainId)
    case Some(e) => e
    case None => Mainnet
  }

  // So a chain id is test money exactly when it is a test network's own.
  lemma TestMoneyIsKnown(chainId: int)
    ensures ClassifyEvm(chainId) == Testnet <==> exists k :: CanonicalChainId(k) == Some(chainId) && !IsMainnetKey(k)
  {
    if ClassifyEvm(chainId) == Testnet {
      var k := if chainId == 2368 then KiteOzoneTestnet else if chainId == 43113 then AvalancheFuji
               else if chainId == 84532 then BaseSepolia else TempoTestnet;
      MainnetKeys(k);
      assert CanonicalChainId(k) == Some(chainId) && !IsMainnetKey(k);
    }
    if k :| CanonicalChainId(k) == Some(chainId) && !IsMainnetKey(k) { MainnetKeys(k); }
  }

  const SOLANA_MAINNET_REFERENCE := "5eykt4UsFv8P8NJdTREpY1vzqKqZKvdp"

  predicate Contains(s: string, part: string) {
    part <= s || (s != "" && Contains(s[1..], part))
  }

  lemma {:induction false} ContainsMeaning(s: string, part: string)
    ensures Contains(s, part) <==> exists i :: 0 <= i <= |s| && part <= s[i..]
  {
    if part <= s {
      assert s[0..] == s;
    } else if s != "" {
      ContainsMeaning(s[1..], part);
      assert forall i :: 0 < i <= |s| ==> s[i..] == s[1..][i - 1..];
      if exists i :: 0 <= i <= |s| && part <= s[i..] {
        var i :| 0 <= i <= |s| && part <= s[i..];
        assert s[0..] == s;
        assert part <= s[1..][i - 1..];
      }
      if Contains(s[1..], part) {
        var j :| 0 <= j <= |s[1..]| && part <= s[1..][j..];
        assert part <= s[j + 1..];
      }
    }
  }

  function ClassifyCaip2(id: string): Environment {
    var t := Trim(id);
    var reference := if |t| >= 7 && Lower(t[..7]) == "solana:" then t[7..] else t;
    if SOLANA_MAINNET_REFERENCE <= reference || Contains(Fold(reference), "mainnet") then Mainnet else Testnet
  }

  // A CAIP-2 identifier means real money exactly when its reference, in the `solana:`
  // namespace or without one, begins like the mainnet cluster or has the word in it.
  lemma Caip2Meaning(reference: string)
    requires NoSpaceAtEnds(reference) && reference != ""
    requires |reference| >= 7 ==> Lower(reference[..7]) != "solana:"
    ensures var money := SOLANA_MAINNET_REFERENCE <= reference
                        || exists i :: 0 <= i <= |reference| && "mainnet" <= Fold(reference)[i..];
            && (ClassifyCaip2(reference) == Mainnet <==> money)
            && (ClassifyCaip2("solana:" + reference) == Mainnet <==> money)
            && (ClassifyCaip2("SOLANA:" + reference) == Mainnet <==> money)
  {
    hide Contains, Trim, Fold, NoSpaceAtEnds;
    ContainsMeaning(Fold(reference), "mainnet");
    TrimIsFixed(reference);
    Prefixed("solana:", reference);
    Prefixed("SOLANA:", reference);
    OfReference(reference, reference);
    OfReference("solana:" + reference, reference);
    OfReference("SOLANA:" + reference, reference);
  }

  lemma OfReference(id: string, reference: string)
    requires Trim(id) == id
    requires if |id| >= 7 && Lower(id[..7]) == "solana:" then id[7..] == reference else id == reference
    ensures ClassifyCaip2(id) == Mainnet <==>
              SOLANA_MAINNET_REFERENCE <= reference || Contains(Fold(reference), "mainnet")
  {
    hide Contains, Trim, Fold;
  }

  lemma Prefixed(prefix: string, reference: string)
    requires prefix == "solana:" || prefix == "SOLANA:"
    requires NoSpaceAtEnds(reference) && reference != ""
    ensures var t := prefix + reference;
            Trim(t) == t && |t| >= 7 && Lower(t[..7]) == "solana:" && t[7..] == reference
  {
    var t := prefix + reference;
    assert t[0] == prefix[0] && t[|t| - 1] == reference[|reference| - 1];
    TrimIsFixed(t);
    assert t[..7] == prefix;
    assert Lower(prefix) == "solana:";
  }

  // The mainnet cluster is recognised with and without the namespace prefix.
  lemma SolanaMainnetIsCaught(reference: string)
    requires SOLANA_MAINNET_REFERENCE <= reference && NoSpaceAtEnds(reference)
    ensures ClassifyCaip2(reference) == Mainnet && ClassifyCaip2("solana:" + reference) == Mainnet
  {
    hide Trim, Fold, Contains, ClassifyCaip2;
    assert reference[0] == '5' && Lower(reference[..7])[0] == '5';
    TrimIsFixed(reference);
    Prefixed("solana:", reference);
    OfReference(reference, reference);
    OfReference("solana:" + reference, reference);
  }

  function Classify(d: Destination): Environment {
    match d
    case Evm(id) => ClassifyEvm(id)
    case Solana(caip2) => ClassifyCaip2(caip2)
  }

  function Declared(k: ChainKey): Environment { if IsMainnetKey(k) then Mainnet else Testnet }

  // Does the real destination contradict what the slug declares?
  predicate Drifts(k: ChainKey, d: Destination) { Declared(k) != Classify(d) }

  // The chain id a key's bundle ought to have; None for Solana.
  function CanonicalChainId(k: ChainKey): Option<int> {
    match k
    case KiteOzoneTestnet => Some(2368)
    case KiteMainnet => Some(2366)
    case AvalancheFuji => Some(43113)
    case AvalancheMainnet => Some(43114)
    case BaseSepolia => Some(84532)
    case BaseMainnet => Some(8453)
    case TempoTestnet => Some(42429)
    case SolanaDevnet => None
  }

  // A bundle on its key's own chain never drifts.
  lemma CanonicalNeverDrifts(k: ChainKey)
    ensures CanonicalChainId(k).Some? ==> !Drifts(k, Evm(CanonicalChainId(k).value))
  {
    MainnetKeys(k);
  }
}
