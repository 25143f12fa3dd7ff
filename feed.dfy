/** The feed assembler of scripts/build_datafeed.py, restricted to what it
    derives from the asset list: the asset names (or placeholders) that the
    signals and the indicators quote. Every other field of the feed is a
    fixed literal. */
module FeedAssembler {
  import opened Wrappers
  import opened AssetExtractor

  /** `get(i, fallback)`: the name of the asset at index `i`, or the fallback
      when the list is not that long. */
  function Get(assets: seq<Asset>, i: nat, fallback: string): string
  {
    if |assets| > i then assets[i].name else fallback
  }

  /** The parts of the feed that depend on the asset list. */
  datatype References = References(
    incidentAssetId: string,         // signals[0].assetId
    incidentSummary: string,         // signals[0].summary
    intelSummary: string,            // signals[1].summary
    weatherSummary: string,          // signals[4].summary
    acledProximityHigh: seq<string>  // indicators.acled_proximity_high
  )

  /** The references with every `get` at its fallback. */
  const PlaceholderReferences: References := References(
    "Water Treatment Plant 1",
    "Unauthorized access attempt detected at " + "Asset-1" + ".",
    "Regional threat bulletin mentions critical infrastructure near " + "Asset-2" + ".",
    "Flood watch near logistics route serving " + "Asset-3" + " for the next 48 hours.",
    ["Asset-1", "Asset-2"])

  function ReferencesOf(assets: seq<Asset>): References
  {
    References(
      Get(assets, 0, "Water Treatment Plant 1"),
      "Unauthorized access attempt detected at " + Get(assets, 0, "Asset-1") + ".",
      "Regional threat bulletin mentions critical infrastructure near " + Get(assets, 1, "Asset-2") + ".",
      "Flood watch near logistics route serving " + Get(assets, 2, "Asset-3") + " for the next 48 hours.",
      [Get(assets, 0, "Asset-1"), Get(assets, 1, "Asset-2")])
  }

  /** `get` yields a name from the list exactly when the index is in range,
      and the fallback otherwise. */
  lemma GetCases(assets: seq<Asset>, i: nat, fallback: string)
    ensures i < |assets| ==> Get(assets, i, fallback) == assets[i].name
    ensures i < |assets| ==> Get(assets, i, fallback) in NameSet(assets)
    ensures i >= |assets| ==> Get(assets, i, fallback) == fallback
  {
    if i < |assets| {
      assert assets[i] in assets;
    }
  }

  /** Each reference quotes the asset at its own position: signal 0 and the
      first indicator entry quote asset 0, the intel summary and the second
      indicator entry asset 1, the weather summary asset 2; a position past
      the end of the list quotes its placeholder. */
  lemma QuotedPositions(assets: seq<Asset>)
    ensures var r := ReferencesOf(assets);
            && r.incidentAssetId == (if |assets| > 0 then assets[0].name else "Water Treatment Plant 1")
            && r.incidentSummary == "Unauthorized access attempt detected at "
                                    + (if |assets| > 0 then assets[0].name else "Asset-1") + "."
            && r.intelSummary == "Regional threat bulletin mentions critical infrastructure near "
                                 + (if |assets| > 1 then assets[1].name else "Asset-2") + "."
            && r.weatherSummary == "Flood watch near logistics route serving "
                                   + (if |assets| > 2 then assets[2].name else "Asset-3") + " for the next 48 hours."
            && r.acledProximityHigh == [if |assets| > 0 then assets[0].name else "Asset-1",
                                        if |assets| > 1 then assets[1].name else "Asset-2"]
  {
    GetCases(assets, 0, "Water Treatment Plant 1");
    GetCases(assets, 0, "Asset-1");
    GetCases(assets, 1, "Asset-2");
    GetCases(assets, 2, "Asset-3");
  }

  /** Only the first three assets are ever quoted. */
  lemma OnlyFirstThreeQuoted(assets: seq<Asset>, more: seq<Asset>)
    requires |assets| >= 3
    ensures ReferencesOf(assets + more) == ReferencesOf(assets)
  {
  }

  /** Placeholder substitution: with fewer than two assets the proximity
      indicator holds the literal "Asset-2" second; with two or more it holds
      the first two asset names, which then differ. */
  lemma ProximityIndicator(workbook: Option<seq<Table>>, maxAssets: nat)
    requires AssetsOf(workbook, maxAssets).Ok?
    ensures var assets := AssetsOf(workbook, maxAssets).value;
            var p := ReferencesOf(assets).acledProximityHigh;
            |p| == 2
            && (|assets| < 2 ==> p[1] == "Asset-2")
            && (|assets| >= 2 ==> p == [assets[0].name, assets[1].name] && p[0] != p[1])
  {
    FinalListInvariants(workbook, maxAssets);
  }

  /** Signal 0 falls back to "Water Treatment Plant 1" only when the cap is
      zero; otherwise it names the first asset of the final list. With a cap
      of zero every reference is a placeholder. */
  lemma IncidentAssetId(workbook: Option<seq<Table>>, maxAssets: nat)
    requires AssetsOf(workbook, maxAssets).Ok?
    ensures var assets := AssetsOf(workbook, maxAssets).value;
            (maxAssets > 0 ==> |assets| > 0 && ReferencesOf(assets).incidentAssetId == assets[0].name)
            && (maxAssets == 0 ==> ReferencesOf(assets) == PlaceholderReferences)
  {
    FinalListInvariants(workbook, maxAssets);
    if maxAssets == 0 {
      assert AssetsOf(workbook, maxAssets).value == [];
      EmptyListReferences();
    }
  }

  /** With an empty list every reference is its placeholder. */
  lemma EmptyListReferences()
    ensures ReferencesOf([]) == PlaceholderReferences
  {
  }
}
