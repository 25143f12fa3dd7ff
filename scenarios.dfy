/** What the model of scripts/build_datafeed.py gives for concrete rows and sheets. */
module Scenarios {
  import opened Wrappers
  import opened Text
  import opened AssetExtractor
  import opened FeedAssembler

  const PumpHeaders: seq<string> := ["Asset Name", "Sector"]
  const PumpRow0: Row := [Some("Pump Station A"), Some("Water and Wastewater Systems")]
  const PumpRow1: Row := [Some("Pump Station A"), Some("Water")]
  const PumpAsset: Asset := Asset("Pump Station A", Some("Water and Wastewater Systems"))
  const PumpWorkbook: Option<seq<Table>> := Some([Table(PumpHeaders, [PumpRow0, PumpRow1])])

  lemma PumpRowsSearched()
    ensures RowName(PumpHeaders, PumpRow0) == Ok(Some(PumpAsset.name))
    ensures RowSector(PumpHeaders, PumpRow0) == Ok(PumpAsset.sector)
    ensures RowName(PumpHeaders, PumpRow1) == Ok(Some(PumpAsset.name))
  {
    CleanName("Pump Station A");
    CleanName("Water and Wastewater Systems");
    ProbeCases(PumpHeaders, PumpRow0, "Asset Name");
    ProbeCases(PumpHeaders, PumpRow0, "Sector");
    ProbeCases(PumpHeaders, PumpRow1, "Asset Name");
  }

  lemma PumpSheetLoaded()
    ensures LoadedTable(PumpWorkbook) == Table(PumpHeaders, [PumpRow0, PumpRow1])
  {
    var t := Table(PumpHeaders, [PumpRow0, PumpRow1]);
    assert HasData(t) by { assert t.rows[0][0].Some?; }
    assert SheetOf(PumpWorkbook) == t;
    CleanName("Asset Name");
    CleanName("Sector");
    NormalizedHeaders(t);
    assert NormalizeHeaders(t).headers == PumpHeaders;
  }

  /** Two views with the same name leave one asset, with the first sector. */
  lemma DedupSameNameTwice(v0: RowView, v1: RowView, n: string)
    requires v0.name == Ok(Some(n)) && v0.sector.Ok? && v1.name == Ok(Some(n))
    ensures Dedup([v0, v1]) == Ok([Asset(n, v0.sector.value)])
  {
    var a := Asset(n, v0.sector.value);
    var none: seq<Asset> := [];
    assert Dedup([]) == Ok(none);
    assert NameSet(none) == {};
    assert none + [a] == [a];
    assert Admit(none, v0) == Ok([a]);
    DedupSnoc([], v0);
    assert [] + [v0] == [v0];
    assert a in [a];
    assert n in NameSet([a]);
    assert Admit([a], v1) == Ok([a]);
    DedupSnoc([v0], v1);
    assert [v0] + [v1] == [v0, v1];
  }

  lemma PumpRowsExtracted()
    ensures Extract(PumpHeaders, [PumpRow0, PumpRow1]) == Ok([PumpAsset])
  {
    PumpRowsSearched();
    var vs := Views(PumpHeaders, [PumpRow0, PumpRow1]);
    assert vs == [ViewOf(PumpHeaders, PumpRow0), ViewOf(PumpHeaders, PumpRow1)];
    DedupSameNameTwice(vs[0], vs[1], PumpAsset.name);
  }

  /** Two rows share the name "Pump Station A" under "Asset Name"; with a
      cap of one the feed holds the first row's asset, and signal 0 names it.
      The inputs are parameters fixed by `requires`, not constants in the
      contract, to keep the solver from unfolding the searches without bound. */
  lemma DuplicateNameKeepsFirstSector(workbook: Option<seq<Table>>, maxAssets: nat)
    requires workbook == PumpWorkbook && maxAssets == 1
    ensures AssetsOf(workbook, maxAssets) == Ok([Asset("Pump Station A", Some("Water and Wastewater Systems"))])
    ensures ReferencesOf(AssetsOf(workbook, maxAssets).value).incidentAssetId == "Pump Station A"
  {
    PumpSheetLoaded();
    PumpRowsExtracted();
    var t := LoadedTable(workbook);
    assert AssetsOf(workbook, maxAssets) == Finalize(Extract(t.headers, t.rows), maxAssets);
    assert [PumpAsset][..1] == [PumpAsset];
  }

  /** Column priority: with both "Name" and "Asset Name" filled, the name
      comes from "Asset Name" even though "Name" stands first in the sheet. */
  lemma AssetNameBeatsName()
    ensures RowName(["Name", "Asset Name"], [Some("Depot B"), Some("Depot A")]) == Ok(Some("Depot A"))
  {
    var hs := ["Name", "Asset Name"];
    var row: Row := [Some("Depot B"), Some("Depot A")];
    CleanName("Depot A");
    ProbeCases(hs, row, "Asset Name");
  }

  /** A " NaN " cell trims to a placeholder and is not accepted as a name. */
  lemma NaNCellRejected()
    ensures Strip(" NaN ") == "NaN" && !Usable(Strip(" NaN "))
  {
    assert TrimStart(" NaN ") == "NaN ";
    assert TrimEnd("NaN ") == "NaN";
    NullTextUpToCase("NaN");
  }

  /** A " NaN " placeholder under "Asset Name" is passed over and the next
      candidate with a value supplies the name.
      The inputs are parameters fixed by `requires`, not constants in the
      contract, to keep the solver from unfolding the searches without bound. */
  lemma PlaceholderPassedOver(hs: seq<string>, row: Row)
    requires hs == ["Asset Name", "Site"] && row == [Some(" NaN "), Some("Depot A")]
    ensures RowName(hs, row) == Ok(Some("Depot A"))
  {
    assert hs[0] == "Asset Name" && hs[1] == "Site";
    assert forall j :: 0 <= j < |hs| && hs[j] == "Asset Name" ==> j == 0;
    assert forall j :: 0 <= j < |hs| && hs[j] == "Site" ==> j == 1;
    ProbeCases(hs, row, "Asset Name");
    ProbeCases(hs, row, "Asset");
    ProbeCases(hs, row, "Name");
    ProbeCases(hs, row, "Site");
    assert ProbeColumn(hs, row, "Asset Name") == Value(" NaN ");
    assert ProbeColumn(hs, row, "Asset") == NoValue;
    assert ProbeColumn(hs, row, "Name") == NoValue;
    assert ProbeColumn(hs, row, "Site") == Value("Depot A");
    NaNCellRejected();
    CleanName("Depot A");
    var cs := NameColumns;
    assert cs[0] == "Asset Name" && cs[1..][0] == "Asset" && cs[1..][1..][0] == "Name"
           && cs[1..][1..][1..][0] == "Site";
    assert NameFrom(hs, row, cs[1..][1..][1..]) == Ok(Some("Depot A"));
    assert NameFrom(hs, row, cs[1..][1..]) == Ok(Some("Depot A"));
    assert NameFrom(hs, row, cs[1..]) == Ok(Some("Depot A"));
  }

  /** The sector search has no emptiness check: a whitespace-only sector
      cell gives the empty sector. */
  lemma BlankSectorIsEmpty()
    ensures RowSector(["Site", "Sector"], [Some("Depot A"), Some("  ")]) == Ok(Some(""))
  {
    var hs := ["Site", "Sector"];
    var row: Row := [Some("Depot A"), Some("  ")];
    ProbeCases(hs, row, "Sector");
    StripEmptyIffAllSpace("  ");
  }

  const CollidingSheet: Table := Table(["Name ", " Name"], [[Some("Depot A"), Some("Depot B")]])

  lemma CollidingHeadersTrimmed()
    ensures NormalizeHeaders(CollidingSheet) == Table(["Name", "Name"], CollidingSheet.rows)
  {
    assert Strip("Name ") == "Name" by {
      assert TrimStart("Name ") == "Name ";
      assert TrimEnd("Name ") == "Name";
    }
    assert Strip(" Name") == "Name" by {
      assert TrimStart(" Name") == "Name";
      StrippedIsFixed("Name");
    }
    var hs := NormalizeHeaders(CollidingSheet).headers;
    assert |hs| == 2 && hs[0] == "Name" && hs[1] == "Name";
    assert hs == ["Name", "Name"];
  }

  lemma CollidingRowRaises(hs: seq<string>, row: Row)
    requires hs == ["Name", "Name"] && |row| == 2
    ensures RowName(hs, row) == Err(AmbiguousColumn("Name"))
  {
    ProbeCases(hs, row, "Asset Name");
    ProbeCases(hs, row, "Asset");
    ProbeCases(hs, row, "Name");
    assert ProbeColumn(hs, row, "Asset Name") == NoValue;
    assert ProbeColumn(hs, row, "Asset") == NoValue;
    assert ProbeColumn(hs, row, "Name") == Ambiguous by {
      assert hs[0] == "Name" && hs[1] == "Name";
    }
    var cs := NameColumns;
    assert cs[0] == "Asset Name" && cs[1..][0] == "Asset" && cs[1..][1..][0] == "Name";
    assert NameFrom(hs, row, cs[1..][1..]) == Err(AmbiguousColumn("Name"));
    assert NameFrom(hs, row, cs[1..]) == NameFrom(hs, row, cs[1..][1..]);
  }

  /** Headers "Name " and " Name" both trim to "Name"; the name search
      reaches that column and the script raises.
      The inputs are parameters fixed by `requires`, not constants in the
      contract, to keep the solver from unfolding the searches without bound. */
  lemma CollidingHeadersRaise(t: Table)
    requires t == NormalizeHeaders(CollidingSheet)
    ensures Extract(t.headers, t.rows) == Err(AmbiguousColumn("Name"))
  {
    CollidingHeadersTrimmed();
    CollidingRowRaises(t.headers, t.rows[0]);
    var vs := Views(t.headers, t.rows);
    assert vs == [ViewOf(t.headers, t.rows[0])];
    assert vs[..0] == [];
  }
}
