/** The asset extractor of scripts/build_datafeed.py: choose the first sheet
    with data, trim the column headers, map every row to a name and a sector
    through ordered candidate columns, keep the first row of each name,
    substitute the demo list when nothing was found, and cap the count. */
module AssetExtractor {
  import opened Wrappers
  import opened Text

  /** A spreadsheet cell as pandas hands it over, already turned into text;
      None stands for NaN (an empty or missing cell). */
  type Cell = Option<string>

  /** One row: the cell under each header, by position. */
  type Row = seq<Cell>

  /** A parsed sheet: its header names and its rows. */
  datatype Table = Table(headers: seq<string>, rows: seq<Row>)

  /** One entry of the asset list. */
  datatype Asset = Asset(name: string, sector: Option<string>)

  /** The one failure inside the extraction loop: two headers that are equal
      after trimming make `row.get(c)` return several cells, and testing them
      raises pandas' "truth value of a Series is ambiguous" error. */
  datatype Error = AmbiguousColumn(column: string)

  const NameColumns: seq<string> := ["Asset Name", "Asset", "Name", "Site", "Location Name"]
  const SectorColumns: seq<string> := ["Sector", "Industry", "CI Sector"]

  /** The empty DataFrame used when no workbook or no sheet with data exists. */
  const EmptyTable: Table := Table([], [])

  const DemoAssets: seq<Asset> := [
    Asset("Water Treatment Plant 1", Some("Water and Wastewater Systems")),
    Asset("Substation Delta", Some("Energy")),
    Asset("HQ and SCADA", Some("Information Technology")),
    Asset("Cold Chain Hub North", Some("Healthcare and Public Health")),
    Asset("Corridor B Crossing", Some("Transportation Systems")),
    Asset("Port Gate 3", Some("Transportation Systems"))
  ]

  function Min(a: nat, b: nat): nat
  {
    if a <= b then a else b
  }

  // ---------------------------------------------------------------------
  // Sheet choice

  /** `df.dropna(how="all").shape[0] > 0`: some row has a non-missing cell. */
  predicate HasData(t: Table)
  {
    exists i, k :: 0 <= i < |t.rows| && 0 <= k < |t.rows[i]| && t.rows[i][k].Some?
  }

  function FirstSheetWithData(sheets: seq<Table>): Table
  {
    if sheets == [] then EmptyTable
    else if HasData(sheets[0]) then sheets[0]
    else FirstSheetWithData(sheets[1..])
  }

  /** The sheet the script reads; a workbook of None is a path that does not exist. */
  function SheetOf(workbook: Option<seq<Table>>): Table
  {
    match workbook
    case None => EmptyTable
    case Some(sheets) => FirstSheetWithData(sheets)
  }

  /** The chosen sheet is the first, in declared order, that has data. */
  lemma {:induction false} FirstSheetChosen(sheets: seq<Table>, i: nat)
    requires i < |sheets| && HasData(sheets[i])
    requires forall j :: 0 <= j < i ==> !HasData(sheets[j])
    ensures FirstSheetWithData(sheets) == sheets[i]
    decreases i
  {
    if i > 0 {
      assert !HasData(sheets[0]);
      FirstSheetChosen(sheets[1..], i - 1);
    }
  }

  /** When no sheet has data, the script reads the empty table. */
  lemma {:induction false} NoSheetChosen(sheets: seq<Table>)
    requires forall j :: 0 <= j < |sheets| ==> !HasData(sheets[j])
    ensures FirstSheetWithData(sheets) == EmptyTable
    decreases |sheets|
  {
    if sheets != [] {
      assert !HasData(sheets[0]);
      NoSheetChosen(sheets[1..]);
    }
  }

  /** The loop over `xls.sheet_names` that stops at the first sheet with data. */
  method SelectSheet(workbook: Option<seq<Table>>) returns (t: Table)
    ensures t == SheetOf(workbook)
  {
    if workbook.None? {
      return EmptyTable;
    }
    var sheets := workbook.value;
    t := EmptyTable;
    for i := 0 to |sheets|
      invariant FirstSheetWithData(sheets[i..]) == FirstSheetWithData(sheets)
      invariant t == EmptyTable
    {
      assert sheets[i..][0] == sheets[i] && sheets[i..][1..] == sheets[i + 1..];
      if HasData(sheets[i]) {
        t := sheets[i];
        break;
      }
    }
  }

  // ---------------------------------------------------------------------
  // Header normalisation

  /** `df.columns = [str(c).strip() for c in df.columns]`, applied only when
      the DataFrame is not empty (it has rows and columns). */
  function NormalizeHeaders(t: Table): Table
  {
    if t.rows == [] || t.headers == [] then t
    else Table(seq(|t.headers|, k requires 0 <= k < |t.headers| => Strip(t.headers[k])), t.rows)
  }

  /** Normalising keeps the rows and the number of columns, strips every
      header of a table with rows, and is idempotent. */
  lemma NormalizedHeaders(t: Table)
    ensures NormalizeHeaders(t).rows == t.rows && |NormalizeHeaders(t).headers| == |t.headers|
    ensures t.rows != [] ==> forall k :: 0 <= k < |t.headers| ==>
              NormalizeHeaders(t).headers[k] == Strip(t.headers[k]) && IsStripped(NormalizeHeaders(t).headers[k])
    ensures NormalizeHeaders(NormalizeHeaders(t)) == NormalizeHeaders(t)
  {
    var r := NormalizeHeaders(t);
    if t.rows != [] && t.headers != [] {
      forall k | 0 <= k < |t.headers|
        ensures IsStripped(r.headers[k]) && Strip(r.headers[k]) == r.headers[k]
      {
        StripIsInnerPart(t.headers[k]);
        StripIdempotent(t.headers[k]);
      }
    }
  }

  // ---------------------------------------------------------------------
  // Column lookup

  /** The indices of the columns named `c`, in increasing order. */
  function Positions(hs: seq<string>, c: string): seq<nat>
  {
    if hs == [] then []
    else Positions(hs[..|hs| - 1], c) + (if hs[|hs| - 1] == c then [|hs| - 1] else [])
  }

  /** `Positions` lists every column named `c` and no other, in increasing order. */
  lemma {:induction false} PositionsSpec(hs: seq<string>, c: string)
    ensures forall k :: k in Positions(hs, c) <==> 0 <= k < |hs| && hs[k] == c
    ensures forall i, j :: 0 <= i < j < |Positions(hs, c)| ==> Positions(hs, c)[i] < Positions(hs, c)[j]
    decreases |hs|
  {
    if hs != [] {
      var init := hs[..|hs| - 1];
      PositionsSpec(init, c);
      assert forall k :: 0 <= k < |init| ==> init[k] == hs[k];
      var ps := Positions(init, c);
      assert forall i :: 0 <= i < |ps| ==> ps[i] in ps;
    }
  }

  /** What `c in df.columns and pd.notna(row.get(c))` finds. */
  datatype Probe = NoValue | Value(text: string) | Ambiguous

  function ProbeColumn(hs: seq<string>, row: Row, c: string): Probe
  {
    var ps := Positions(hs, c);
    if |ps| == 0 then NoValue
    else if |ps| > 1 then Ambiguous
    else if ps[0] < |row| && row[ps[0]].Some? then Value(row[ps[0]].value)
    else NoValue
  }

  /** A column that is absent gives no value; one that occurs once gives its
      cell (or no value for NaN); one that occurs twice is ambiguous. */
  lemma ProbeCases(hs: seq<string>, row: Row, c: string)
    ensures (forall k :: 0 <= k < |hs| ==> hs[k] != c) ==> ProbeColumn(hs, row, c) == NoValue
    ensures forall k :: 0 <= k < |hs| && hs[k] == c && (forall j :: 0 <= j < |hs| && hs[j] == c ==> j == k) ==>
              ProbeColumn(hs, row, c) == (if k < |row| && row[k].Some? then Value(row[k].value) else NoValue)
    ensures ProbeColumn(hs, row, c) == Ambiguous <==>
              exists i, j :: 0 <= i < j < |hs| && hs[i] == c && hs[j] == c
  {
    var ps := Positions(hs, c);
    PositionsSpec(hs, c);
    if |ps| > 0 {
      assert ps[0] in ps;
    }
    if |ps| > 1 {
      assert ps[0] in ps && ps[1] in ps;
    }
    forall k | 0 <= k < |hs| && hs[k] == c && (forall j :: 0 <= j < |hs| && hs[j] == c ==> j == k)
      ensures ps == [k]
    {
      assert k in ps;
      assert forall m :: 0 <= m < |ps| ==> ps[m] in ps;
    }
  }

  // ---------------------------------------------------------------------
  // Name and sector of one row

  /** A trimmed cell value accepted as a name: `v and v.lower() not in ("nan", "none")`. */
  predicate Usable(v: string)
  {
    v != [] && !IsNullText(v)
  }

  /** The search over the name candidates, in order, stopping at the first
      usable value. */
  function NameFrom(hs: seq<string>, row: Row, cands: seq<string>): Result<Option<string>, Error>
    decreases |cands|
  {
    if cands == [] then Ok(None)
    else match ProbeColumn(hs, row, cands[0])
      case Ambiguous => Err(AmbiguousColumn(cands[0]))
      case NoValue => NameFrom(hs, row, cands[1..])
      case Value(v) => if Usable(Strip(v)) then Ok(Some(Strip(v))) else NameFrom(hs, row, cands[1..])
  }

  /** The search over the sector candidates: the first present, non-missing
      value is taken, trimmed, with no check that it is not empty. */
  function SectorFrom(hs: seq<string>, row: Row, cands: seq<string>): Result<Option<string>, Error>
    decreases |cands|
  {
    if cands == [] then Ok(None)
    else match ProbeColumn(hs, row, cands[0])
      case Ambiguous => Err(AmbiguousColumn(cands[0]))
      case NoValue => SectorFrom(hs, row, cands[1..])
      case Value(v) => Ok(Some(Strip(v)))
  }

  function RowName(hs: seq<string>, row: Row): Result<Option<string>, Error>
  {
    NameFrom(hs, row, NameColumns)
  }

  function RowSector(hs: seq<string>, row: Row): Result<Option<string>, Error>
  {
    SectorFrom(hs, row, SectorColumns)
  }

  /** Candidate `c` is passed over by the name search. */
  predicate NameRejects(hs: seq<string>, row: Row, c: string)
  {
    match ProbeColumn(hs, row, c)
    case NoValue => true
    case Value(v) => !Usable(Strip(v))
    case Ambiguous => false
  }

  /** Candidate `c` supplies the name `n`. */
  predicate NameYields(hs: seq<string>, row: Row, c: string, n: string)
  {
    ProbeColumn(hs, row, c).Value? && Strip(ProbeColumn(hs, row, c).text) == n && Usable(n)
  }

  /** Candidates the name search passes over are skipped: the search goes on
      as if the list started after them. */
  lemma {:induction false} RejectedSkipped(hs: seq<string>, row: Row, cands: seq<string>, k: nat)
    requires k <= |cands|
    requires forall j :: 0 <= j < k ==> NameRejects(hs, row, cands[j])
    ensures NameFrom(hs, row, cands) == NameFrom(hs, row, cands[k..])
    decreases k
  {
    if k > 0 {
      assert NameRejects(hs, row, cands[0]);
      var rest := cands[1..];
      assert forall j :: 0 <= j < k - 1 ==> rest[j] == cands[j + 1];
      RejectedSkipped(hs, row, rest, k - 1);
      assert rest[k - 1..] == cands[k..];
    }
  }

  /** A name found in a row comes from some candidate that yields it, every
      earlier candidate having been passed over. */
  lemma {:induction false} NameOrigin(hs: seq<string>, row: Row, cands: seq<string>, n: string) returns (k: nat)
    requires NameFrom(hs, row, cands) == Ok(Some(n))
    ensures k < |cands| && NameYields(hs, row, cands[k], n)
    ensures forall j :: 0 <= j < k ==> NameRejects(hs, row, cands[j])
    decreases |cands|
  {
    if NameYields(hs, row, cands[0], n) {
      k := 0;
    } else {
      var rest := cands[1..];
      var k' := NameOrigin(hs, row, rest, n);
      k := k' + 1;
      assert forall j :: 0 < j < k ==> cands[j] == rest[j - 1];
    }
  }

  /** Column priority: a row's name is `n` exactly when some candidate yields
      `n` and every earlier candidate is passed over (missing, NaN, blank after
      trimming, or a "nan"/"none" placeholder). */
  lemma NamePriority(hs: seq<string>, row: Row, cands: seq<string>, n: string)
    ensures NameFrom(hs, row, cands) == Ok(Some(n)) <==>
              exists k :: 0 <= k < |cands| && NameYields(hs, row, cands[k], n)
                          && forall j :: 0 <= j < k ==> NameRejects(hs, row, cands[j])
  {
    if NameFrom(hs, row, cands) == Ok(Some(n)) {
      var k := NameOrigin(hs, row, cands, n);
    }
    forall k | 0 <= k < |cands| && NameYields(hs, row, cands[k], n)
                && forall j :: 0 <= j < k ==> NameRejects(hs, row, cands[j])
      ensures NameFrom(hs, row, cands) == Ok(Some(n))
    {
      RejectedSkipped(hs, row, cands, k);
      assert cands[k..][0] == cands[k];
    }
  }

  /** A row has no name exactly when every candidate is passed over. */
  lemma {:induction false} NameAbsent(hs: seq<string>, row: Row, cands: seq<string>)
    ensures NameFrom(hs, row, cands) == Ok(None) <==>
              forall k :: 0 <= k < |cands| ==> NameRejects(hs, row, cands[k])
    decreases |cands|
  {
    if cands != [] {
      var rest := cands[1..];
      NameAbsent(hs, row, rest);
      assert forall k :: 0 < k < |cands| ==> cands[k] == rest[k - 1];
      assert forall k :: 0 <= k < |rest| ==> rest[k] == cands[k + 1];
    }
  }

  /** The name search raises exactly at the first candidate it reaches that
      occurs twice among the headers. */
  lemma {:induction false} NameError(hs: seq<string>, row: Row, cands: seq<string>, c: string)
    ensures NameFrom(hs, row, cands) == Err(AmbiguousColumn(c)) <==>
              exists k :: 0 <= k < |cands| && cands[k] == c && ProbeColumn(hs, row, c) == Ambiguous
                          && forall j :: 0 <= j < k ==> NameRejects(hs, row, cands[j])
    decreases |cands|
  {
    if cands != [] {
      var rest := cands[1..];
      NameError(hs, row, rest, c);
      assert forall k :: 0 < k < |cands| ==> cands[k] == rest[k - 1];
      if NameFrom(hs, row, cands) == Err(AmbiguousColumn(c)) && ProbeColumn(hs, row, cands[0]) != Ambiguous {
        var k :| 0 <= k < |rest| && rest[k] == c && ProbeColumn(hs, row, c) == Ambiguous
                 && forall j :: 0 <= j < k ==> NameRejects(hs, row, rest[j]);
        assert forall j :: 0 <= j < k + 1 ==> NameRejects(hs, row, cands[j]);
      }
    }
  }

  /** A name found in a row is trimmed, not empty and not a placeholder. */
  lemma {:induction false} NameIsClean(hs: seq<string>, row: Row, cands: seq<string>)
    requires NameFrom(hs, row, cands).Ok? && NameFrom(hs, row, cands).value.Some?
    ensures Usable(NameFrom(hs, row, cands).value.value) && IsStripped(NameFrom(hs, row, cands).value.value)
    decreases |cands|
  {
    match ProbeColumn(hs, row, cands[0])
    case NoValue => NameIsClean(hs, row, cands[1..]);
    case Value(v) =>
      if Usable(Strip(v)) {
        StripIsInnerPart(v);
      } else {
        NameIsClean(hs, row, cands[1..]);
      }
  }

  /** Candidates without a value are skipped by the sector search. */
  lemma {:induction false} MissingSectorSkipped(hs: seq<string>, row: Row, cands: seq<string>, k: nat)
    requires k <= |cands|
    requires forall j :: 0 <= j < k ==> ProbeColumn(hs, row, cands[j]) == NoValue
    ensures SectorFrom(hs, row, cands) == SectorFrom(hs, row, cands[k..])
    decreases k
  {
    if k > 0 {
      assert ProbeColumn(hs, row, cands[0]) == NoValue;
      var rest := cands[1..];
      assert forall j :: 0 <= j < k - 1 ==> rest[j] == cands[j + 1];
      MissingSectorSkipped(hs, row, rest, k - 1);
      assert rest[k - 1..] == cands[k..];
    }
  }

  lemma {:induction false} SectorOrigin(hs: seq<string>, row: Row, cands: seq<string>, s: string) returns (k: nat)
    requires SectorFrom(hs, row, cands) == Ok(Some(s))
    ensures k < |cands| && ProbeColumn(hs, row, cands[k]).Value? && Strip(ProbeColumn(hs, row, cands[k]).text) == s
    ensures forall j :: 0 <= j < k ==> ProbeColumn(hs, row, cands[j]) == NoValue
    decreases |cands|
  {
    if ProbeColumn(hs, row, cands[0]).Value? {
      k := 0;
    } else {
      var rest := cands[1..];
      var k' := SectorOrigin(hs, row, rest, s);
      k := k' + 1;
      assert forall j :: 0 < j < k ==> cands[j] == rest[j - 1];
    }
  }

  /** The sector is the trimmed text of the first candidate that is present
      and not missing, with no check on that text: it may be empty. */
  lemma SectorPriority(hs: seq<string>, row: Row, cands: seq<string>, s: string)
    ensures SectorFrom(hs, row, cands) == Ok(Some(s)) <==>
              exists k :: 0 <= k < |cands| && ProbeColumn(hs, row, cands[k]).Value?
                          && Strip(ProbeColumn(hs, row, cands[k]).text) == s
                          && forall j :: 0 <= j < k ==> ProbeColumn(hs, row, cands[j]) == NoValue
  {
    if SectorFrom(hs, row, cands) == Ok(Some(s)) {
      var k := SectorOrigin(hs, row, cands, s);
    }
    forall k | 0 <= k < |cands| && ProbeColumn(hs, row, cands[k]).Value?
                && Strip(ProbeColumn(hs, row, cands[k]).text) == s
                && forall j :: 0 <= j < k ==> ProbeColumn(hs, row, cands[j]) == NoValue
      ensures SectorFrom(hs, row, cands) == Ok(Some(s))
    {
      MissingSectorSkipped(hs, row, cands, k);
      assert cands[k..][0] == cands[k];
    }
  }

  /** A row has no sector exactly when no candidate has a value. */
  lemma {:induction false} SectorAbsent(hs: seq<string>, row: Row, cands: seq<string>)
    ensures SectorFrom(hs, row, cands) == Ok(None) <==>
              forall k :: 0 <= k < |cands| ==> ProbeColumn(hs, row, cands[k]) == NoValue
    decreases |cands|
  {
    if cands != [] {
      var rest := cands[1..];
      SectorAbsent(hs, row, rest);
      assert forall k :: 0 < k < |cands| ==> cands[k] == rest[k - 1];
      assert forall k :: 0 <= k < |rest| ==> rest[k] == cands[k + 1];
    }
  }

  /** The sector search raises exactly at the first candidate it reaches that
      occurs twice among the headers. */
  lemma {:induction false} SectorError(hs: seq<string>, row: Row, cands: seq<string>, c: string)
    ensures SectorFrom(hs, row, cands) == Err(AmbiguousColumn(c)) <==>
              exists k :: 0 <= k < |cands| && cands[k] == c && ProbeColumn(hs, row, c) == Ambiguous
                          && forall j :: 0 <= j < k ==> ProbeColumn(hs, row, cands[j]) == NoValue
    decreases |cands|
  {
    if cands != [] {
      var rest := cands[1..];
      SectorError(hs, row, rest, c);
      assert forall k :: 0 < k < |cands| ==> cands[k] == rest[k - 1];
      if SectorFrom(hs, row, cands) == Err(AmbiguousColumn(c)) && ProbeColumn(hs, row, cands[0]) != Ambiguous {
        var k :| 0 <= k < |rest| && rest[k] == c && ProbeColumn(hs, row, c) == Ambiguous
                 && forall j :: 0 <= j < k ==> ProbeColumn(hs, row, rest[j]) == NoValue;
        assert forall j :: 0 <= j < k + 1 ==> ProbeColumn(hs, row, cands[j]) == NoValue;
      }
    }
  }

  /** The inner loop over `name_cols` that breaks at the first usable name. */
  method PickName(hs: seq<string>, row: Row) returns (r: Result<Option<string>, Error>)
    ensures r == RowName(hs, row)
  {
    r := Ok(None);
    for i := 0 to |NameColumns|
      invariant NameFrom(hs, row, NameColumns[i..]) == RowName(hs, row)
      invariant r == Ok(None)
    {
      var c := NameColumns[i];
      assert NameColumns[i..][0] == c && NameColumns[i..][1..] == NameColumns[i + 1..];
      var p := ProbeColumn(hs, row, c);
      if p.Ambiguous? {
        return Err(AmbiguousColumn(c));
      }
      if p.Value? {
        var v := Strip(p.text);
        if v != [] && !IsNullText(v) {
          r := Ok(Some(v));
          break;
        }
      }
    }
  }

  /** The inner loop over `sector_cols` that breaks at the first value. */
  method PickSector(hs: seq<string>, row: Row) returns (r: Result<Option<string>, Error>)
    ensures r == RowSector(hs, row)
  {
    r := Ok(None);
    for i := 0 to |SectorColumns|
      invariant SectorFrom(hs, row, SectorColumns[i..]) == RowSector(hs, row)
      invariant r == Ok(None)
    {
      var c := SectorColumns[i];
      assert SectorColumns[i..][0] == c && SectorColumns[i..][1..] == SectorColumns[i + 1..];
      var p := ProbeColumn(hs, row, c);
      if p.Ambiguous? {
        return Err(AmbiguousColumn(c));
      }
      if p.Value? {
        r := Ok(Some(Strip(p.text)));
        break;
      }
    }
  }

  // ---------------------------------------------------------------------
  // The extraction loop

  /** What one iteration of the row loop learns from its row: the outcome of
      the name search and, should the name be new, of the sector search. */
  datatype RowView = RowView(name: Result<Option<string>, Error>, sector: Result<Option<string>, Error>)

  function ViewOf(hs: seq<string>, row: Row): RowView
  {
    RowView(RowName(hs, row), RowSector(hs, row))
  }

  function Views(hs: seq<string>, rows: seq<Row>): seq<RowView>
  {
    seq(|rows|, i requires 0 <= i < |rows| => ViewOf(hs, rows[i]))
  }

  lemma ViewsAppend(hs: seq<string>, a: seq<Row>, b: seq<Row>)
    ensures Views(hs, a + b) == Views(hs, a) + Views(hs, b)
  {
    var ab := a + b;
    assert forall i :: 0 <= i < |b| ==> ab[|a| + i] == b[i];
  }

  function NameSet(assets: seq<Asset>): set<string>
  {
    set a | a in assets :: a.name
  }

  lemma NameSetSnoc(assets: seq<Asset>, x: Asset)
    ensures NameSet(assets + [x]) == NameSet(assets) + {x.name}
  {
    var all := assets + [x];
    assert x == all[|assets|];
    forall a | a in all ensures a in assets || a == x {
      var i :| 0 <= i < |all| && all[i] == a;
      if i < |assets| { assert a == assets[i]; }
    }
  }

  /** One iteration of the row loop, given the assets appended so far. */
  function Admit(assets: seq<Asset>, v: RowView): Result<seq<Asset>, Error>
  {
    match v.name
    case Err(e) => Err(e)
    case Ok(None) => Ok(assets)
    case Ok(Some(n)) =>
      if n in NameSet(assets) then Ok(assets)
      else match v.sector
        case Err(e) => Err(e)
        case Ok(s) => Ok(assets + [Asset(n, s)])
  }

  /** The row loop over the views of the rows, in order. */
  function Dedup(vs: seq<RowView>): Result<seq<Asset>, Error>
    decreases |vs|
  {
    if vs == [] then Ok([])
    else match Dedup(vs[..|vs| - 1])
      case Err(e) => Err(e)
      case Ok(prev) => Admit(prev, vs[|vs| - 1])
  }

  /** The asset list the loop builds from `rows`, before the fallback. */
  function Extract(hs: seq<string>, rows: seq<Row>): Result<seq<Asset>, Error>
  {
    Dedup(Views(hs, rows))
  }

  /** Once a row raises, the whole loop raises the same error. */
  lemma {:induction false} ErrorPersists(vs: seq<RowView>, i: nat)
    requires i <= |vs| && Dedup(vs[..i]).Err?
    ensures Dedup(vs) == Dedup(vs[..i])
    decreases |vs|
  {
    if i < |vs| {
      var prefix := vs[..|vs| - 1];
      assert prefix[..i] == vs[..i];
      ErrorPersists(prefix, i);
    } else {
      assert vs[..i] == vs;
    }
  }

  /** One more row of the loop: the outcome on the first `i + 1` views is one
      iteration of the loop body applied to the outcome on the first `i`. */
  lemma DedupPrefixStep(vs: seq<RowView>, i: nat)
    requires i < |vs|
    ensures Dedup(vs[..i + 1]) == match Dedup(vs[..i]) case Err(e) => Err(e) case Ok(prev) => Admit(prev, vs[i])
  {
    assert vs[..i + 1][..i] == vs[..i];
  }

  /** The `for _, row in df.iterrows()` loop; `seen` is at every iteration the
      set of names already appended. */
  method ExtractAssets(hs: seq<string>, rows: seq<Row>) returns (r: Result<seq<Asset>, Error>)
    ensures r == Extract(hs, rows)
  {
    ghost var vs := Views(hs, rows);
    var seen: set<string> := {};
    var assets: seq<Asset> := [];
    for i := 0 to |rows|
      invariant Dedup(vs[..i]) == Ok(assets)
      invariant seen == NameSet(assets)
    {
      DedupPrefixStep(vs, i);
      var row := rows[i];
      var name := PickName(hs, row);
      assert name == vs[i].name;
      if name.Err? {
        ErrorPersists(vs, i + 1);
        return Err(name.error);
      }
      if name.value.None? {
        continue;
      }
      var n := name.value.value;
      if n in seen {
        continue;
      }
      seen := seen + {n};
      var sector := PickSector(hs, row);
      assert sector == vs[i].sector;
      if sector.Err? {
        ErrorPersists(vs, i + 1);
        return Err(sector.error);
      }
      NameSetSnoc(assets, Asset(n, sector.value));
      assets := assets + [Asset(n, sector.value)];
    }
    assert vs[..|rows|] == vs;
    return Ok(assets);
  }

  // ---------------------------------------------------------------------
  // What the extraction loop produces

  predicate DistinctNames(assets: seq<Asset>)
  {
    forall i, j :: 0 <= i < j < |assets| ==> assets[i].name != assets[j].name
  }

  /** The names the name search finds in the views, duplicates included. */
  function ViewNames(vs: seq<RowView>): set<string>
  {
    set i | 0 <= i < |vs| && vs[i].name.Ok? && vs[i].name.value.Some? :: vs[i].name.value.value
  }

  lemma ViewNamesSnoc(vs: seq<RowView>, v: RowView)
    ensures ViewNames(vs + [v]) ==
              ViewNames(vs) + (if v.name.Ok? && v.name.value.Some? then {v.name.value.value} else {})
  {
    var all := vs + [v];
    assert all[|vs|] == v;
    assert forall i :: 0 <= i < |vs| ==> all[i] == vs[i];
  }

  /** The loop appends no name twice, and the names it appends are exactly
      the names found in the rows. */
  lemma {:induction false} DedupNames(vs: seq<RowView>)
    requires Dedup(vs).Ok?
    ensures DistinctNames(Dedup(vs).value)
    ensures NameSet(Dedup(vs).value) == ViewNames(vs)
    decreases |vs|
  {
    if vs != [] {
      var m := |vs| - 1;
      var prefix := vs[..m];
      var v := vs[m];
      assert Dedup(prefix).Ok?;
      DedupNames(prefix);
      ViewNamesSnoc(prefix, v);
      assert prefix + [v] == vs;
      var prev := Dedup(prefix).value;
      if v.name.value.Some? && v.name.value.value !in NameSet(prev) {
        NameSetSnoc(prev, Asset(v.name.value.value, v.sector.value));
        assert forall k :: 0 <= k < |prev| ==> prev[k] in prev;
      }
    }
  }

  /** Extracted names are pairwise distinct, and each is trimmed, not empty
      and not a placeholder. */
  lemma ExtractedNamesClean(hs: seq<string>, rows: seq<Row>)
    requires Extract(hs, rows).Ok?
    ensures DistinctNames(Extract(hs, rows).value)
    ensures forall k :: 0 <= k < |Extract(hs, rows).value| ==>
              Usable(Extract(hs, rows).value[k].name) && IsStripped(Extract(hs, rows).value[k].name)
  {
    var vs := Views(hs, rows);
    var assets := Extract(hs, rows).value;
    DedupNames(vs);
    forall k | 0 <= k < |assets|
      ensures Usable(assets[k].name) && IsStripped(assets[k].name)
    {
      assert assets[k].name in NameSet(assets);
      var i :| 0 <= i < |vs| && vs[i].name.Ok? && vs[i].name.value.Some? && vs[i].name.value.value == assets[k].name;
      NameIsClean(hs, rows[i], NameColumns);
    }
  }

  lemma DedupSnoc(vs: seq<RowView>, v: RowView)
    ensures Dedup(vs + [v]) == match Dedup(vs) case Err(e) => Err(e) case Ok(prev) => Admit(prev, v)
  {
    assert (vs + [v])[..|vs|] == vs;
  }

  /** Prefixes that produce equal results keep doing so when the same rows follow. */
  lemma {:induction false} ExtendCongruence(a: seq<RowView>, a': seq<RowView>, b: seq<RowView>)
    requires Dedup(a) == Dedup(a')
    ensures Dedup(a + b) == Dedup(a' + b)
    decreases |b|
  {
    if b == [] {
      assert a + b == a && a' + b == a';
    } else {
      var b0 := b[..|b| - 1];
      var last := b[|b| - 1];
      ExtendCongruence(a, a', b0);
      assert a + b == (a + b0) + [last];
      assert a' + b == (a' + b0) + [last];
      DedupSnoc(a + b0, last);
      DedupSnoc(a' + b0, last);
    }
  }

  /** A row without a usable name contributes nothing, wherever it stands. */
  lemma NamelessRowIgnored(hs: seq<string>, a: seq<Row>, row: Row, b: seq<Row>)
    requires RowName(hs, row) == Ok(None)
    ensures Extract(hs, a + [row] + b) == Extract(hs, a + b)
  {
    ViewsAppend(hs, a, [row]);
    ViewsAppend(hs, a + [row], b);
    ViewsAppend(hs, a, b);
    var va := Views(hs, a);
    var vr := va + Views(hs, [row]);
    assert vr[..|va|] == va;
    ExtendCongruence(vr, va, Views(hs, b));
  }

  /** First occurrence wins: a row whose name an earlier row already gave
      changes nothing, wherever it stands and whatever its sector columns hold. */
  lemma DuplicateRowIgnored(hs: seq<string>, a: seq<Row>, row: Row, b: seq<Row>, n: string)
    requires Extract(hs, a).Ok? && n in NameSet(Extract(hs, a).value)
    requires RowName(hs, row) == Ok(Some(n))
    ensures Extract(hs, a + [row] + b) == Extract(hs, a + b)
  {
    ViewsAppend(hs, a, [row]);
    ViewsAppend(hs, a + [row], b);
    ViewsAppend(hs, a, b);
    var va := Views(hs, a);
    var vr := va + Views(hs, [row]);
    assert vr[..|va|] == va;
    ExtendCongruence(vr, va, Views(hs, b));
  }

  /** The view at `j` carries a name that no earlier view carries. */
  predicate IsFirstNamed(vs: seq<RowView>, j: nat)
    requires j < |vs|
  {
    vs[j].name.Ok? && vs[j].name.value.Some? && vs[j].name.value.value !in ViewNames(vs[..j])
  }

  /** The indices of the rows that carry a name for the first time, in order. */
  ghost function FirstNamed(vs: seq<RowView>): seq<nat>
    decreases |vs|
  {
    if vs == [] then []
    else FirstNamed(vs[..|vs| - 1]) + (if IsFirstNamed(vs, |vs| - 1) then [|vs| - 1] else [])
  }

  /** `FirstNamed` lists every row that carries a name for the first time and
      no other row, in increasing order. */
  lemma {:induction false} FirstNamedSpec(vs: seq<RowView>)
    ensures forall j :: j in FirstNamed(vs) <==> 0 <= j < |vs| && IsFirstNamed(vs, j)
    ensures forall a, b :: 0 <= a < b < |FirstNamed(vs)| ==> FirstNamed(vs)[a] < FirstNamed(vs)[b]
    decreases |vs|
  {
    if vs != [] {
      var m := |vs| - 1;
      var prefix := vs[..m];
      FirstNamedSpec(prefix);
      assert forall j :: 0 <= j < m ==> prefix[..j] == vs[..j] && prefix[j] == vs[j];
      var js := FirstNamed(prefix);
      assert forall a :: 0 <= a < |js| ==> js[a] in js;
    }
  }

  /** The loop's result is exactly the rows that carry a name for the first
      time, in row order, each giving its own name and its own sector. */
  lemma {:induction false} DedupKeepsFirstNamed(vs: seq<RowView>)
    requires Dedup(vs).Ok?
    ensures |Dedup(vs).value| == |FirstNamed(vs)|
    ensures forall k :: 0 <= k < |FirstNamed(vs)| ==>
              FirstNamed(vs)[k] < |vs|
              && vs[FirstNamed(vs)[k]].name == Ok(Some(Dedup(vs).value[k].name))
              && vs[FirstNamed(vs)[k]].sector == Ok(Dedup(vs).value[k].sector)
    decreases |vs|
  {
    if vs != [] {
      var m := |vs| - 1;
      var prefix := vs[..m];
      var v := vs[m];
      DedupPrefixStep(vs, m);
      assert vs[..m + 1] == vs;
      assert Dedup(prefix).Ok?;
      var prev := Dedup(prefix).value;
      DedupKeepsFirstNamed(prefix);
      DedupNames(prefix);
      assert NameSet(prev) == ViewNames(prefix);
      var js := FirstNamed(prefix);
      assert FirstNamed(vs) == js + (if IsFirstNamed(vs, m) then [m] else []);
      if IsFirstNamed(vs, m) {
        var n := v.name.value.value;
        assert n !in NameSet(prev);
        var a := Asset(n, v.sector.value);
        assert Dedup(vs) == Ok(prev + [a]);
        forall k | 0 <= k < |FirstNamed(vs)|
          ensures FirstNamed(vs)[k] < |vs|
          ensures vs[FirstNamed(vs)[k]].name == Ok(Some(Dedup(vs).value[k].name))
          ensures vs[FirstNamed(vs)[k]].sector == Ok(Dedup(vs).value[k].sector)
        {
          if k < |js| {
            assert FirstNamed(vs)[k] == js[k] && Dedup(vs).value[k] == prev[k];
            assert vs[js[k]] == prefix[js[k]];
          } else {
            assert FirstNamed(vs)[k] == m && Dedup(vs).value[k] == a;
          }
        }
      } else {
        assert Dedup(vs) == Ok(prev);
        assert FirstNamed(vs) == js;
        assert forall k :: 0 <= k < |js| ==> vs[js[k]] == prefix[js[k]];
      }
    }
  }

  /** The same, stated of the rows of a table. */
  lemma ExtractKeepsFirstNamedRows(hs: seq<string>, rows: seq<Row>)
    requires Extract(hs, rows).Ok?
    ensures var js := FirstNamed(Views(hs, rows));
            var assets := Extract(hs, rows).value;
            |assets| == |js|
            && forall k :: 0 <= k < |js| ==>
                 js[k] < |rows|
                 && RowName(hs, rows[js[k]]) == Ok(Some(assets[k].name))
                 && RowSector(hs, rows[js[k]]) == Ok(assets[k].sector)
  {
    DedupKeepsFirstNamed(Views(hs, rows));
  }

  /** With every view free of errors, the loop succeeds. */
  lemma {:induction false} DedupOk(vs: seq<RowView>)
    requires forall i :: 0 <= i < |vs| ==> vs[i].name.Ok? && vs[i].sector.Ok?
    ensures Dedup(vs).Ok?
    decreases |vs|
  {
    if vs != [] {
      DedupOk(vs[..|vs| - 1]);
    }
  }

  /** Extraction fails only when a candidate column occurs twice among the
      headers: with every candidate at most once, it always succeeds. */
  lemma NoRepeatedCandidateNoError(hs: seq<string>, rows: seq<Row>)
    requires forall i, j :: 0 <= i < j < |hs| && hs[i] == hs[j] ==> hs[i] !in NameColumns && hs[i] !in SectorColumns
    ensures Extract(hs, rows).Ok?
  {
    forall row: Row
      ensures RowName(hs, row).Ok? && RowSector(hs, row).Ok?
    {
      forall c | c in NameColumns || c in SectorColumns
        ensures ProbeColumn(hs, row, c) != Ambiguous
      {
        ProbeCases(hs, row, c);
      }
      NameSearchOk(hs, row, NameColumns);
      SectorSearchOk(hs, row, SectorColumns);
    }
    DedupOk(Views(hs, rows));
  }

  lemma {:induction false} NameSearchOk(hs: seq<string>, row: Row, cands: seq<string>)
    requires forall k :: 0 <= k < |cands| ==> ProbeColumn(hs, row, cands[k]) != Ambiguous
    ensures NameFrom(hs, row, cands).Ok?
    decreases |cands|
  {
    if cands != [] {
      assert forall k :: 0 <= k < |cands[1..]| ==> cands[1..][k] == cands[k + 1];
      NameSearchOk(hs, row, cands[1..]);
    }
  }

  lemma {:induction false} SectorSearchOk(hs: seq<string>, row: Row, cands: seq<string>)
    requires forall k :: 0 <= k < |cands| ==> ProbeColumn(hs, row, cands[k]) != Ambiguous
    ensures SectorFrom(hs, row, cands).Ok?
    decreases |cands|
  {
    if cands != [] {
      assert forall k :: 0 <= k < |cands[1..]| ==> cands[1..][k] == cands[k + 1];
      SectorSearchOk(hs, row, cands[1..]);
    }
  }

  /** Distinct names number as many as the list is long. */
  lemma {:induction false} DistinctNamesCount(assets: seq<Asset>)
    requires DistinctNames(assets)
    ensures |NameSet(assets)| == |assets|
    decreases |assets|
  {
    if assets != [] {
      var m := |assets| - 1;
      var prefix := assets[..m];
      DistinctNamesCount(prefix);
      assert prefix + [assets[m]] == assets;
      NameSetSnoc(prefix, assets[m]);
      assert assets[m].name !in NameSet(prefix) by {
        forall a | a in prefix ensures a.name != assets[m].name {
          var i :| 0 <= i < m && prefix[i] == a;
        }
      }
    }
  }

  /** The extracted list has one entry per distinct usable name in the rows. */
  lemma ExtractedCount(hs: seq<string>, rows: seq<Row>)
    requires Extract(hs, rows).Ok?
    ensures |Extract(hs, rows).value| == |RowNames(hs, rows)|
  {
    DedupNames(Views(hs, rows));
    DistinctNamesCount(Extract(hs, rows).value);
  }

  // ---------------------------------------------------------------------
  // Fallback and truncation

  /** The sheet after header normalisation. */
  function LoadedTable(workbook: Option<seq<Table>>): Table
  {
    NormalizeHeaders(SheetOf(workbook))
  }

  /** The fallback and the cap applied to the outcome of the row loop: the
      extracted list, or the demo list when it is empty, cut to its first
      `maxAssets` entries. */
  function Finalize(extracted: Result<seq<Asset>, Error>, maxAssets: nat): Result<seq<Asset>, Error>
  {
    match extracted
    case Err(e) => Err(e)
    case Ok(assets) =>
      var full := if assets == [] then DemoAssets else assets;
      Ok(full[..Min(|full|, maxAssets)])
  }

  /** The final asset list of a workbook. */
  function AssetsOf(workbook: Option<seq<Table>>, maxAssets: nat): Result<seq<Asset>, Error>
  {
    var t := LoadedTable(workbook);
    Finalize(Extract(t.headers, t.rows), maxAssets)
  }

  /** Lines 23-81 of the script: sheet choice, header trim, the row loop, the
      fallback and the cap, each reassigning `assets`. */
  method BuildAssets(workbook: Option<seq<Table>>, maxAssets: nat) returns (r: Result<seq<Asset>, Error>)
    ensures r == AssetsOf(workbook, maxAssets)
  {
    var t := SelectSheet(workbook);
    t := NormalizeHeaders(t);
    var extracted := ExtractAssets(t.headers, t.rows);
    if extracted.Err? {
      return Err(extracted.error);
    }
    var assets := extracted.value;
    if assets == [] {
      assets := DemoAssets;
    }
    assets := assets[..Min(|assets|, maxAssets)];
    return Ok(assets);
  }

  /** The distinct usable names the rows hold. */
  function RowNames(hs: seq<string>, rows: seq<Row>): set<string>
  {
    ViewNames(Views(hs, rows))
  }

  /** When some row has a usable name, the final list is a prefix of the
      extracted list of length min(number of distinct usable names, maxAssets). */
  lemma FinalFromExtracted(workbook: Option<seq<Table>>, maxAssets: nat)
    requires AssetsOf(workbook, maxAssets).Ok?
    requires RowNames(LoadedTable(workbook).headers, LoadedTable(workbook).rows) != {}
    ensures var t := LoadedTable(workbook);
            var final := AssetsOf(workbook, maxAssets).value;
            Extract(t.headers, t.rows).Ok?
            && |final| == Min(|RowNames(t.headers, t.rows)|, maxAssets)
            && final <= Extract(t.headers, t.rows).value
  {
    var t := LoadedTable(workbook);
    var ex := Extract(t.headers, t.rows);
    assert AssetsOf(workbook, maxAssets) == Finalize(ex, maxAssets);
    ExtractedCount(t.headers, t.rows);
    var assets := ex.value;
    assert assets != [];
    var final := assets[..Min(|assets|, maxAssets)];
    assert AssetsOf(workbook, maxAssets) == Ok(final);
    assert |final| == Min(|RowNames(t.headers, t.rows)|, maxAssets);
  }

  /** When no row has a usable name, the final list is the demo list, cut to
      `maxAssets` like any other list. */
  lemma FallbackWhenNothingExtracted(workbook: Option<seq<Table>>, maxAssets: nat)
    requires AssetsOf(workbook, maxAssets).Ok?
    requires RowNames(LoadedTable(workbook).headers, LoadedTable(workbook).rows) == {}
    ensures AssetsOf(workbook, maxAssets).value == DemoAssets[..Min(6, maxAssets)]
  {
    var t := LoadedTable(workbook);
    var ex := Extract(t.headers, t.rows);
    assert AssetsOf(workbook, maxAssets) == Finalize(ex, maxAssets);
    ExtractedCount(t.headers, t.rows);
    assert ex.value == [];
  }

  /** A missing workbook, or one in which no sheet has data, yields the demo
      list cut to `maxAssets`: all six entries under the default cap of 12. */
  lemma NoDataFallsBack(workbook: Option<seq<Table>>, maxAssets: nat)
    requires workbook.None? || forall j :: 0 <= j < |workbook.value| ==> !HasData(workbook.value[j])
    ensures AssetsOf(workbook, maxAssets) == Ok(DemoAssets[..Min(6, maxAssets)])
    ensures maxAssets >= 6 ==> AssetsOf(workbook, maxAssets) == Ok(DemoAssets)
  {
    if workbook.Some? {
      NoSheetChosen(workbook.value);
    }
    var t := LoadedTable(workbook);
    assert t == EmptyTable;
    assert Views(t.headers, t.rows) == [];
    assert Extract(t.headers, t.rows) == Ok([]);
    assert AssetsOf(workbook, maxAssets) == Finalize(Ok([]), maxAssets);
    assert |DemoAssets| == 6 && DemoAssets[..6] == DemoAssets;
  }

  /** The final list is never longer than `maxAssets`, is empty exactly when
      `maxAssets` is zero, and holds distinct, usable, trimmed names. */
  lemma FinalListInvariants(workbook: Option<seq<Table>>, maxAssets: nat)
    requires AssetsOf(workbook, maxAssets).Ok?
    ensures |AssetsOf(workbook, maxAssets).value| <= maxAssets
    ensures AssetsOf(workbook, maxAssets).value == [] <==> maxAssets == 0
    ensures DistinctNames(AssetsOf(workbook, maxAssets).value)
    ensures forall k :: 0 <= k < |AssetsOf(workbook, maxAssets).value| ==>
              Usable(AssetsOf(workbook, maxAssets).value[k].name)
              && IsStripped(AssetsOf(workbook, maxAssets).value[k].name)
  {
    var t := LoadedTable(workbook);
    var ex := Extract(t.headers, t.rows);
    assert AssetsOf(workbook, maxAssets) == Finalize(ex, maxAssets);
    ExtractedNamesClean(t.headers, t.rows);
    DemoAssetsClean();
    var full := if ex.value == [] then DemoAssets else ex.value;
    assert DistinctNames(full);
    assert forall k :: 0 <= k < |full| ==> Usable(full[k].name) && IsStripped(full[k].name);
  }

  /** The demo list has six distinct, usable, trimmed names. */
  lemma DemoAssetsClean()
    ensures |DemoAssets| == 6 && DistinctNames(DemoAssets)
    ensures forall k :: 0 <= k < 6 ==> Usable(DemoAssets[k].name) && IsStripped(DemoAssets[k].name)
  {
    CleanName("Water Treatment Plant 1");
    CleanName("Substation Delta");
    CleanName("HQ and SCADA");
    CleanName("Cold Chain Hub North");
    CleanName("Corridor B Crossing");
    CleanName("Port Gate 3");
  }

  /** A text longer than "none" with no whitespace at either end is its own
      trimmed form and is accepted as a name. */
  lemma CleanName(v: string)
    requires |v| > 4 && !IsSpace(v[0]) && !IsSpace(v[|v| - 1])
    ensures Strip(v) == v && IsStripped(v) && Usable(v)
  {
    StrippedIsFixed(v);
    NullTextUpToCase(v);
  }
}
