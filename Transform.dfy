/** The transformer of `scripts/security_upsert.py` (`SecurityUpsertProcessor`):
    turning the provider's tabular JSON into one record per listed company,
    and pushing the records to the database one at a time.

    Reading and parsing the JSON file is not modelled: the parsed payload is
    the input. The database upsert is a parameter `upsert` giving, for a
    record, whether it was stored or the reason it was refused. */
module Transform {
  import opened Wrappers
  import opened Text
  import opened Dicts
  import opened Selection
  import opened Abbreviations

  /** One row of the table, keyed by column header in header order. */
  type Row = Dict<string, Scalar>

  /** The parts of the payload read: the header rows under `head` (the last
      one names the columns) and the data rows under `data`. */
  datatype Payload = Payload(head: seq<seq<string>>, data: seq<seq<Scalar>>)

  datatype ProcessError =
    | NoHeaderRow             // `data["head"][-1]` on an empty list
    | NotText(column: string) // `.strip()` or `.split()` on a value that is not a string

  const NseColumn: string := "NSE symbol"
  const BseColumn: string := "BSE scrip code"
  const CompanyColumn: string := "Company Name"

  // ---------------------------------------------------------------------
  // Rows
  // ---------------------------------------------------------------------

  /** `[dict(zip(headers, row)) for row in rows]`. */
  function BuildRows(headers: seq<string>, data: seq<seq<Scalar>>): seq<Row> {
    seq(|data|, i requires 0 <= i < |data| => FromPairs(Zip(headers, data[i])))
  }

  /** The rows of a payload, or the error of a payload without header rows. */
  function PayloadRows(payload: Payload): Result<seq<Row>, ProcessError> {
    if payload.head == [] then Failure(NoHeaderRow)
    else Success(BuildRows(payload.head[|payload.head| - 1], payload.data))
  }

  /** Each built row has distinct columns and, under a header that occurs more
      than once, the value of its last occurrence; cells past the end of the
      shorter of header row and data row are dropped. */
  lemma BuildRowsLookup(headers: seq<string>, data: seq<seq<Scalar>>, i: int, k: string)
    requires 0 <= i < |data|
    ensures UniqueKeys(BuildRows(headers, data)[i])
    ensures Get(BuildRows(headers, data)[i], k) == LastValue(Zip(headers, data[i]), k)
  {
    FromPairsUnique(Zip(headers, data[i]));
    FromPairsGet(Zip(headers, data[i]), k);
  }

  // ---------------------------------------------------------------------
  // Listed companies
  // ---------------------------------------------------------------------

  /** `row.get(column, '')` when it is a string; `None` for any other value,
      on which `.strip()` raises. */
  function TextValue(row: Row, column: string): Option<string> {
    match GetOr(row, column, Str(""))
    case Str(s) => Some(s)
    case _ => None
  }

  /** Whether the filter keeps `row`: a non-blank NSE symbol, else a non-blank
      BSE scrip code. The BSE code is only stripped when the NSE symbol is
      blank. */
  function IsListed(row: Row): Result<bool, ProcessError> {
    match TextValue(row, NseColumn)
    case None => Failure(NotText(NseColumn))
    case Some(nse) =>
      if Strip(nse) != "" then Success(true)
      else
        match TextValue(row, BseColumn)
        case None => Failure(NotText(BseColumn))
        case Some(bse) => Success(Strip(bse) != "")
  }

  predicate Kept(row: Row) {
    IsListed(row) == Success(true)
  }

  /** The rows the filtering loop keeps, or the first error it meets. */
  function ListedRows(rows: seq<Row>): Result<seq<Row>, ProcessError>
    decreases |rows|
  {
    if rows == [] then Success([])
    else
      var n := |rows| - 1;
      match ListedRows(rows[..n])
      case Failure(e) => Failure(e)
      case Success(init) =>
        match IsListed(rows[n])
        case Failure(e) => Failure(e)
        case Success(keep) => Success(if keep then init + [rows[n]] else init)
  }

  /** The filter fails exactly when some row's codes cannot be stripped. */
  lemma {:induction false} ListedRowsFails(rows: seq<Row>)
    ensures ListedRows(rows).Failure? <==> exists i :: 0 <= i < |rows| && IsListed(rows[i]).Failure?
    decreases |rows|
  {
    if rows != [] {
      var n := |rows| - 1;
      var init := rows[..n];
      ListedRowsFails(init);
      assert forall i :: 0 <= i < n ==> init[i] == rows[i];
      if ListedRows(init).Failure? {
        var i :| 0 <= i < |init| && IsListed(init[i]).Failure?;
        assert IsListed(rows[i]).Failure?;
      } else if IsListed(rows[n]).Success? {
        assert forall i :: 0 <= i < |rows| ==> IsListed(rows[i]).Success? by {
          forall i | 0 <= i < |rows| ensures IsListed(rows[i]).Success? {
            if i < n {
              assert !IsListed(init[i]).Failure?;
            }
          }
        }
      }
    }
  }

  /** A failed filter reports the error of the first row whose codes cannot be
      stripped. */
  lemma {:induction false} ListedRowsFirstError(rows: seq<Row>)
    requires ListedRows(rows).Failure?
    ensures exists i :: 0 <= i < |rows| && IsListed(rows[i]) == Failure(ListedRows(rows).error) &&
                        forall j :: 0 <= j < i ==> IsListed(rows[j]).Success?
    decreases |rows|
  {
    var n := |rows| - 1;
    var init := rows[..n];
    assert forall i :: 0 <= i < n ==> init[i] == rows[i];
    if ListedRows(init).Failure? {
      ListedRowsFirstError(init);
      var i :| 0 <= i < |init| && IsListed(init[i]) == Failure(ListedRows(init).error) &&
               forall j :: 0 <= j < i ==> IsListed(init[j]).Success?;
      assert IsListed(rows[i]) == Failure(ListedRows(rows).error);
    } else {
      ListedRowsFails(init);
      assert forall j :: 0 <= j < n ==> IsListed(rows[j]).Success? by {
        forall j | 0 <= j < n ensures IsListed(rows[j]).Success? {
          assert !IsListed(init[j]).Failure?;
        }
      }
    }
  }

  /** A successful filter succeeds on all rows but the last, and keeps the
      last one exactly when it is listed. */
  lemma ListedRowsStep(rows: seq<Row>)
    requires rows != [] && ListedRows(rows).Success?
    ensures var n := |rows| - 1;
      && ListedRows(rows[..n]).Success? && IsListed(rows[n]).Success?
      && ListedRows(rows).value == ListedRows(rows[..n]).value + (if Kept(rows[n]) then [rows[n]] else [])
  {
    var n := |rows| - 1;
    var init := ListedRows(rows[..n]);
    var listed := IsListed(rows[n]);
    assert init.Success? && listed.Success?;
    if listed.value {
      assert ListedRows(rows).value == init.value + [rows[n]];
    } else {
      assert ListedRows(rows).value == init.value;
      assert init.value + [] == init.value;
    }
  }

  /** A successful filter keeps exactly the listed rows, in their input order. */
  lemma {:induction false} ListedRowsPicks(rows: seq<Row>)
    requires ListedRows(rows).Success?
    ensures exists idx :: Selects(rows, Kept, idx, ListedRows(rows).value)
    decreases |rows|
  {
    if rows == [] {
      SelectsEmpty(Kept);
    } else {
      var n := |rows| - 1;
      var init := rows[..n];
      ListedRowsStep(rows);
      ListedRowsPicks(init);
      assert rows == init + [rows[n]];
      var idx :| Selects(init, Kept, idx, ListedRows(init).value);
      var out := ListedRows(init).value;
      SelectsExtend(init, Kept, idx, out, rows[n]);
      assert Selects(rows, Kept, idx + (if Kept(rows[n]) then [n] else []), ListedRows(rows).value);
    }
  }

  /** Once a prefix of the rows makes the filter fail, the whole input fails
      with the same error. */
  lemma {:induction false} ListedRowsFailurePersists(rows: seq<Row>, j: int)
    requires 0 <= j <= |rows|
    requires ListedRows(rows[..j]).Failure?
    ensures ListedRows(rows) == ListedRows(rows[..j])
    decreases |rows| - j
  {
    if j == |rows| {
      assert rows[..j] == rows;
    } else {
      var n := |rows| - 1;
      assert rows[..n][..j] == rows[..j];
      ListedRowsFailurePersists(rows[..n], j);
    }
  }

  /** The filtering loop of `process_prowess_data`. */
  method FilterListed(rows: seq<Row>) returns (r: Result<seq<Row>, ProcessError>)
    ensures r == ListedRows(rows)
  {
    var listed: seq<Row> := [];
    for i := 0 to |rows|
      invariant ListedRows(rows[..i]) == Success(listed)
    {
      assert rows[..i + 1][..i] == rows[..i];
      var nse := GetOr(rows[i], NseColumn, Str(""));
      var bse := GetOr(rows[i], BseColumn, Str(""));
      if !nse.Str? {
        ListedRowsFailurePersists(rows, i + 1);
        return Failure(NotText(NseColumn));
      }
      if Strip(nse.s) != "" {
        listed := listed + [rows[i]];
      } else if !bse.Str? {
        ListedRowsFailurePersists(rows, i + 1);
        return Failure(NotText(BseColumn));
      } else if Strip(bse.s) != "" {
        listed := listed + [rows[i]];
      }
    }
    assert rows[..|rows|] == rows;
    return Success(listed);
  }

  // ---------------------------------------------------------------------
  // Company names
  // ---------------------------------------------------------------------

  /** `row.get('Company Name', '')`. */
  function NameOf(row: Row): Scalar {
    GetOr(row, CompanyColumn, Str(""))
  }

  /** The truthy company names of the listed rows, in order, as strings;
      a truthy name that is not a string makes the abbreviation scan fail. */
  function CompanyNames(rows: seq<Row>): Result<seq<string>, ProcessError>
    decreases |rows|
  {
    if rows == [] then Success([])
    else
      var n := |rows| - 1;
      var name := NameOf(rows[n]);
      match CompanyNames(rows[..n])
      case Failure(e) => Failure(e)
      case Success(init) =>
        if !Truthy(name) then Success(init)
        else if name.Str? then Success(init + [name.s])
        else Failure(NotText(CompanyColumn))
  }

  /** The name list fails exactly when some truthy name is not a string;
      otherwise it holds exactly the non-empty string names of the rows. */
  lemma {:induction false} CompanyNamesSpec(rows: seq<Row>)
    ensures CompanyNames(rows).Failure? <==>
              exists i :: 0 <= i < |rows| && Truthy(NameOf(rows[i])) && !NameOf(rows[i]).Str?
    ensures CompanyNames(rows).Success? ==>
              forall s :: s in CompanyNames(rows).value <==>
                s != "" && exists i :: 0 <= i < |rows| && NameOf(rows[i]) == Str(s)
    decreases |rows|
  {
    if rows != [] {
      var n := |rows| - 1;
      var init := rows[..n];
      CompanyNamesSpec(init);
      assert forall i :: 0 <= i < n ==> init[i] == rows[i];
      if CompanyNames(rows).Success? {
        forall s | s != "" && exists i :: 0 <= i < |rows| && NameOf(rows[i]) == Str(s)
          ensures s in CompanyNames(rows).value
        {
          var i :| 0 <= i < |rows| && NameOf(rows[i]) == Str(s);
          if i < n {
            assert NameOf(init[i]) == Str(s);
          }
        }
      }
    }
  }

  /** The row after the renaming loop: a non-empty company name is replaced by
      its normalised form; nothing else changes. */
  function RenameCompany(row: Row, entries: Dict<string, string>): Row {
    match NameOf(row)
    case Str(s) => if s != "" then Put(row, CompanyColumn, Str(Normalize(entries, s))) else row
    case _ => row
  }

  /** Renaming touches the company name only, and only a non-empty string
      name. */
  lemma RenameCompanyLookups(row: Row, entries: Dict<string, string>, k: string)
    ensures Get(RenameCompany(row, entries), k) ==
      if k == CompanyColumn && NameOf(row).Str? && NameOf(row).s != ""
      then Some(Str(Normalize(entries, NameOf(row).s)))
      else Get(row, k)
  {
    if NameOf(row).Str? && NameOf(row).s != "" {
      PutGet(row, CompanyColumn, Str(Normalize(entries, NameOf(row).s)), k);
    }
  }

  /** What the expansion map holds for the name of row `i`: its normal form
      when the name is a non-empty string, nothing when it is empty. */
  lemma ExpandedNameOf(listed: seq<Row>, expanded: Dict<string, string>, entries: Dict<string, string>, i: int)
    requires CompanyNames(listed).Success?
    requires forall s :: HasKey(expanded, s) <==> s in CompanyNames(listed).value
    requires forall s :: s in CompanyNames(listed).value ==> Get(expanded, s) == Some(Normalize(entries, s))
    requires 0 <= i < |listed| && NameOf(listed[i]).Str?
    ensures var s := NameOf(listed[i]).s;
      Get(expanded, s) == if s != "" then Some(Normalize(entries, s)) else None
  {
    CompanyNamesSpec(listed);
    var s := NameOf(listed[i]).s;
    if s == "" {
      assert !HasKey(expanded, s);
    } else {
      assert s in CompanyNames(listed).value;
    }
  }

  /** The renaming loop of `process_prowess_data`: each row whose name has an
      entry in `expanded` gets that entry as its name. */
  method ApplyExpandedNames(listed: seq<Row>, expanded: Dict<string, string>, ghost entries: Dict<string, string>)
    returns (renamed: seq<Row>)
    requires CompanyNames(listed).Success?
    requires forall s :: HasKey(expanded, s) <==> s in CompanyNames(listed).value
    requires forall s :: s in CompanyNames(listed).value ==> Get(expanded, s) == Some(Normalize(entries, s))
    ensures |renamed| == |listed|
    ensures forall i :: 0 <= i < |listed| ==> renamed[i] == RenameCompany(listed[i], entries)
  {
    renamed := [];
    for i := 0 to |listed|
      invariant |renamed| == i
      invariant forall j :: 0 <= j < i ==> renamed[j] == RenameCompany(listed[j], entries)
    {
      var row := listed[i];
      var original := NameOf(row);
      if original.Str? {
        ExpandedNameOf(listed, expanded, entries, i);
        var expansion := Get(expanded, original.s);
        if expansion.Some? {
          row := Put(row, CompanyColumn, Str(expansion.value));
        }
      }
      renamed := renamed + [row];
    }
  }

  // ---------------------------------------------------------------------
  // Output records
  // ---------------------------------------------------------------------

  /** `key.lower().replace(' ', '_').replace('/', '_')`. */
  function SnakeCase(key: string): string {
    ReplaceAll(ReplaceAll(Lower(key), " ", "_"), "/", "_")
  }

  function SnakeChar(c: char): char {
    if c == ' ' || c == '/' then '_' else LowerChar(c)
  }

  /** Snake-casing works character by character: spaces and slashes become
      underscores, upper-case letters become lower-case. */
  lemma SnakeCaseChars(key: string)
    ensures |SnakeCase(key)| == |key|
    ensures forall i :: 0 <= i < |key| ==> SnakeCase(key)[i] == SnakeChar(key[i])
  {
    ReplaceChar(Lower(key), ' ', '_');
    ReplaceChar(Substitute(Lower(key), ' ', '_'), '/', '_');
  }

  /** The five columns the provider's layout repeats: source header, first
      copy, second copy. */
  const Duplicated: seq<(string, string, string)> := [
    ("Date", "date_1", "date_2"),
    ("Shares Outstanding", "shares_outstanding_1", "shares_outstanding_2"),
    ("Market Capitalisation", "market_capitalisation_1", "market_capitalisation_2"),
    ("Face Value", "face_value_1", "face_value_2"),
    ("Shares traded", "shares_traded_1", "shares_traded_2")
  ]

  predicate IsSecondCopy(key: string) {
    exists c :: 0 <= c < |Duplicated| && Duplicated[c].2 == key
  }

  /** The output key of a source column. */
  function TargetKey(key: string): string {
    if key == "Date" then "date_1"
    else if key == "Shares Outstanding" then "shares_outstanding_1"
    else if key == "Market Capitalisation" then "market_capitalisation_1"
    else if key == "Face Value" then "face_value_1"
    else if key == "Shares traded" then "shares_traded_1"
    else SnakeCase(key)
  }

  /** The row's items under their output keys, in order. */
  function Renamed(row: Row): seq<(string, Scalar)> {
    seq(|row|, i requires 0 <= i < |row| => (TargetKey(row[i].0), row[i].1))
  }

  /** The second copies written after the items: `out[second] = row.get(source)`,
      column by column. */
  function AddCopies(out: Row, row: Row, cols: seq<(string, string, string)>): Row
    decreases |cols|
  {
    if cols == [] then out
    else AddCopies(Put(out, cols[0].2, GetOr(row, cols[0].0, Null)), row, cols[1..])
  }

  /** The record `process_prowess_data` builds from a row. */
  function Transformed(row: Row): Row {
    AddCopies(FromPairs(Renamed(row)), row, Duplicated)
  }

  /** One more column adds its item, under its output key, to the dict. */
  lemma RenamedStep(row: Row, i: int)
    requires 0 <= i < |row|
    ensures FromPairs(Renamed(row[..i + 1])) == Put(FromPairs(Renamed(row[..i])), TargetKey(row[i].0), row[i].1)
  {
    var items := Renamed(row[..i + 1]);
    assert items[..i] == Renamed(row[..i]);
    assert items[i] == (TargetKey(row[i].0), row[i].1);
  }

  /** The item loop and the five second-copy assignments. */
  method TransformRow(row: Row) returns (out: Row)
    ensures out == Transformed(row)
  {
    out := [];
    for i := 0 to |row|
      invariant out == FromPairs(Renamed(row[..i]))
    {
      RenamedStep(row, i);
      var (key, value) := row[i];
      if key == "Date" {
        out := Put(out, "date_1", value);
      } else if key == "Shares Outstanding" {
        out := Put(out, "shares_outstanding_1", value);
      } else if key == "Market Capitalisation" {
        out := Put(out, "market_capitalisation_1", value);
      } else if key == "Face Value" {
        out := Put(out, "face_value_1", value);
      } else if key == "Shares traded" {
        out := Put(out, "shares_traded_1", value);
      } else {
        var snakeKey := ReplaceAll(ReplaceAll(Lower(key), " ", "_"), "/", "_");
        out := Put(out, snakeKey, value);
      }
    }
    assert row[..|row|] == row;
    ghost var items := out;
    out := Put(out, "date_2", GetOr(row, "Date", Null));
    out := Put(out, "shares_outstanding_2", GetOr(row, "Shares Outstanding", Null));
    out := Put(out, "market_capitalisation_2", GetOr(row, "Market Capitalisation", Null));
    out := Put(out, "face_value_2", GetOr(row, "Face Value", Null));
    out := Put(out, "shares_traded_2", GetOr(row, "Shares traded", Null));
    DuplicatedUnfold(items, row);
  }

  lemma DuplicatedUnfold(items: Row, row: Row)
    ensures AddCopies(items, row, Duplicated) ==
      var o1 := Put(items, "date_2", GetOr(row, "Date", Null));
      var o2 := Put(o1, "shares_outstanding_2", GetOr(row, "Shares Outstanding", Null));
      var o3 := Put(o2, "market_capitalisation_2", GetOr(row, "Market Capitalisation", Null));
      var o4 := Put(o3, "face_value_2", GetOr(row, "Face Value", Null));
      Put(o4, "shares_traded_2", GetOr(row, "Shares traded", Null))
  {
    var d := Duplicated;
    assert d[1..][1..][1..][1..][1..] == [];
  }

  /** The second copies leave every other key alone. */
  lemma {:induction false} AddCopiesOther(out: Row, row: Row, cols: seq<(string, string, string)>, t: string)
    requires forall c :: 0 <= c < |cols| ==> cols[c].2 != t
    ensures Get(AddCopies(out, row, cols), t) == Get(out, t)
    decreases |cols|
  {
    if cols != [] {
      PutGet(out, cols[0].2, GetOr(row, cols[0].0, Null), t);
      AddCopiesOther(Put(out, cols[0].2, GetOr(row, cols[0].0, Null)), row, cols[1..], t);
    }
  }

  /** Each second copy holds its source column's value, `None` when absent. */
  lemma {:induction false} AddCopiesSecond(out: Row, row: Row, cols: seq<(string, string, string)>, c: int)
    requires 0 <= c < |cols|
    requires forall c1, c2 :: 0 <= c1 < c2 < |cols| ==> cols[c1].2 != cols[c2].2
    ensures Get(AddCopies(out, row, cols), cols[c].2) == Some(GetOr(row, cols[c].0, Null))
    decreases |cols|
  {
    var next := Put(out, cols[0].2, GetOr(row, cols[0].0, Null));
    if c == 0 {
      AddCopiesOther(next, row, cols[1..], cols[0].2);
      PutGet(out, cols[0].2, GetOr(row, cols[0].0, Null), cols[0].2);
    } else {
      AddCopiesSecond(next, row, cols[1..], c - 1);
    }
  }

  /** Under the renaming, the last item landing on `t` is the row's `k` when
      `k` is the only column landing on `t`. */
  lemma {:induction false} RenamedLastValue(row: Row, t: string, k: string)
    requires TargetKey(k) == t
    requires forall i :: 0 <= i < |row| && TargetKey(row[i].0) == t ==> row[i].0 == k
    ensures LastValue(Renamed(row), t) == LastValue(row, k)
    decreases |row|
  {
    if row != [] {
      var n := |row| - 1;
      assert Renamed(row)[..n] == Renamed(row[..n]);
      RenamedLastValue(row[..n], t, k);
    }
  }

  /** A key that is not a second copy, and on which only the column `k` lands,
      holds that column's value (or is unset when the row lacks `k`). */
  lemma TargetValue(row: Row, t: string, k: string)
    requires UniqueKeys(row)
    requires !IsSecondCopy(t)
    requires TargetKey(k) == t
    requires forall i :: 0 <= i < |row| && TargetKey(row[i].0) == t ==> row[i].0 == k
    ensures Get(Transformed(row), t) == Get(row, k)
  {
    AddCopiesOther(FromPairs(Renamed(row)), row, Duplicated, t);
    FromPairsGet(Renamed(row), t);
    RenamedLastValue(row, t, k);
    LastValueOfDict(row, k);
  }

  /** A repeated column's first copy holds the column's value, or is unset
      when the row lacks the column, provided no other column snake-cases onto
      the first copy's name. */
  lemma FirstCopy(row: Row, c: int)
    requires UniqueKeys(row)
    requires 0 <= c < |Duplicated|
    requires forall i :: 0 <= i < |row| && TargetKey(row[i].0) == Duplicated[c].1 ==> row[i].0 == Duplicated[c].0
    ensures Get(Transformed(row), Duplicated[c].1) == Get(row, Duplicated[c].0)
  {
    DuplicatedTable(c);
    TargetValue(row, Duplicated[c].1, Duplicated[c].0);
  }

  /** A repeated column's second copy always holds `row.get(column)`. */
  lemma SecondCopy(row: Row, c: int)
    requires 0 <= c < |Duplicated|
    ensures Get(Transformed(row), Duplicated[c].2) == Some(GetOr(row, Duplicated[c].0, Null))
  {
    DuplicatedTable(c);
    AddCopiesSecond(FromPairs(Renamed(row)), row, Duplicated, c);
  }

  /** The five repeated columns. With the source column present, its first and
      second copies both hold its value, provided no other column snake-cases
      onto the first copy's name. */
  lemma DuplicatedColumns(row: Row, c: int)
    requires UniqueKeys(row)
    requires 0 <= c < |Duplicated|
    requires forall i :: 0 <= i < |row| && TargetKey(row[i].0) == Duplicated[c].1 ==> row[i].0 == Duplicated[c].0
    ensures HasKey(row, Duplicated[c].0) ==>
              && Get(Transformed(row), Duplicated[c].1) == Get(row, Duplicated[c].0)
              && Get(Transformed(row), Duplicated[c].2) == Get(row, Duplicated[c].0)
  {
    FirstCopy(row, c);
    SecondCopy(row, c);
  }

  /** The repeated columns are renamed to their first copies, no first copy is
      a second copy, and the second copies are distinct. */
  lemma DuplicatedTable(c: int)
    requires 0 <= c < |Duplicated|
    ensures TargetKey(Duplicated[c].0) == Duplicated[c].1
    ensures !IsSecondCopy(Duplicated[c].1)
    ensures forall c1, c2 :: 0 <= c1 < c2 < |Duplicated| ==> Duplicated[c1].2 != Duplicated[c2].2
  {
  }

  /** Any other column appears under its snake-case name with its value, when
      no other column lands on that name and it is not a second copy's name. */
  lemma OtherColumn(row: Row, k: string)
    requires UniqueKeys(row)
    requires forall c :: 0 <= c < |Duplicated| ==> k != Duplicated[c].0
    requires !IsSecondCopy(SnakeCase(k))
    requires forall i :: 0 <= i < |row| && TargetKey(row[i].0) == SnakeCase(k) ==> row[i].0 == k
    ensures Get(Transformed(row), SnakeCase(k)) == Get(row, k)
  {
    var d := Duplicated;
    assert TargetKey(k) == SnakeCase(k) by {
      assert k != d[0].0 && k != d[1].0 && k != d[2].0 && k != d[3].0 && k != d[4].0;
    }
    TargetValue(row, SnakeCase(k), k);
  }

  /** A row whose `Date` column collides with a `Date 1` column. */
  const CollidingRow: Row := [("Date", Num(1)), ("Date 1", Num(2))]

  /** `Date 1` snake-cases onto the first copy of `Date`. */
  lemma DateOneTarget()
    ensures TargetKey("Date 1") == "date_1"
  {
    SnakeCaseChars("Date 1");
    assert SnakeCase("Date 1") == "date_1";
  }

  /** Both columns of the colliding row are renamed to `date_1`. */
  lemma CollidingRenamed()
    ensures Renamed(CollidingRow) == [("date_1", Num(1)), ("date_1", Num(2))]
  {
    DateOneTarget();
  }

  /** When `Date 1` follows `Date`, it overwrites the first copy of the date. */
  lemma CollidingFirst()
    ensures Get(Transformed(CollidingRow), "date_1") == Some(Num(2))
  {
    var items := Renamed(CollidingRow);
    CollidingLast();
    FromPairsGet(items, "date_1");
    NoSecondCopyIsFirstDate();
    AddCopiesOther(FromPairs(items), CollidingRow, Duplicated, "date_1");
  }

  /** The last item renamed to `date_1` is `Date 1`'s. */
  lemma CollidingLast()
    ensures LastValue(Renamed(CollidingRow), "date_1") == Some(Num(2))
  {
    CollidingRenamed();
  }

  /** No second copy is written under `date_1`. */
  lemma NoSecondCopyIsFirstDate()
    ensures forall c :: 0 <= c < |Duplicated| ==> Duplicated[c].2 != "date_1"
  {
  }

  /** The second copy of the date still holds `Date`'s own value. */
  lemma CollidingSecond()
    ensures Get(Transformed(CollidingRow), "date_2") == Some(Num(1))
  {
    SecondCopy(CollidingRow, 0);
    CollidingDate();
  }

  /** `Date` is the first repeated column, and the colliding row holds 1 there. */
  lemma CollidingDate()
    ensures Duplicated[0] == ("Date", "date_1", "date_2")
    ensures GetOr(CollidingRow, "Date", Null) == Num(1)
  {
  }

  /** So the two copies of the date differ on the colliding row. */
  lemma CollidingColumn()
    ensures Get(Transformed(CollidingRow), "date_1") != Get(Transformed(CollidingRow), "date_2")
  {
    CollidingFirst();
    CollidingSecond();
  }

  /** The output loop of `process_prowess_data`: one record per row, in order. */
  method TransformRows(rows: seq<Row>) returns (records: seq<Row>)
    ensures |records| == |rows|
    ensures forall i :: 0 <= i < |rows| ==> records[i] == Transformed(rows[i])
  {
    records := [];
    for i := 0 to |rows|
      invariant |records| == i
      invariant forall j :: 0 <= j < i ==> records[j] == Transformed(rows[j])
    {
      var record := TransformRow(rows[i]);
      records := records + [record];
    }
  }

  /** `process_prowess_data`: build the rows, keep the listed companies,
      expand the abbreviations in their names through the service, rename the
      companies and build one record per kept row. */
  method ProcessProwessData(service: AbbreviationService, payload: Payload, llm: string -> Option<string>)
    returns (r: Result<seq<Row>, ProcessError>)
    requires service.Valid()
    modifies service
    ensures service.Valid()
    ensures PayloadRows(payload).Failure? ==> r == Failure(NoHeaderRow) && unchanged(service)
    ensures PayloadRows(payload).Success? && ListedRows(PayloadRows(payload).value).Failure? ==>
              r == Failure(ListedRows(PayloadRows(payload).value).error) && unchanged(service)
    ensures PayloadRows(payload).Success? && ListedRows(PayloadRows(payload).value).Success? ==>
              var listed := ListedRows(PayloadRows(payload).value).value;
              && (CompanyNames(listed).Failure? ==>
                    r == Failure(CompanyNames(listed).error) && unchanged(service))
              && (CompanyNames(listed).Success? ==>
                    var abbrs := AbbreviationsIn(CompanyNames(listed).value);
                    && (forall a :: a in abbrs ==>
                          Get(service.entries, a) == Some(Resolution(old(service.entries), a, llm)))
                    && (forall k :: k !in abbrs ==> Get(service.entries, k) == old(Get(service.entries, k)))
                    && KeysKept(old(service.entries), service.entries)
                    && AskedAbout(old(service.entries), abbrs, old(service.queries), service.queries)
                    && SavedEach(old(service.saved), service.saved, old(service.queries), service.queries, service.entries)
                    && service.sleeps == old(service.sleeps) + Answered(service.queries[|old(service.queries)|..], llm)
                    && ((forall a :: a in abbrs ==> CachedExpansion(old(service.entries), a).Some?) ==>
                          && service.entries == old(service.entries) && service.saved == old(service.saved)
                          && service.queries == old(service.queries) && service.sleeps == old(service.sleeps))
                    && r.Success? && |r.value| == |listed|
                    && forall i :: 0 <= i < |listed| ==> r.value[i] == Transformed(RenameCompany(listed[i], service.entries)))
  {
    if payload.head == [] {
      return Failure(NoHeaderRow);
    }
    var headers := payload.head[|payload.head| - 1];
    var rows := BuildRows(headers, payload.data);
    var filtered := FilterListed(rows);
    if filtered.Failure? {
      return Failure(filtered.error);
    }
    var listed := filtered.value;
    var names := CompanyNames(listed);
    if names.Failure? {
      return Failure(names.error);
    }
    var expanded := service.ExpandAbbreviationsInNames(names.value, llm);
    var renamed := ApplyExpandedNames(listed, expanded, service.entries);
    var records := TransformRows(renamed);
    return Success(records);
  }

  // ---------------------------------------------------------------------
  // Upsert loop
  // ---------------------------------------------------------------------

  /** What the database gives for one record. */
  datatype UpsertReply = Upserted | Rejected(cause: string)

  /** One entry of `errors`: the record's ISIN (`"unknown"` when absent) and
      the reason given. */
  datatype UpsertFailure = UpsertFailure(isin: Scalar, cause: string)

  /** The dictionary `upsert_to_database` returns. */
  datatype UpsertSummary = UpsertSummary(
    success: bool, upsertedCount: nat, failedCount: nat, totalProcessed: nat, errors: seq<UpsertFailure>)

  function FailureOf(record: Row, cause: string): UpsertFailure {
    UpsertFailure(GetOr(record, "isin_code", Str("unknown")), cause)
  }

  /** The failures of the records, in record order. */
  function Failures(records: seq<Row>, upsert: Row -> UpsertReply): seq<UpsertFailure>
    decreases |records|
  {
    if records == [] then []
    else
      var n := |records| - 1;
      Failures(records[..n], upsert) +
        (match upsert(records[n]) case Rejected(cause) => [FailureOf(records[n], cause)] case Upserted => [])
  }

  /** Whether the database refuses a record. */
  function RefusedBy(upsert: Row -> UpsertReply): Row -> bool {
    r => upsert(r).Rejected?
  }

  /** `errs` lists, at the picked positions `idx`, the failures of the records
      there. */
  ghost predicate ReportsAt(records: seq<Row>, upsert: Row -> UpsertReply, idx: seq<int>, errs: seq<UpsertFailure>) {
    && Picks(records, RefusedBy(upsert), idx)
    && |idx| == |errs|
    && (forall k :: 0 <= k < |idx| ==> errs[k] == FailureOf(records[idx[k]], upsert(records[idx[k]]).cause))
  }

  /** Offering one more record extends the report by its failure exactly when
      the database refuses it. */
  lemma ReportsExtend(init: seq<Row>, upsert: Row -> UpsertReply, idx: seq<int>, errs: seq<UpsertFailure>, x: Row)
    requires ReportsAt(init, upsert, idx, errs)
    ensures ReportsAt(init + [x], upsert, idx + (if upsert(x).Rejected? then [|init|] else []),
                      errs + (match upsert(x) case Rejected(cause) => [FailureOf(x, cause)] case Upserted => []))
  {
    PicksExtend(init, RefusedBy(upsert), idx, x);
    var records := init + [x];
    assert forall k :: 0 <= k < |idx| ==> records[idx[k]] == init[idx[k]];
  }

  /** The errors are exactly the refused records' failures, one each, in the
      order the records were given. */
  lemma {:induction false} FailuresInOrder(records: seq<Row>, upsert: Row -> UpsertReply)
    ensures exists idx :: ReportsAt(records, upsert, idx, Failures(records, upsert))
    decreases |records|
  {
    if records == [] {
      PicksEmpty(RefusedBy(upsert));
      assert ReportsAt(records, upsert, [], Failures(records, upsert));
    } else {
      var n := |records| - 1;
      var init := records[..n];
      assert init + [records[n]] == records;
      FailuresInOrder(init, upsert);
      var idx :| ReportsAt(init, upsert, idx, Failures(init, upsert));
      ReportsExtend(init, upsert, idx, Failures(init, upsert), records[n]);
      assert ReportsAt(records, upsert, idx + (if upsert(records[n]).Rejected? then [n] else []), Failures(records, upsert));
    }
  }

  /** `upsert_to_database`: every record is offered to the database; a refusal
      is counted and recorded and the loop goes on. */
  method UpsertToDatabase(records: seq<Row>, upsert: Row -> UpsertReply) returns (summary: UpsertSummary)
    ensures summary.success
    ensures summary.totalProcessed == |records|
    ensures summary.upsertedCount + summary.failedCount == summary.totalProcessed
    ensures summary.errors == Failures(records, upsert)
    ensures summary.failedCount == |summary.errors|
  {
    var upsertedCount := 0;
    var failedCount := 0;
    var errors: seq<UpsertFailure> := [];
    for i := 0 to |records|
      invariant upsertedCount + failedCount == i
      invariant errors == Failures(records[..i], upsert)
      invariant failedCount == |errors|
    {
      assert records[..i + 1][..i] == records[..i];
      match upsert(records[i])
      case Upserted =>
        upsertedCount := upsertedCount + 1;
      case Rejected(cause) =>
        failedCount := failedCount + 1;
        errors := errors + [FailureOf(records[i], cause)];
    }
    assert records[..|records|] == records;
    summary := UpsertSummary(true, upsertedCount, failedCount, |records|, errors);
  }
}
