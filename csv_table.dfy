/** `nr::CSVTable` (Numera/Core/CSVTable.cpp, CSVTable.h): a table of string
    cells held row by row under a list of column headers. The loader
    constructor is modelled from the map of columns the loader returned and
    the header order it reported; reading the file is not part of this model. */
module CsvTable {
  import opened Wrappers

  /** What the table throws: `std::invalid_argument` or `std::out_of_range`. */
  datatype TableError = InvalidArgument | OutOfRange

  /** The position of the first `x` in `s`, as `std::find` finds it. */
  function FirstIndex(s: seq<string>, x: string): (r: Option<nat>)
    ensures r.None? <==> x !in s
    ensures r.Some? ==> r.value < |s| && s[r.value] == x && forall j :: 0 <= j < r.value ==> s[j] != x
  {
    if s == [] then None
    else if s[0] == x then Some(0)
    else
      var rest := FirstIndex(s[1..], x);
      if rest.None? then None else Some(rest.value + 1)
  }

  /** The loaded columns fit the headers: every header has a column, all as
      long as the first header's. No headers is always fine. */
  predicate Consistent(loaded: map<string, seq<string>>, headers: seq<string>)
  {
    headers == [] ||
    (headers[0] in loaded &&
     forall h :: h in headers ==> h in loaded && |loaded[h]| == |loaded[headers[0]]|)
  }

  /** The number of rows the loaded columns make: the first header's column length. */
  function RowsOf(loaded: map<string, seq<string>>, headers: seq<string>): nat
    requires Consistent(loaded, headers)
  {
    if headers == [] then 0 else |loaded[headers[0]]|
  }

  /** Row `i` of the transposed columns: the `i`-th cell of every header's column. */
  function RowAt(loaded: map<string, seq<string>>, headers: seq<string>, i: nat): (r: seq<string>)
    requires Consistent(loaded, headers) && i < RowsOf(loaded, headers)
    ensures |r| == |headers|
  {
    seq(|headers|, j requires 0 <= j < |headers| => loaded[headers[j]][i])
  }

  /** The rows the loader constructor builds from the columns. */
  function Transposed(loaded: map<string, seq<string>>, headers: seq<string>): (rows: seq<seq<string>>)
    requires Consistent(loaded, headers)
    ensures |rows| == RowsOf(loaded, headers)
  {
    seq(RowsOf(loaded, headers), i requires 0 <= i < RowsOf(loaded, headers) => RowAt(loaded, headers, i))
  }

  /** Cell `j` of every row, in row order. */
  function ColumnOf(rows: seq<seq<string>>, j: nat): (r: seq<string>)
    requires forall i :: 0 <= i < |rows| ==> j < |rows[i]|
    ensures |r| == |rows|
  {
    seq(|rows|, i requires 0 <= i < |rows| => rows[i][j])
  }

  /** Transposing and then reading column `j` gives back header `j`'s loaded column. */
  lemma TransposedColumn(loaded: map<string, seq<string>>, headers: seq<string>, j: nat)
    requires Consistent(loaded, headers) && j < |headers|
    ensures forall i :: 0 <= i < |Transposed(loaded, headers)| ==> j < |Transposed(loaded, headers)[i]|
    ensures ColumnOf(Transposed(loaded, headers), j) == loaded[headers[j]]
  {
    var rows := Transposed(loaded, headers);
    assert headers[j] in headers;
    assert |rows| == |loaded[headers[j]]|;
  }

  /** `string_to<bool>`: "0" and "false" are false, "1" and "true" are true,
      anything else is `invalid_argument`. */
  function StringToBool(s: string): (r: Option<bool>)
    ensures r == Some(false) <==> s == "0" || s == "false"
    ensures r == Some(true) <==> s == "1" || s == "true"
    ensures r.None? <==> s !in {"0", "false", "1", "true"}
  {
    if s == "0" || s == "false" then Some(false)
    else if s == "1" || s == "true" then Some(true)
    else None
  }

  /** The validation of the loader constructor: the first header must be
      loaded, then every header must be loaded with a column as long as the
      first. On success, the number of rows. */
  method Validate(loaded: map<string, seq<string>>, headers: seq<string>) returns (r: Result<nat, TableError>)
    ensures r.Success? <==> Consistent(loaded, headers)
    ensures r.Success? ==> r.value == RowsOf(loaded, headers)
    ensures r.Failure? ==> r.error == InvalidArgument
  {
    if headers == [] {
      return Success(0);
    }
    if headers[0] !in loaded {
      return Failure(InvalidArgument);
    }
    var nRows := |loaded[headers[0]]|;
    var k := 0;
    while k < |headers|
      invariant 0 <= k <= |headers|
      invariant forall m :: 0 <= m < k ==> headers[m] in loaded && |loaded[headers[m]]| == nRows
    {
      var h := headers[k];
      if h !in loaded || |loaded[h]| != nRows {
        return Failure(InvalidArgument);
      }
      k := k + 1;
    }
    return Success(nRows);
  }

  class CSVTable {
    var headers: seq<string>
    var data: seq<seq<string>>
    var rowsCount: nat
    var colsCount: nat

    /** Every row has `colsCount` cells, and `rowsCount` counts the rows. */
    predicate Valid()
      reads this
    {
      rowsCount == |data| && forall i :: 0 <= i < |data| ==> |data[i]| == colsCount
    }

    /** The default constructor: no headers, no rows. */
    constructor()
      ensures Valid() && headers == [] && data == [] && colsCount == 0
    {
      headers, data, rowsCount, colsCount := [], [], 0, 0;
    }

    /** The loader constructor after validation: one row per loaded cell
        index, built by the nested loops. */
    constructor FromColumns(loaded: map<string, seq<string>>, order: seq<string>, nRows: nat)
      requires Consistent(loaded, order) && nRows == RowsOf(loaded, order)
      ensures Valid() && headers == order && colsCount == |order|
      ensures data == Transposed(loaded, order)
    {
      headers := order;
      colsCount := |order|;
      var rows: seq<seq<string>> := [];
      var i := 0;
      while i < nRows
        invariant 0 <= i <= nRows
        invariant |rows| == i && forall m :: 0 <= m < i ==> rows[m] == RowAt(loaded, order, m)
      {
        var row := BuildRow(loaded, order, i);
        rows := rows + [row];
        i := i + 1;
      }
      rowsCount := nRows;
      data := rows;
    }

    /** `CSVTable(headers)` as written: `cols_count(headers.size())` reads the
        parameter after it was moved into the member, so the count is that of
        an emptied vector. */
    constructor FromHeadersAsWritten(names: seq<string>)
      ensures Valid() && headers == names && data == [] && colsCount == 0
    {
      var movedFrom: seq<string> := [];
      headers := names;
      data := [];
      rowsCount := 0;
      colsCount := |movedFrom|;
    }

    /** `CSVTable(headers)` as intended: as many columns as headers. */
    constructor FromHeaders(names: seq<string>)
      ensures Valid() && headers == names && data == [] && colsCount == |names|
    {
      headers := names;
      data := [];
      rowsCount := 0;
      colsCount := |names|;
    }

    /** `row_count()`: the number of stored rows. */
    function RowCount(): (n: nat)
      reads this
      requires Valid()
      ensures n == |data| == rowsCount
    {
      |data|
    }

    /** `column_count()`: the number of headers. */
    function ColumnCount(): (n: nat)
      reads this
      ensures n == |headers|
    {
      |headers|
    }

    /** `empty()`: no rows, whatever the headers. */
    function Empty(): (e: bool)
      reads this
      ensures e <==> |data| == 0
    {
      data == []
    }

    /** `row(index)`: a copy of the row, or `out_of_range`. */
    function Row(index: nat): (r: Result<seq<string>, TableError>)
      reads this
      ensures r.Success? <==> index < |data|
      ensures r.Success? ==> r.value == data[index]
      ensures r.Failure? ==> r.error == OutOfRange
    {
      if index < |data| then Success(data[index]) else Failure(OutOfRange)
    }

    /** `has_column(name)`: some header is `name`. */
    function HasColumn(name: string): (b: bool)
      reads this
      ensures b <==> name in headers
    {
      FirstIndex(headers, name).Some?
    }

    /** `column_index(name)`: the position of the first header `name`, or
        `out_of_range`; it succeeds exactly when `has_column` holds. */
    function ColumnIndex(name: string): (r: Result<nat, TableError>)
      reads this
      ensures r.Success? <==> HasColumn(name)
      ensures r.Success? ==> r.value < |headers| && headers[r.value] == name &&
                             forall j :: 0 <= j < r.value ==> headers[j] != name
      ensures r.Failure? ==> r.error == OutOfRange
    {
      var found := FirstIndex(headers, name);
      if found.Some? then Success(found.value) else Failure(OutOfRange)
    }

    /** `column(index)`: `out_of_range` when `index >= cols_count`, else
        cell `index` of every row, in row order. */
    method Column(index: nat) returns (r: Result<seq<string>, TableError>)
      requires Valid()
      ensures r.Failure? <==> index >= colsCount
      ensures r.Failure? ==> r.error == OutOfRange
      ensures r.Success? ==> r.value == ColumnOf(data, index)
    {
      if index >= colsCount {
        return Failure(OutOfRange);
      }
      var result: seq<string> := [];
      var i := 0;
      while i < |data|
        invariant 0 <= i <= |data|
        invariant |result| == i && forall m :: 0 <= m < i ==> result[m] == data[m][index]
      {
        result := result + [data[i][index]];
        i := i + 1;
      }
      return Success(result);
    }

    /** `column(name)`: `column(column_index(name))`. */
    method ColumnNamed(name: string) returns (r: Result<seq<string>, TableError>)
      requires Valid()
      ensures !HasColumn(name) ==> r == Failure(OutOfRange)
      ensures HasColumn(name) ==>
        var j := ColumnIndex(name).value;
        (r.Failure? <==> j >= colsCount) &&
        (r.Failure? ==> r.error == OutOfRange) &&
        (r.Success? ==> r.value == ColumnOf(data, j))
    {
      var index := ColumnIndex(name);
      if index.Failure? {
        return Failure(index.error);
      }
      r := Column(index.value);
    }

    /** `extract<T>(name)`: the named column with every cell converted by
        `convert` (`string_to<T>`, which fails on a cell it cannot read
        whole); the first failing cell makes it `invalid_argument`. */
    method Extract<T>(name: string, convert: string -> Option<T>) returns (r: Result<seq<T>, TableError>)
      requires Valid()
      ensures !HasColumn(name) ==> r == Failure(OutOfRange)
      ensures HasColumn(name) ==>
        var j := ColumnIndex(name).value;
        (j >= colsCount ==> r == Failure(OutOfRange)) &&
        (j < colsCount ==>
          var col := ColumnOf(data, j);
          (r.Failure? <==> exists i :: 0 <= i < |col| && convert(col[i]).None?) &&
          (r.Failure? ==> r.error == InvalidArgument) &&
          (r.Success? ==> |r.value| == |col| &&
                          forall i :: 0 <= i < |col| ==> convert(col[i]) == Some(r.value[i])))
    {
      var col := ColumnNamed(name);
      if col.Failure? {
        return Failure(col.error);
      }
      r := ConvertAll(col.value, convert);
    }

    /** `add_row(row)`: `invalid_argument` with no headers or a row whose
        length is not `cols_count`; otherwise the row is appended. `err` is
        the exception thrown, if any. */
    method AddRow(row: seq<string>) returns (err: Option<TableError>)
      requires Valid()
      modifies this
      ensures Valid()
      ensures err.Some? <==> old(headers) == [] || |row| != old(colsCount)
      ensures err.Some? ==> err.value == InvalidArgument && unchanged(this)
      ensures err.None? ==> data == old(data) + [row] && rowsCount == old(rowsCount) + 1 &&
                            headers == old(headers) && colsCount == old(colsCount)
    {
      if headers == [] {
        return Some(InvalidArgument);
      }
      if |row| != colsCount {
        return Some(InvalidArgument);
      }
      data := data + [row];
      rowsCount := rowsCount + 1;
      return None;
    }

    /** `clear()`: rows and headers both go, and both counts become 0. */
    method Clear()
      modifies this
      ensures Valid() && headers == [] && data == [] && rowsCount == 0 && colsCount == 0
    {
      data := [];
      headers := [];
      rowsCount := 0;
      colsCount := 0;
    }

    /** `clear()` as its declaration describes it: the rows go and the
        headers, with their column count, stay. */
    method ClearKeepingHeaders()
      requires Valid()
      modifies this
      ensures Valid() && data == [] && rowsCount == 0
      ensures headers == old(headers) && colsCount == old(colsCount)
    {
      data := [];
      rowsCount := 0;
    }
  }

  /** The inner loop of the loader constructor: `loaded.at(h)[i]` for every header `h`. */
  method BuildRow(loaded: map<string, seq<string>>, headers: seq<string>, i: nat) returns (row: seq<string>)
    requires Consistent(loaded, headers) && i < RowsOf(loaded, headers)
    ensures row == RowAt(loaded, headers, i)
  {
    row := [];
    var j := 0;
    while j < |headers|
      invariant 0 <= j <= |headers|
      invariant |row| == j && forall m :: 0 <= m < j ==> row[m] == loaded[headers[m]][i]
    {
      assert headers[j] in headers;
      row := row + [loaded[headers[j]][i]];
      j := j + 1;
    }
  }

  /** The conversion loop of `extract`: stops at the first cell `convert` refuses. */
  method ConvertAll<T>(col: seq<string>, convert: string -> Option<T>) returns (r: Result<seq<T>, TableError>)
    ensures r.Failure? <==> exists i :: 0 <= i < |col| && convert(col[i]).None?
    ensures r.Failure? ==> r.error == InvalidArgument
    ensures r.Success? ==> |r.value| == |col| && forall i :: 0 <= i < |col| ==> convert(col[i]) == Some(r.value[i])
  {
    var result: seq<T> := [];
    var i := 0;
    while i < |col|
      invariant 0 <= i <= |col|
      invariant |result| == i && forall m :: 0 <= m < i ==> convert(col[m]) == Some(result[m])
    {
      var v := convert(col[i]);
      if v.None? {
        return Failure(InvalidArgument);
      }
      result := result + [v.value];
      i := i + 1;
    }
    return Success(result);
  }

  /** The loader constructor: validation, then the transposition. */
  method Load(loaded: map<string, seq<string>>, order: seq<string>) returns (r: Result<CSVTable, TableError>)
    ensures r.Failure? <==> !Consistent(loaded, order)
    ensures r.Failure? ==> r.error == InvalidArgument
    ensures r.Success? ==> fresh(r.value) && r.value.Valid() && r.value.headers == order &&
                           r.value.colsCount == |order| && r.value.data == Transposed(loaded, order)
  {
    var rows := Validate(loaded, order);
    if rows.Failure? {
      return Failure(rows.error);
    }
    var t := new CSVTable.FromColumns(loaded, order, rows.value);
    return Success(t);
  }

  /** The table test: columns Name, Age and Height of three people load into
      three rows of three cells; Age is a column, Weight is not, Height is
      column 2, and the Age column reads back in row order. */
  method TableExample(loaded: map<string, seq<string>>, order: seq<string>) returns (t: CSVTable)
    requires order == ["Name", "Age", "Height"]
    requires loaded == map["Name" := ["Alice", "Bob", "Charlie"], "Age" := ["25", "30", "22"],
                           "Height" := ["1.65", "1.80", "1.75"]]
    ensures t.Valid() && t.RowCount() == 3 && t.ColumnCount() == 3 && !t.Empty()
    ensures t.HasColumn("Age") && !t.HasColumn("Weight")
    ensures t.ColumnIndex("Height") == Success(2)
  {
    assert Consistent(loaded, order);
    var r := Load(loaded, order);
    t := r.value;
    assert t.headers[1] == "Age" && t.headers[2] == "Height";
    assert "Weight" !in t.headers;
  }

  /** Reading the Age column of the test table gives "25", "30", "22". */
  lemma AgeColumn(loaded: map<string, seq<string>>, order: seq<string>)
    requires order == ["Name", "Age", "Height"]
    requires loaded == map["Name" := ["Alice", "Bob", "Charlie"], "Age" := ["25", "30", "22"],
                           "Height" := ["1.65", "1.80", "1.75"]]
    ensures Consistent(loaded, order) && ColumnOf(Transposed(loaded, order), 1) == ["25", "30", "22"]
  {
    TransposedColumn(loaded, order, 1);
  }

  /** Columns of different lengths are refused. */
  method RaggedColumnsRefused() returns (r: Result<CSVTable, TableError>)
    ensures r == Failure(InvalidArgument)
  {
    var loaded := map["a" := ["1", "2"], "b" := ["3"]];
    assert !Consistent(loaded, ["a", "b"]) by {
      assert "b" in ["a", "b"];
    }
    r := Load(loaded, ["a", "b"]);
  }

  /** With the headers constructor as written, a row with one cell per header is refused. */
  method HeadersAsWrittenRefuseFullRow() returns (err: Option<TableError>)
    ensures err == Some(InvalidArgument)
  {
    var t := new CSVTable.FromHeadersAsWritten(["a", "b"]);
    err := t.AddRow(["1", "2"]);
  }

  /** With the headers constructor as intended, the same row is added and
      its cells read back as the columns. */
  method HeadersAcceptFullRow() returns (err: Option<TableError>, col: Result<seq<string>, TableError>)
    ensures err == None && col == Success(["2"])
  {
    var t := new CSVTable.FromHeaders(["a", "b"]);
    err := t.AddRow(["1", "2"]);
    col := t.Column(1);
    assert t.data == [["1", "2"]];
    assert |col.value| == 1 && col.value[0] == "2";
    assert col.value == ["2"];
  }

  /** With `clear` as written, a table that took a full row refuses the
      next one, because its headers are gone. */
  method ClearAsWrittenRefusesRow() returns (before: Option<TableError>, after: Option<TableError>)
    ensures before == None && after == Some(InvalidArgument)
  {
    var t := new CSVTable.FromHeaders(["a", "b"]);
    before := t.AddRow(["1", "2"]);
    t.Clear();
    after := t.AddRow(["3", "4"]);
  }

  /** With `clear` keeping the headers, the same row is added to the
      emptied table, which then holds just that row. */
  method ClearKeepingHeadersAcceptsRow() returns (before: Option<TableError>, after: Option<TableError>, rows: nat)
    ensures before == None && after == None && rows == 1
  {
    var t := new CSVTable.FromHeaders(["a", "b"]);
    before := t.AddRow(["1", "2"]);
    t.ClearKeepingHeaders();
    after := t.AddRow(["3", "4"]);
    rows := t.RowCount();
  }

  /** `extract<bool>` over a flag column: "true" and "0" read as true and
      false; a "yes" anywhere makes it `invalid_argument`. */
  method ExtractBoolExample() returns (good: Result<seq<bool>, TableError>, bad: Result<seq<bool>, TableError>)
    ensures good == Success([true, false]) && bad == Failure(InvalidArgument)
  {
    var t := new CSVTable.FromHeaders(["flag"]);
    var _ := t.AddRow(["true"]);
    var _ := t.AddRow(["0"]);
    assert t.data == [["true"], ["0"]];
    assert t.ColumnIndex("flag") == Success(0);
    var col := ColumnOf(t.data, 0);
    assert col[0] == "true" && col[1] == "0";
    good := t.Extract("flag", StringToBool);
    assert StringToBool(col[0]) == Some(true) && StringToBool(col[1]) == Some(false);
    assert good.Success?;
    assert good.value[0] == true && good.value[1] == false;
    assert good.value == [true, false];
    var _ := t.AddRow(["yes"]);
    assert ColumnOf(t.data, 0)[2] == "yes";
    bad := t.Extract("flag", StringToBool);
  }
}
