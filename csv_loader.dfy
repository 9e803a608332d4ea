/** The CSV reader of Numera/io/CsvDataLoader.cpp: `split` cuts a line at a
    delimiter as repeated `std::getline(ss, item, delimiter)` does, and
    `read` builds one column per header from the lines of a file. The file
    is given as its sequence of lines. */
module CsvLoader {

  /** The position of the first `d` in `s`, or `|s|` when there is none. */
  function FindDelim(s: string, d: char): (i: nat)
    ensures i <= |s|
    ensures forall k :: 0 <= k < i ==> s[k] != d
    ensures i < |s| ==> s[i] == d
  {
    if s == [] then 0
    else if s[0] == d then 0
    else FindDelim(s[1..], d) + 1
  }

  /** The pieces `getline` extracts from `s`: text up to each delimiter, and
      the rest after the last one unless it is empty. */
  function Pieces(s: string, d: char): seq<string>
    decreases |s|
  {
    if s == [] then []
    else
      var i := FindDelim(s, d);
      if i == |s| then [s] else [s[..i]] + Pieces(s[i + 1..], d)
  }

  /** The pieces put back together, one delimiter between neighbours. */
  function Join(ps: seq<string>, d: char): string
  {
    if ps == [] then []
    else if |ps| == 1 then ps[0]
    else ps[0] + [d] + Join(ps[1..], d)
  }

  /** No piece holds the delimiter. */
  lemma {:induction false} PiecesHaveNoDelim(s: string, d: char)
    ensures forall p :: p in Pieces(s, d) ==> d !in p
    decreases |s|
  {
    if s != [] {
      var i := FindDelim(s, d);
      if i < |s| {
        PiecesHaveNoDelim(s[i + 1..], d);
        assert d !in s[..i];
      }
    }
  }

  /** `FindDelim` is pinned down by its contract: no delimiter before `i`, one at `i` unless `i` is the end. */
  lemma FindDelimIs(t: string, d: char, i: nat)
    requires i <= |t| && (i < |t| ==> t[i] == d)
    requires forall k :: 0 <= k < i ==> t[k] != d
    ensures FindDelim(t, d) == i
  {
  }

  /** The first piece runs up to the first delimiter, the rest is split again. */
  lemma PiecesCons(s: string, d: char, i: nat)
    requires i < |s| && s[i] == d
    requires forall k :: 0 <= k < i ==> s[k] != d
    ensures Pieces(s, d) == [s[..i]] + Pieces(s[i + 1..], d)
  {
    FindDelimIs(s, d, i);
  }

  /** A delimiter-free piece followed by a delimiter splits off first. */
  lemma PiecesAfter(p: string, rest: string, d: char)
    requires d !in p
    ensures Pieces(p + [d] + rest, d) == [p] + Pieces(rest, d)
  {
    var s := p + [d] + rest;
    assert s[|p|] == d;
    assert forall k :: 0 <= k < |p| ==> s[k] == p[k];
    PiecesCons(s, d, |p|);
    assert s[..|p|] == p;
    assert s[|p| + 1..] == rest;
  }

  /** A line without a delimiter is one piece. */
  lemma PiecesLast(s: string, d: char)
    requires s != []
    requires forall k :: 0 <= k < |s| ==> s[k] != d
    ensures Pieces(s, d) == [s]
  {
    FindDelimIs(s, d, |s|);
  }

  /** Joining the pieces gives the line back, except a final delimiter, which leaves no piece. */
  lemma {:induction false} JoinPieces(s: string, d: char)
    ensures Join(Pieces(s, d), d) + (if s != [] && s[|s| - 1] == d then [d] else []) == s
    decreases |s|
  {
    if s != [] {
      var i := FindDelim(s, d);
      if i == |s| {
        PiecesLast(s, d);
      } else {
        var head, rest := s[..i], s[i + 1..];
        assert s == head + [d] + rest;
        PiecesCons(s, d, i);
        JoinPieces(rest, d);
        if rest != [] {
          var ps := Pieces(rest, d);
          PiecesNonEmpty(rest, d);
          JoinCons(head, ps, d);
          assert s[|s| - 1] == rest[|rest| - 1];
        }
      }
    }
  }

  lemma PiecesNonEmpty(s: string, d: char)
    requires s != []
    ensures Pieces(s, d) != []
  {
  }

  /** Joining a piece before others puts a delimiter between. */
  lemma JoinCons(a: string, ps: seq<string>, d: char)
    requires ps != []
    ensures Join([a] + ps, d) == a + [d] + Join(ps, d)
  {
    assert ([a] + ps)[1..] == ps;
  }

  /** Splitting pieces that hold no delimiter, joined, gives them back when
      the last is not empty (an empty last piece is what `getline` drops). */
  lemma {:induction false} PiecesOfJoin(ps: seq<string>, d: char)
    requires forall p :: p in ps ==> d !in p
    requires ps != [] ==> ps[|ps| - 1] != []
    ensures Pieces(Join(ps, d), d) == ps
  {
    if ps != [] {
      var p := ps[0];
      assert d !in p;
      if |ps| == 1 {
        PiecesLast(p, d);
      } else {
        var qs := ps[1..];
        assert qs[|qs| - 1] == ps[|ps| - 1];
        assert forall q :: q in qs ==> q in ps;
        PiecesOfJoin(qs, d);
        PiecesAfter(p, Join(qs, d), d);
        assert ps == [p] + qs;
      }
    }
  }

  /** `getline` examples: adjacent delimiters make an empty piece, a final
      delimiter makes none, and an empty line has no pieces. */
  lemma SplitExamples()
    ensures Pieces("a,b", ',') == ["a", "b"]
    ensures Pieces("a,,b", ',') == ["a", "", "b"]
    ensures Pieces("a,", ',') == ["a"]
    ensures Pieces("", ',') == []
  {
    assert FindDelim("b", ',') == 1;
    assert Pieces("b", ',') == ["b"];
    assert FindDelim("a,b", ',') == 1 && "a,b"[..1] == "a" && "a,b"[2..] == "b";
    assert Pieces("a,b", ',') == ["a"] + Pieces("b", ',');
    assert FindDelim(",b", ',') == 0 && ",b"[..0] == "" && ",b"[1..] == "b";
    assert Pieces(",b", ',') == [""] + Pieces("b", ',');
    assert FindDelim("a,,b", ',') == 1 && "a,,b"[..1] == "a" && "a,,b"[2..] == ",b";
    assert Pieces("a,,b", ',') == ["a"] + Pieces(",b", ',');
    assert FindDelim("a,", ',') == 1 && "a,"[..1] == "a" && "a,"[2..] == "";
    assert Pieces("a,", ',') == ["a"] + Pieces("", ',');
  }

  /** The cell of a row under header position `i`: `""` when the row is short. */
  function Cell(row: seq<string>, i: nat): string
  {
    if i < |row| then row[i] else ""
  }

  /** What one row adds to the column of `h`: its cell under every position
      of `headers` that carries `h`, in header order. */
  function RowCells(h: string, headers: seq<string>, row: seq<string>): seq<string>
  {
    if headers == [] then []
    else
      var n := |headers| - 1;
      RowCells(h, headers[..n], row) + (if headers[n] == h then [Cell(row, n)] else [])
  }

  /** The column of `h` after the rows `rows`. */
  function ColumnAfter(h: string, headers: seq<string>, rows: seq<seq<string>>): seq<string>
  {
    if rows == [] then []
    else
      var n := |rows| - 1;
      ColumnAfter(h, headers, rows[..n]) + RowCells(h, headers, rows[n])
  }

  /** The data lines after the header line, split. */
  function DataRows(lines: seq<string>, d: char): (rows: seq<seq<string>>)
    requires lines != []
    ensures |rows| == |lines| - 1
  {
    seq(|lines| - 1, k requires 0 <= k < |lines| - 1 => Pieces(lines[k + 1], d))
  }

  /** With every header different, a row adds exactly its own cell to each
      header's column: the cell at the header's position, or `""`. */
  lemma {:induction false} DistinctRowCells(headers: seq<string>, row: seq<string>, j: nat)
    requires j < |headers| && forall a, b :: 0 <= a < b < |headers| ==> headers[a] != headers[b]
    ensures RowCells(headers[j], headers, row) == [Cell(row, j)]
  {
    var n := |headers| - 1;
    var h := headers[j];
    if j < n {
      assert headers[..n][j] == h;
      DistinctRowCells(headers[..n], row, j);
    } else {
      AbsentRowCells(h, headers[..n], row);
    }
  }

  lemma {:induction false} AbsentRowCells(h: string, headers: seq<string>, row: seq<string>)
    requires h !in headers
    ensures RowCells(h, headers, row) == []
  {
    if headers != [] {
      var n := |headers| - 1;
      assert headers[n] in headers;
      AbsentRowCells(h, headers[..n], row);
    }
  }

  /** With every header different, each column gets one cell per row: the
      row's cell at that header's position, padded with `""` when short. */
  lemma {:induction false} DistinctColumns(headers: seq<string>, rows: seq<seq<string>>, j: nat)
    requires j < |headers| && forall a, b :: 0 <= a < b < |headers| ==> headers[a] != headers[b]
    ensures |ColumnAfter(headers[j], headers, rows)| == |rows|
    ensures forall k :: 0 <= k < |rows| ==> ColumnAfter(headers[j], headers, rows)[k] == Cell(rows[k], j)
  {
    if rows != [] {
      var n := |rows| - 1;
      DistinctColumns(headers, rows[..n], j);
      DistinctRowCells(headers, rows[n], j);
    }
  }

  /** The reader's state: the columns built so far and the delimiter. The
      class is named `CSVDataStore` in CsvDataLoader.cpp. */
  class CSVDataStore {
    var data: map<string, seq<string>>
    var delimiter: char

    constructor(d: char)
      ensures data == map[] && delimiter == d
    {
      data := map[];
      delimiter := d;
    }

    /** `split(s, delimiter)`: the `getline` loop, one piece per pass. */
    method Split(s: string, d: char) returns (result: seq<string>)
      ensures result == Pieces(s, d)
    {
      result := [];
      var pos := 0;
      while pos < |s|
        invariant 0 <= pos <= |s|
        invariant result + Pieces(s[pos..], d) == Pieces(s, d)
        decreases |s| - pos
      {
        var j := ScanPiece(s, d, pos);
        var next := if j < |s| then j + 1 else |s|;
        PiecesStep(s, d, pos, j);
        assert result + Pieces(s[pos..], d) == (result + [s[pos..j]]) + Pieces(s[next..], d);
        result := result + [s[pos..j]];
        pos := next;
      }
      assert s[pos..] == [];
    }

    /** The inner `getline` scan: from `pos` to the next delimiter or the end. */
    static method ScanPiece(s: string, d: char, pos: nat) returns (j: nat)
      requires pos <= |s|
      ensures pos <= j <= |s| && (j < |s| ==> s[j] == d)
      ensures forall k :: pos <= k < j ==> s[k] != d
    {
      j := pos;
      while j < |s| && s[j] != d
        invariant pos <= j <= |s|
        invariant forall k :: pos <= k < j ==> s[k] != d
      {
        j := j + 1;
      }
    }

    /** `get(key)`: the column of `key`, or an empty one when there is none. */
    function Get(key: string): (r: seq<string>)
      reads this
      ensures key in data ==> r == data[key]
      ensures key !in data ==> r == []
    {
      if key in data then data[key] else []
    }

    /** `read()` over the file's lines: false with no header line; otherwise
        every header's column is reset and gets, for each data line, the
        cells under its positions, `""` where the line is short. Keys that
        are not headers keep their columns. */
    method Read(lines: seq<string>) returns (ok: bool)
      modifies this
      ensures ok <==> lines != []
      ensures !ok ==> data == old(data)
      ensures delimiter == old(delimiter)
      ensures ok ==> var headers := Pieces(lines[0], delimiter);
        (forall h :: h in data <==> h in old(data) || h in headers) &&
        (forall h :: h in data && h !in headers ==> data[h] == old(data)[h]) &&
        (forall h :: h in headers ==> data[h] == ColumnAfter(h, headers, DataRows(lines, delimiter)))
    {
      if lines == [] {
        return false;
      }
      var headers := Split(lines[0], delimiter);
      ResetColumns(headers);
      var k := 1;
      while k < |lines|
        invariant 1 <= k <= |lines|
        invariant delimiter == old(delimiter)
        invariant forall h :: h in data <==> h in old(data) || h in headers
        invariant forall h :: h in data && h !in headers ==> data[h] == old(data)[h]
        invariant forall h :: h in headers ==> data[h] == ColumnAfter(h, headers, DataRows(lines, delimiter)[..k - 1])
      {
        var row := Split(lines[k], delimiter);
        ghost var before := data;
        AppendRow(headers, row);
        ghost var rows := DataRows(lines, delimiter);
        assert rows[..k] == rows[..k - 1] + [row];
        assert rows[..k][..k - 1] == rows[..k - 1];
        k := k + 1;
      }
      assert DataRows(lines, delimiter)[..k - 1] == DataRows(lines, delimiter);
      return true;
    }

    /** `m_data[header] = {}` for every header. */
    method ResetColumns(headers: seq<string>)
      modifies this
      ensures delimiter == old(delimiter)
      ensures forall h :: h in data <==> h in old(data) || h in headers
      ensures forall h :: h in data && h !in headers ==> data[h] == old(data)[h]
      ensures forall h :: h in headers ==> data[h] == []
    {
      var i := 0;
      while i < |headers|
        invariant 0 <= i <= |headers|
        invariant delimiter == old(delimiter)
        invariant forall h :: h in data <==> h in old(data) || h in headers[..i]
        invariant forall h :: h in data && h !in headers[..i] ==> data[h] == old(data)[h]
        invariant forall h :: h in headers[..i] ==> data[h] == []
      {
        assert headers[..i + 1] == headers[..i] + [headers[i]];
        data := data[headers[i] := []];
        i := i + 1;
      }
      assert headers[..i] == headers;
    }

    /** The inner loop of `read`: one cell of `row` pushed onto each header's column. */
    method AppendRow(headers: seq<string>, row: seq<string>)
      requires forall h :: h in headers ==> h in data
      modifies this
      ensures delimiter == old(delimiter)
      ensures data.Keys == old(data).Keys
      ensures forall h :: h in data && h !in headers ==> data[h] == old(data)[h]
      ensures forall h :: h in headers ==> data[h] == old(data)[h] + RowCells(h, headers, row)
    {
      ghost var start := data;
      var i := 0;
      while i < |headers|
        invariant 0 <= i <= |headers|
        invariant delimiter == old(delimiter)
        invariant data.Keys == start.Keys
        invariant forall h :: h in data ==> data[h] == start[h] + RowCells(h, headers[..i], row)
      {
        var h := headers[i];
        var cell := if i < |row| then row[i] else "";
        ghost var before := data;
        data := data[h := data[h] + [cell]];
        forall g | g in data
          ensures data[g] == start[g] + RowCells(g, headers[..i + 1], row)
        {
          RowCellsSnoc(g, headers, row, i);
        }
        i := i + 1;
      }
      assert headers[..i] == headers;
      forall g | g in data && g !in headers
        ensures data[g] == start[g]
      {
        AbsentRowCells(g, headers, row);
      }
    }
  }

  lemma RowCellsSnoc(h: string, headers: seq<string>, row: seq<string>, i: nat)
    requires i < |headers|
    ensures RowCells(h, headers[..i + 1], row) ==
            RowCells(h, headers[..i], row) + (if headers[i] == h then [Cell(row, i)] else [])
  {
    assert headers[..i + 1][..i] == headers[..i];
  }

  /** One pass of the `getline` loop: the piece from `pos` up to the next
      delimiter (or the end), and where the next pass starts. */
  lemma PiecesStep(s: string, d: char, pos: nat, j: nat)
    requires pos < |s| && pos <= j <= |s|
    requires forall k :: pos <= k < j ==> s[k] != d
    requires j < |s| ==> s[j] == d
    ensures Pieces(s[pos..], d) == [s[pos..j]] + Pieces(s[if j < |s| then j + 1 else |s|..], d)
  {
    var t := s[pos..];
    assert forall k :: 0 <= k < j - pos ==> t[k] == s[pos + k];
    assert t[..j - pos] == s[pos..j];
    if j < |s| {
      assert t[j - pos] == d;
      PiecesCons(t, d, j - pos);
      assert t[j - pos + 1..] == s[j + 1..];
    } else {
      PiecesLast(t, d);
      assert s[pos..j] == t;
      assert s[|s|..] == [];
    }
  }

  /** Pieces with neither delimiters nor empty text. */
  predicate Clean(ps: seq<string>, d: char)
  {
    ps != [] && forall c :: c in ps ==> c != [] && d !in c
  }

  /** Reading a header line `h1,h2` and the data lines `x1,x2`, `y1,y2,y3`
      and `z`: each column gets one cell per data line, the short line is
      padded with `""` and the extra cell is dropped. */
  method ReadExample(d: char, h1: string, h2: string, x1: string, x2: string,
                     y1: string, y2: string, y3: string, z: string) returns (store: CSVDataStore)
    requires h1 != h2
    requires Clean([h1, h2], d) && Clean([x1, x2], d) && Clean([y1, y2, y3], d) && Clean([z], d)
    ensures h1 in store.data && store.data[h1] == [x1, y1, z]
    ensures h2 in store.data && store.data[h2] == [x2, y2, ""]
  {
    var lines := [Join([h1, h2], d), Join([x1, x2], d), Join([y1, y2, y3], d), Join([z], d)];
    store := new CSVDataStore(d);
    var ok := store.Read(lines);
    var rows := DataRows(lines, d);
    var headers := [h1, h2];
    ExampleRows(d, lines, rows, headers, [x1, x2], [y1, y2, y3], [z]);
    ExampleColumns(headers, rows, x1, x2, y1, y2, y3, z);
  }

  /** The columns of the example rows under two different headers. */
  lemma ExampleColumns(headers: seq<string>, rows: seq<seq<string>>,
                       x1: string, x2: string, y1: string, y2: string, y3: string, z: string)
    requires |headers| == 2 && headers[0] != headers[1]
    requires rows == [[x1, x2], [y1, y2, y3], [z]]
    ensures ColumnAfter(headers[0], headers, rows) == [x1, y1, z]
    ensures ColumnAfter(headers[1], headers, rows) == [x2, y2, ""]
  {
    DistinctColumns(headers, rows, 0);
    DistinctColumns(headers, rows, 1);
    assert Cell(rows[0], 0) == x1 && Cell(rows[1], 0) == y1 && Cell(rows[2], 0) == z;
    assert Cell(rows[0], 1) == x2 && Cell(rows[1], 1) == y2 && Cell(rows[2], 1) == "";
  }

  lemma ExampleRows(d: char, lines: seq<string>, rows: seq<seq<string>>,
                    hs: seq<string>, xs: seq<string>, ys: seq<string>, zs: seq<string>)
    requires lines == [Join(hs, d), Join(xs, d), Join(ys, d), Join(zs, d)] && rows == DataRows(lines, d)
    requires Clean(hs, d) && Clean(xs, d) && Clean(ys, d) && Clean(zs, d)
    ensures Pieces(lines[0], d) == hs
    ensures rows == [xs, ys, zs]
  {
    CleanPieces(hs, d);
    CleanPieces(xs, d);
    CleanPieces(ys, d);
    CleanPieces(zs, d);
    FourLines(lines, rows, d);
  }

  lemma FourLines(lines: seq<string>, rows: seq<seq<string>>, d: char)
    requires |lines| == 4 && rows == DataRows(lines, d)
    ensures rows == [Pieces(lines[1], d), Pieces(lines[2], d), Pieces(lines[3], d)]
  {
  }

  lemma CleanPieces(ps: seq<string>, d: char)
    requires Clean(ps, d)
    ensures Pieces(Join(ps, d), d) == ps
  {
    assert ps[|ps| - 1] in ps;
    PiecesOfJoin(ps, d);
  }
}
