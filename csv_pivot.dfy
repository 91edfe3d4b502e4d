/**
 * The header-to-column pivot of `CsvToSlice`: the record list produced by
 * the CSV reader becomes a map from each header to that column's values.
 */
module CsvPivot {
  import opened Outcomes

  /** One CSV record: its fields, left to right. */
  type Record = seq<string>

  /** The table sent to the answering model: header name to column values. */
  type Table = map<string, seq<string>>

  /** Every record has the first record's width. */
  predicate Rectangular(records: seq<Record>) {
    forall r :: 0 <= r < |records| ==> |records[r]| == |records[0]|
  }

  /**
   * What the reader hands over on success. The reader fixes the number of
   * fields per record from the first record and fails on any record of
   * another width, so a ragged list never reaches the pivot.
   */
  type Records = records: seq<Record> | Rectangular(records) witness []

  /** The outcome of reading the whole CSV text. */
  datatype ReadOutcome = ReadFailed(err: Error) | ReadOk(records: Records)

  /** Every data row has exactly one field per header. */
  predicate Fits(headers: Record, rows: seq<Record>) {
    forall r :: 0 <= r < |rows| ==> |rows[r]| == |headers|
  }

  /** The set of header names (duplicates collapse). */
  function HeaderSet(headers: Record): set<string> {
    set j | 0 <= j < |headers| :: headers[j]
  }

  /** The fields among the first `k` of `row` whose header is `h`, left to right. */
  function Picks(headers: Record, row: Record, h: string, k: nat): seq<string>
    requires k <= |row| && k <= |headers|
  {
    if k == 0 then []
    else Picks(headers, row, h, k - 1) + (if headers[k - 1] == h then [row[k - 1]] else [])
  }

  /** The values filed under `h` from the first `n` data rows, row by row. */
  function Column(headers: Record, rows: seq<Record>, h: string, n: nat): seq<string>
    requires Fits(headers, rows) && n <= |rows|
  {
    if n == 0 then []
    else Column(headers, rows, h, n - 1) + Picks(headers, rows[n - 1], h, |headers|)
  }

  /** The table built from a header row and the first `n` data rows below it. */
  function PivotOf(headers: Record, rows: seq<Record>, n: nat): Table
    requires Fits(headers, rows) && n <= |rows|
  {
    map h | h in HeaderSet(headers) :: Column(headers, rows, h, n)
  }

  lemma {:induction false} RowsFit(records: Records)
    requires |records| > 0
    ensures Fits(records[0], records[1..])
  {
    forall r | 0 <= r < |records| - 1
      ensures |records[1..][r]| == |records[0]|
    {
      assert records[1..][r] == records[r + 1];
    }
  }

  /**
   * What `CsvToSlice` returns for a reader outcome: the reader's error and
   * no map; no map and no error for an empty record list; otherwise the
   * pivot of the rows below the header row.
   */
  function Pivoted(read: ReadOutcome): (r: Result<Option<Table>, Error>)
    ensures r.Failure? <==> read.ReadFailed?
    ensures read.ReadFailed? ==> r.error == read.err
    ensures r == Success(None) <==> read.ReadOk? && |read.records| == 0
    ensures r.Success? && r.value.Some? ==>
              r.value.value.Keys == HeaderSet(read.records[0])
    ensures read.ReadOk? && |read.records| == 1 ==>
              forall h :: h in r.value.value ==> r.value.value[h] == []
  {
    match read
    case ReadFailed(e) => Failure(e)
    case ReadOk(records) =>
      if |records| == 0 then Success(None)
      else
        RowsFit(records);
        Success(Some(PivotOf(records[0], records[1..], |records[1..]|)))
  }

  /** Every header of `headers[..i]` mapped to an empty list. */
  function EmptyColumns(headers: Record, i: nat): Table
    requires i <= |headers|
  {
    map h | h in HeaderSet(headers[..i]) :: []
  }

  lemma {:induction false} EmptyColumnsStep(headers: Record, i: nat)
    requires i < |headers|
    ensures EmptyColumns(headers, i)[headers[i] := []] == EmptyColumns(headers, i + 1)
  {
    assert headers[..i + 1] == headers[..i] + [headers[i]];
    assert HeaderSet(headers[..i + 1]) == HeaderSet(headers[..i]) + {headers[i]};
  }

  lemma {:induction false} EmptyColumnsEnd(headers: Record, rows: seq<Record>)
    requires Fits(headers, rows)
    ensures EmptyColumns(headers, |headers|) == PivotOf(headers, rows, 0)
  {
    assert headers[..|headers|] == headers;
  }

  /** The table after the first `n` data rows and the first `k` fields of row `n`. */
  function Partial(headers: Record, rows: seq<Record>, n: nat, k: nat): Table
    requires Fits(headers, rows) && n < |rows| && k <= |headers|
  {
    map h | h in HeaderSet(headers) :: Column(headers, rows, h, n) + Picks(headers, rows[n], h, k)
  }

  lemma {:induction false} PartialStart(headers: Record, rows: seq<Record>, n: nat)
    requires Fits(headers, rows) && n < |rows|
    ensures Partial(headers, rows, n, 0) == PivotOf(headers, rows, n)
  {
    var t := Partial(headers, rows, n, 0);
    forall h | h in t
      ensures t[h] == Column(headers, rows, h, n)
    {
      assert Picks(headers, rows[n], h, 0) == [];
    }
  }

  lemma {:induction false} PartialStep(headers: Record, rows: seq<Record>, n: nat, k: nat)
    requires Fits(headers, rows) && n < |rows| && k < |headers|
    ensures headers[k] in Partial(headers, rows, n, k)
    ensures var t := Partial(headers, rows, n, k);
            t[headers[k] := t[headers[k]] + [rows[n][k]]] == Partial(headers, rows, n, k + 1)
  {
    assert headers[k] in HeaderSet(headers);
    var t, t' := Partial(headers, rows, n, k), Partial(headers, rows, n, k + 1);
    var u := t[headers[k] := t[headers[k]] + [rows[n][k]]];
    assert u.Keys == t'.Keys;
    forall h | h in u
      ensures u[h] == t'[h]
    {
      var pre := Column(headers, rows, h, n);
      if h == headers[k] {
        assert Picks(headers, rows[n], h, k + 1) == Picks(headers, rows[n], h, k) + [rows[n][k]];
        assert u[h] == pre + Picks(headers, rows[n], h, k) + [rows[n][k]];
      } else {
        assert Picks(headers, rows[n], h, k + 1) == Picks(headers, rows[n], h, k) + [];
      }
    }
  }

  lemma {:induction false} PartialEnd(headers: Record, rows: seq<Record>, n: nat)
    requires Fits(headers, rows) && n < |rows|
    ensures Partial(headers, rows, n, |headers|) == PivotOf(headers, rows, n + 1)
  {
  }

  /** The header loop: one empty list per header name. */
  method EmptyTable(headers: Record) returns (result: Table)
    ensures result == EmptyColumns(headers, |headers|)
    ensures result.Keys == HeaderSet(headers) && forall h :: h in result ==> result[h] == []
  {
    result := map[];
    for i := 0 to |headers|
      invariant result == EmptyColumns(headers, i)
    {
      EmptyColumnsStep(headers, i);
      result := result[headers[i] := []];
    }
    assert headers[..|headers|] == headers;
  }

  /** The field loop for data row `n`: each field appended to its header's list. */
  method AppendRecord(result: Table, headers: Record, rows: seq<Record>, n: nat) returns (result': Table)
    requires Fits(headers, rows) && n < |rows|
    requires result == PivotOf(headers, rows, n)
    ensures result' == PivotOf(headers, rows, n + 1)
  {
    var record := rows[n];
    PartialStart(headers, rows, n);
    result' := result;
    for k := 0 to |record|
      invariant |record| == |headers|
      invariant result' == Partial(headers, rows, n, k)
    {
      PartialStep(headers, rows, n, k);
      result' := result'[headers[k] := result'[headers[k]] + [record[k]]];
    }
    PartialEnd(headers, rows, n);
  }

  /**
   * The pivot as the handler runs it: one empty list per header, then every
   * field of every data row appended to its header's list.
   */
  method CsvToSlice(read: ReadOutcome) returns (r: Result<Option<Table>, Error>)
    ensures r == Pivoted(read)
  {
    if read.ReadFailed? {
      return Failure(read.err);
    }
    var records := read.records;
    if |records| == 0 {
      return Success(None);
    }
    var headers := records[0];
    var result := EmptyTable(headers);
    var rows := records[1..];
    RowsFit(records);
    EmptyColumnsEnd(headers, rows);
    for n := 0 to |rows|
      invariant result == PivotOf(headers, rows, n)
    {
      result := AppendRecord(result, headers, rows, n);
    }
    return Success(Some(result));
  }

  // ---------------------------------------------------------------------
  // Distinct headers: one column per header, positional values

  predicate Distinct(headers: Record) {
    forall i, j :: 0 <= i < j < |headers| ==> headers[i] != headers[j]
  }

  /** With distinct headers, header `headers[j]` picks exactly field `j`. */
  lemma {:induction false} PicksDistinct(headers: Record, row: Record, j: nat, k: nat)
    requires Distinct(headers) && j < |headers|
    requires k <= |row| && k <= |headers|
    ensures Picks(headers, row, headers[j], k) == if j < k then [row[j]] else []
  {
    if k > 0 {
      PicksDistinct(headers, row, j, k - 1);
      assert headers[k - 1] == headers[j] <==> k - 1 == j;
    }
  }

  /** With distinct headers, column `j` is field `j` of each data row in order. */
  lemma {:induction false} ColumnDistinct(headers: Record, rows: seq<Record>, j: nat, n: nat)
    requires Distinct(headers) && j < |headers|
    requires Fits(headers, rows) && n <= |rows|
    ensures |Column(headers, rows, headers[j], n)| == n
    ensures forall r :: 0 <= r < n ==> Column(headers, rows, headers[j], n)[r] == rows[r][j]
  {
    if n > 0 {
      ColumnDistinct(headers, rows, j, n - 1);
      PicksDistinct(headers, rows[n - 1], j, |headers|);
      var col, prefix := Column(headers, rows, headers[j], n), Column(headers, rows, headers[j], n - 1);
      assert col == prefix + [rows[n - 1][j]];
      forall r | 0 <= r < n
        ensures col[r] == rows[r][j]
      {
        if r < n - 1 {
          assert col[r] == prefix[r];
        }
      }
    }
  }

  /**
   * With distinct headers every column has one value per data row, and the
   * value of header `j` in data row `r` is field `j` of record `r + 1`.
   */
  lemma {:induction false} DistinctHeadersArePositional(records: Records, j: nat)
    requires |records| > 0 && Distinct(records[0]) && j < |records[0]|
    ensures Pivoted(ReadOk(records)).value.value[records[0][j]] ==
              seq(|records| - 1, r' requires 0 <= r' < |records| - 1 => records[r' + 1][j])
  {
    var headers, rows := records[0], records[1..];
    RowsFit(records);
    ColumnDistinct(headers, rows, j, |rows|);
  }

  // ---------------------------------------------------------------------
  // Duplicate headers: their columns merge in row-major order

  /** The number of fields among the first `k` of a row filed under `h`. */
  lemma {:induction false} PicksLength(headers: Record, row: Record, h: string, k: nat)
    requires k <= |row| && k <= |headers|
    ensures |Picks(headers, row, h, k)| == multiset(headers[..k])[h]
  {
    if k > 0 {
      PicksLength(headers, row, h, k - 1);
      assert headers[..k] == headers[..k - 1] + [headers[k - 1]];
      assert multiset(headers[..k]) == multiset(headers[..k - 1]) + multiset{headers[k - 1]};
    }
  }

  /**
   * A header that occurs `m` times gets `m` values from each data row, so
   * its list has `m` times as many values as there are data rows.
   */
  lemma {:induction false} ColumnLength(headers: Record, rows: seq<Record>, h: string, n: nat, m: nat)
    requires Fits(headers, rows) && n <= |rows| && m == multiset(headers)[h]
    ensures |Column(headers, rows, h, n)| == n * m
  {
    if n > 0 {
      ColumnLength(headers, rows, h, n - 1, m);
      PicksLength(headers, rows[n - 1], h, |headers|);
      assert headers[..|headers|] == headers;
      MulSucc(n - 1, m);
    }
  }

  lemma {:induction false} MulSucc(r: nat, m: nat)
    ensures (r + 1) * m == r * m + m
  {
  }

  /** Appending never rewrites a value: the list after `n` rows extends the list after `p`. */
  lemma {:induction false} ColumnPrefix(headers: Record, rows: seq<Record>, h: string, p: nat, n: nat)
      returns (rest: seq<string>)
    requires Fits(headers, rows) && p <= n <= |rows|
    ensures Column(headers, rows, h, n) == Column(headers, rows, h, p) + rest
  {
    if p == n {
      rest := [];
      assert Column(headers, rows, h, p) + [] == Column(headers, rows, h, p);
    } else {
      var rest' := ColumnPrefix(headers, rows, h, p, n - 1);
      var last := Picks(headers, rows[n - 1], h, |headers|);
      rest := rest' + last;
      assert Column(headers, rows, h, p) + rest' + last == Column(headers, rows, h, p) + rest;
    }
  }

  /**
   * Data row `r`'s fields under `h` follow, in the final column, the values
   * of the rows before it.
   */
  lemma {:induction false} ColumnBlock(headers: Record, rows: seq<Record>, h: string, n: nat, r: nat)
    requires Fits(headers, rows) && r < n <= |rows|
    ensures var lo, block := |Column(headers, rows, h, r)|, Picks(headers, rows[r], h, |headers|);
            lo + |block| <= |Column(headers, rows, h, n)| &&
            Column(headers, rows, h, n)[lo..lo + |block|] == block
  {
    var rest := ColumnPrefix(headers, rows, h, r + 1, n);
    var before, block := Column(headers, rows, h, r), Picks(headers, rows[r], h, |headers|);
    ColumnStep(headers, rows, h, r);
    MiddleSlice(before, block, rest);
  }

  lemma {:induction false} ColumnStep(headers: Record, rows: seq<Record>, h: string, r: nat)
    requires Fits(headers, rows) && r < |rows|
    ensures Column(headers, rows, h, r + 1) == Column(headers, rows, h, r) + Picks(headers, rows[r], h, |headers|)
  {
  }

  /** The middle part of a three-part concatenation, recovered by slicing. */
  lemma {:induction false} MiddleSlice(before: seq<string>, block: seq<string>, rest: seq<string>)
    ensures (before + block + rest)[|before|..|before| + |block|] == block
  {
    assert (before + block + rest)[|before|..] == block + rest;
  }

  /**
   * Row-major order: the `m` values of data row `r` form the `r`-th block of
   * the column, in the order their fields stand in the row.
   */
  lemma {:induction false} ColumnRowBlock(headers: Record, rows: seq<Record>, h: string, n: nat, r: nat, m: nat)
    requires Fits(headers, rows) && r < n <= |rows| && m == multiset(headers)[h]
    ensures r * m <= (r + 1) * m <= |Column(headers, rows, h, n)|
    ensures Column(headers, rows, h, n)[r * m .. (r + 1) * m] == Picks(headers, rows[r], h, |headers|)
  {
    ColumnBlock(headers, rows, h, n, r);
    ColumnLength(headers, rows, h, r, m);
    PicksLength(headers, rows[r], h, |headers|);
    assert headers[..|headers|] == headers;
    MulSucc(r, m);
  }

  /** The pivot's list for a header of the header row is that header's column. */
  lemma {:induction false} PivotedColumn(records: Records, h: string)
    requires |records| > 0 && h in records[0]
    ensures Fits(records[0], records[1..])
    ensures Pivoted(ReadOk(records)).Success? && Pivoted(ReadOk(records)).value.Some?
    ensures h in Pivoted(ReadOk(records)).value.value
    ensures Pivoted(ReadOk(records)).value.value[h] == Column(records[0], records[1..], h, |records[1..]|)
  {
    RowsFit(records);
    assert h == records[0][IndexOf(records[0], h)];
    assert h in HeaderSet(records[0]);
  }

  /**
   * The pivot under duplicate headers: a header that occurs `m` times maps
   * to one list of `m` values per data row, and data row `r` contributes
   * the `r`-th block of `m`, taken from the fields under that header.
   */
  lemma {:induction false} DuplicateHeadersMerge(records: Records, h: string, r: nat, m: nat)
    requires |records| > 0 && h in records[0] && r < |records| - 1
    requires m == multiset(records[0])[h]
    ensures Pivoted(ReadOk(records)).Success? && Pivoted(ReadOk(records)).value.Some?
    ensures h in Pivoted(ReadOk(records)).value.value
    ensures var col, rows := Pivoted(ReadOk(records)).value.value[h], records[1..];
            |col| == |rows| * m && r * m <= (r + 1) * m <= |col| &&
            col[r * m .. (r + 1) * m] == Picks(records[0], rows[r], h, |records[0]|)
  {
    PivotedColumn(records, h);
    ColumnLength(records[0], records[1..], h, |records[1..]|, m);
    ColumnRowBlock(records[0], records[1..], h, |records[1..]|, r, m);
  }

  function IndexOf(s: Record, x: string): (j: nat)
    requires x in s
    ensures j < |s| && s[j] == x
  {
    if s[0] == x then 0 else 1 + IndexOf(s[1..], x)
  }
}
