/** Multi-row INSERT statements under the driver's limit on parameters. */
module SqlBatch {
  import opened Common
  import opened Decimals
  import opened SqlWhere

  const MAX_ARGS: nat := 30_000

  /** A row's fields in column order. */
  type Fields = seq<Value>

  datatype BatchError = NoValues | NoColumns | TooManyColumns

  /** VALUES (:a0, :b0), (:a1, :b1) ... with the bindings of those names. */
  datatype Statement = Statement(placeholders: seq<seq<string>>, values: Bindings)

  /** f"{key}{ind}" */
  function Name(column: string, index: nat): string {
    column + Decimal(index)
  }

  ghost predicate Distinct(columns: seq<string>) {
    forall i, j :: 0 <= i < j < |columns| ==> columns[i] != columns[j]
  }

  /** Every row has one field per column. */
  ghost predicate Rectangular(columns: seq<string>, rows: seq<Fields>) {
    forall r :: 0 <= r < |rows| ==> |rows[r]| == |columns|
  }

  /** No two fields of a statement of `count` rows share a parameter name. */
  ghost predicate NamesDistinct(columns: seq<string>, count: nat) {
    forall c, d, i, j | 0 <= c < |columns| && 0 <= d < |columns| && 0 <= i < count && 0 <= j < count ::
      Name(columns[c], i) == Name(columns[d], j) ==> c == d && i == j
  }

  /** Fields of these rows that share a parameter name are equal. */
  ghost predicate ValuesAgree(columns: seq<string>, rows: seq<Fields>)
    requires Rectangular(columns, rows)
  {
    forall c, d, i, j | 0 <= c < |columns| && 0 <= d < |columns| && 0 <= i < |rows| && 0 <= j < |rows| ::
      Name(columns[c], i) == Name(columns[d], j) ==> rows[i][c] == rows[j][d]
  }

  predicate Positional(columns: seq<string>, count: nat, placeholders: seq<seq<string>>) {
    && |placeholders| == count
    && forall r :: 0 <= r < count ==>
         |placeholders[r]| == |columns| && forall c :: 0 <= c < |columns| ==> placeholders[r][c] == Name(columns[c], r)
  }

  /** Executing the statement inserts exactly these rows: each placeholder is bound to its own field. */
  ghost predicate Inserts(st: Statement, rows: seq<Fields>) {
    && |st.placeholders| == |rows|
    && forall r :: 0 <= r < |rows| ==>
         && |st.placeholders[r]| == |rows[r]|
         && forall c :: 0 <= c < |rows[r]| ==>
              st.placeholders[r][c] in st.values && st.values[st.placeholders[r][c]] == rows[r][c]
  }

  /** A statement for these rows stays within the limit, and inserts them exactly when clashing names hold equal fields. */
  ghost predicate Covers(columns: seq<string>, st: Statement, rows: seq<Fields>) {
    && Rectangular(columns, rows)
    && Positional(columns, |rows|, st.placeholders)
    && |columns| * |rows| <= MAX_ARGS
    && (Inserts(st, rows) <==> ValuesAgree(columns, rows))
    && (NamesDistinct(columns, |rows|) ==> Inserts(st, rows))
  }

  /** The rows of statement `k`. */
  function Chunk(rows: seq<Fields>, size: nat, k: nat): seq<Fields>
    requires size > 0
  {
    var from := if k * size > |rows| then |rows| else k * size;
    var to := if from + size > |rows| then |rows| else from + size;
    rows[from..to]
  }

  /** `n` is `total / size`, rounded up. */
  predicate IsCeiling(n: nat, total: nat, size: nat) {
    n > 0 && (n - 1) * size < total <= n * size
  }

  /**
    The statements of `add_batch`.  Zero columns divide by zero and more than
    MAX_ARGS columns make an empty step; both raise.
   */
  method AddBatch(columns: seq<string>, data: seq<Fields>) returns (r: Result<seq<Statement>, BatchError>)
    requires Rectangular(columns, data)
    ensures data == [] ==> r == Err(NoValues)
    ensures data != [] && columns == [] ==> r == Err(NoColumns)
    ensures data != [] && |columns| > 30_000 ==> r == Err(TooManyColumns)
    ensures data != [] && 1 <= |columns| <= 30_000 ==>
              && r.Ok?
              && var size := 30_000 / |columns|;
                 && size >= 1 && IsCeiling(|r.value|, |data|, size)
                 && CoversChunks(columns, data, size, r.value)
  {
    if data == [] { return Err(NoValues); }
    if columns == [] { return Err(NoColumns); }
    var size := MAX_ARGS / |columns|;
    if size == 0 { return Err(TooManyColumns); }
    ChunkFits(|columns|, size, size);
    var statements := InsertInChunks(columns, data, size);
    return Ok(statements);
  }

  /** The loop over slices of `size` rows. */
  method InsertInChunks(columns: seq<string>, data: seq<Fields>, size: nat) returns (statements: seq<Statement>)
    requires data != [] && size > 0 && |columns| * size <= MAX_ARGS && Rectangular(columns, data)
    ensures IsCeiling(|statements|, |data|, size)
    ensures CoversChunks(columns, data, size, statements)
  {
    statements := [];
    var i := 0;
    while i < |data|
      invariant i == |statements| * size
      invariant i == 0 || i - size < |data|
      invariant CoversChunks(columns, data, size, statements)
      decreases |data| - i
    {
      var st := InsertChunk(columns, data, size, i, |statements|);
      OneMoreStatement(columns, data, size, statements, st);
      NextChunk(data, size, |statements|);
      statements := statements + [st];
      i := i + size;
    }
    assert i - size == (|statements| - 1) * size;
  }

  /** The body of that loop. */
  method InsertChunk(columns: seq<string>, data: seq<Fields>, size: nat, i: nat, ghost k: nat) returns (st: Statement)
    requires size > 0 && |columns| * size <= MAX_ARGS && Rectangular(columns, data)
    requires i < |data| && i == k * size
    ensures Covers(columns, st, Chunk(data, size, k))
  {
    NextChunk(data, size, k);
    var insertData := data[i..if i + size > |data| then |data| else i + size];
    RectangularSlice(columns, data, i, i + |insertData|);
    Narrower(|columns|, size, |insertData|);
    st := MakeWithinLimit(columns, insertData, Chunk(data, size, k));
  }

  method MakeWithinLimit(columns: seq<string>, rows: seq<Fields>, ghost chunk: seq<Fields>) returns (st: Statement)
    requires Rectangular(columns, rows) && |columns| * |rows| <= MAX_ARGS && rows == chunk
    ensures Covers(columns, st, chunk)
  {
    st := MakeStatement(columns, rows);
  }

  lemma RectangularSlice(columns: seq<string>, rows: seq<Fields>, from: nat, to: nat)
    requires Rectangular(columns, rows) && from <= to <= |rows|
    ensures Rectangular(columns, rows[from..to])
  {
  }

  ghost predicate CoversChunks(columns: seq<string>, data: seq<Fields>, size: nat, statements: seq<Statement>)
    requires size > 0
  {
    forall k :: 0 <= k < |statements| ==> Covers(columns, statements[k], Chunk(data, size, k))
  }

  lemma OneMoreStatement(columns: seq<string>, data: seq<Fields>, size: nat, statements: seq<Statement>, st: Statement)
    requires size > 0 && CoversChunks(columns, data, size, statements)
    requires Covers(columns, st, Chunk(data, size, |statements|))
    ensures CoversChunks(columns, data, size, statements + [st])
  {
  }

  lemma Narrower(width: nat, size: nat, rows: nat)
    requires rows <= size
    ensures width * rows <= width * size
  {
  }

  lemma ChunkFits(width: nat, size: nat, rows: nat)
    requires width > 0 && size == MAX_ARGS / width && rows <= size
    ensures width * rows <= MAX_ARGS
  {
  }

  lemma NextChunk(data: seq<Fields>, size: nat, k: nat)
    requires size > 0 && k * size < |data|
    ensures Chunk(data, size, k) == data[k * size..if k * size + size > |data| then |data| else k * size + size]
    ensures (k + 1) * size == k * size + size
  {
  }

  /** The comprehensions of the loop body. */
  method MakeStatement(columns: seq<string>, rows: seq<Fields>) returns (st: Statement)
    requires Rectangular(columns, rows)
    ensures Positional(columns, |rows|, st.placeholders)
    ensures Inserts(st, rows) <==> ValuesAgree(columns, rows)
    ensures NamesDistinct(columns, |rows|) ==> Inserts(st, rows)
  {
    var placeholders: seq<seq<string>> := [];
    for r := 0 to |rows|
      invariant Positional(columns, r, placeholders)
    {
      placeholders := placeholders + [seq(|columns|, c requires 0 <= c < |columns| => Name(columns[c], r))];
    }
    var values := CollectValues(columns, rows);
    st := Statement(placeholders, values);
    if ValuesAgree(columns, rows) { BoundInserts(columns, rows, st); }
    if Inserts(st, rows) { InsertsAgree(columns, rows, st); }
    if NamesDistinct(columns, |rows|) { DistinctAgree(columns, rows); }
  }

  lemma BoundInserts(columns: seq<string>, rows: seq<Fields>, st: Statement)
    requires Rectangular(columns, rows) && Positional(columns, |rows|, st.placeholders)
    requires BoundSoFar(columns, rows, st.values, |columns|, 0)
    ensures Inserts(st, rows)
  {
    forall r, c | 0 <= r < |rows| && 0 <= c < |columns|
      ensures st.placeholders[r][c] in st.values && st.values[st.placeholders[r][c]] == rows[r][c]
    {
      assert Bound(columns, rows, st.values, c, r);
    }
  }

  /** One name binds one value: with different fields behind it, one of them is not inserted. */
  lemma InsertsAgree(columns: seq<string>, rows: seq<Fields>, st: Statement)
    requires Rectangular(columns, rows) && Positional(columns, |rows|, st.placeholders) && Inserts(st, rows)
    ensures ValuesAgree(columns, rows)
  {
    forall c, d, i, j | 0 <= c < |columns| && 0 <= d < |columns| && 0 <= i < |rows| && 0 <= j < |rows|
                        && Name(columns[c], i) == Name(columns[d], j)
      ensures rows[i][c] == rows[j][d]
    {
      assert st.placeholders[i][c] == st.placeholders[j][d];
    }
  }

  lemma DistinctAgree(columns: seq<string>, rows: seq<Fields>)
    requires Rectangular(columns, rows) && NamesDistinct(columns, |rows|)
    ensures ValuesAgree(columns, rows)
  {
  }

  lemma ClashSpoils(columns: seq<string>, rows: seq<Fields>, st: Statement, c: nat, i: nat, d: nat, j: nat)
    requires Rectangular(columns, rows) && Positional(columns, |rows|, st.placeholders)
    requires c < |columns| && d < |columns| && i < |rows| && j < |rows|
    requires Name(columns[c], i) == Name(columns[d], j) && rows[i][c] != rows[j][d]
    ensures !Inserts(st, rows)
  {
  }

  /** Columns `a` and `a1` and eleven rows: `a10` is the last field of `a` and the first of `a1`. */
  lemma ElevenRowsClash(columns: seq<string>, rows: seq<Fields>, st: Statement)
    requires columns == ["a", "a1"] && |rows| == 11 && Rectangular(columns, rows)
    requires Positional(columns, 11, st.placeholders)
    requires rows[10][0] != rows[0][1]
    ensures !Inserts(st, rows)
  {
    assert Decimal(10) == Decimal(1) + [Digit(0)];
    assert Name("a", 10) == "a10" == Name("a1", 0);
    ClashSpoils(columns, rows, st, 0, 10, 1, 0);
  }

  ghost predicate Bound(columns: seq<string>, rows: seq<Fields>, values: Bindings, d: nat, i: nat)
    requires d < |columns| && i < |rows| && Rectangular(columns, rows)
  {
    Name(columns[d], i) in values && values[Name(columns[d], i)] == rows[i][d]
  }

  /** The first `c` columns of all rows, and the next column of the first `n` rows, are bound. */
  ghost predicate BoundSoFar(columns: seq<string>, rows: seq<Fields>, values: Bindings, c: nat, n: nat)
    requires c <= |columns| && n <= |rows| && Rectangular(columns, rows)
  {
    forall d, i | 0 <= d < |columns| && 0 <= i < |rows| && (d < c || (d == c && i < n)) :: Bound(columns, rows, values, d, i)
  }

  /** The dictionary is filled column by column. */
  method CollectValues(columns: seq<string>, rows: seq<Fields>) returns (values: Bindings)
    requires Rectangular(columns, rows)
    ensures ValuesAgree(columns, rows) ==> BoundSoFar(columns, rows, values, |columns|, 0)
  {
    values := map[];
    for c := 0 to |columns|
      invariant ValuesAgree(columns, rows) ==> BoundSoFar(columns, rows, values, c, 0)
    {
      for ind := 0 to |rows|
        invariant ValuesAgree(columns, rows) ==> BoundSoFar(columns, rows, values, c, ind)
      {
        if ValuesAgree(columns, rows) { OneMoreField(columns, rows, values, c, ind); }
        values := values[Name(columns[c], ind) := rows[ind][c]];
      }
      if ValuesAgree(columns, rows) { ColumnDone(columns, rows, values, c); }
    }
  }

  lemma OneMoreField(columns: seq<string>, rows: seq<Fields>, values: Bindings, c: nat, n: nat)
    requires c < |columns| && n < |rows| && Rectangular(columns, rows)
    requires ValuesAgree(columns, rows) && BoundSoFar(columns, rows, values, c, n)
    ensures BoundSoFar(columns, rows, values[Name(columns[c], n) := rows[n][c]], c, n + 1)
  {
    var more := values[Name(columns[c], n) := rows[n][c]];
    forall d, i | 0 <= d < |columns| && 0 <= i < |rows| && (d < c || (d == c && i < n + 1))
      ensures Bound(columns, rows, more, d, i)
    {
      assert i < n || d < c ==> Bound(columns, rows, values, d, i);
      assert Name(columns[d], i) == Name(columns[c], n) ==> rows[i][d] == rows[n][c];
    }
  }

  lemma ColumnDone(columns: seq<string>, rows: seq<Fields>, values: Bindings, c: nat)
    requires c < |columns| && Rectangular(columns, rows) && BoundSoFar(columns, rows, values, c, |rows|)
    ensures BoundSoFar(columns, rows, values, c + 1, 0)
  {
  }

  // ------------------------------------------------------------------------
  // Together the chunks are the input, and the names are distinct
  // ------------------------------------------------------------------------

  function FirstChunks(rows: seq<Fields>, size: nat, n: nat): seq<Fields>
    requires size > 0
  {
    if n == 0 then [] else FirstChunks(rows, size, n - 1) + Chunk(rows, size, n - 1)
  }

  /** The statements insert every row once, in order. */
  lemma ChunksConcatenate(rows: seq<Fields>, size: nat, n: nat)
    requires size > 0 && IsCeiling(n, |rows|, size)
    ensures FirstChunks(rows, size, n) == rows
  {
    FirstChunksAre(rows, size, n);
  }

  lemma {:induction false} FirstChunksAre(rows: seq<Fields>, size: nat, n: nat)
    requires size > 0
    ensures FirstChunks(rows, size, n) == rows[..if n * size > |rows| then |rows| else n * size]
  {
    if n == 0 {
    } else {
      FirstChunksAre(rows, size, n - 1);
      assert n * size == (n - 1) * size + size;
    }
  }

  /** One column is another one followed by a positive number that is small enough. */
  ghost predicate Ambiguous(columns: seq<string>, count: nat) {
    exists c, d, m: nat :: 0 <= c < |columns| && 0 <= d < |columns| && Clash(columns[c], columns[d], m, count)
  }

  predicate Clash(column: string, longer: string, m: nat, count: nat) {
    m >= 1 && longer == column + Decimal(m) && 10 * m < count
  }

  lemma {:induction false} PrefixOfDecimal(n: nat, k: nat) returns (m: nat)
    requires 1 <= k < |Decimal(n)|
    ensures m >= 1 && 10 * m <= n && Decimal(m) == Decimal(n)[..k]
  {
    var tens := n / 10;
    assert Decimal(n) == Decimal(tens) + [Digit(n % 10)];
    if k == |Decimal(tens)| {
      m := tens;
      assert Decimal(n)[..k] == Decimal(tens);
    } else {
      m := PrefixOfDecimal(tens, k);
      assert Decimal(n)[..k] == Decimal(tens)[..k];
    }
  }

  lemma SameNames(a: string, i: nat, b: string, j: nat) returns (m: nat)
    requires Name(a, i) == Name(b, j) && |a| <= |b|
    ensures (a == b && i == j) || Clash(a, b, m, i + 1)
  {
    var s := Name(a, i);
    assert a == s[..|a|] && b == s[..|b|] && b[..|a|] == a;
    assert s[|a|..] == Decimal(i) && s[|b|..] == Decimal(j);
    if |a| == |b| {
      DecimalInjective(i, j);
      m := 0;
    } else {
      var k := |b| - |a|;
      assert |s| == |b| + |Decimal(j)| == |a| + |Decimal(i)|;
      m := PrefixOfDecimal(i, k);
      assert Decimal(i)[..k] == s[|a|..][..k] == s[|a|..|b|];
      assert b == a + Decimal(i)[..k];
    }
  }

  /** Exactly when the generated names can be trusted. */
  lemma NamesDistinctIff(columns: seq<string>, count: nat)
    requires Distinct(columns)
    ensures NamesDistinct(columns, count) <==> !Ambiguous(columns, count)
  {
    if Ambiguous(columns, count) {
      var c, d, m: nat :| 0 <= c < |columns| && 0 <= d < |columns| && Clash(columns[c], columns[d], m, count);
      assert Decimal(10 * m) == Decimal(m) + [Digit(0)];
      assert Name(columns[c], 10 * m) == columns[c] + Decimal(m) + [Digit(0)] == Name(columns[d], 0);
    }
    forall c, d, i, j | 0 <= c < |columns| && 0 <= d < |columns| && 0 <= i < count && 0 <= j < count
                        && Name(columns[c], i) == Name(columns[d], j)
      ensures (c == d && i == j) || Ambiguous(columns, count)
    {
      if |columns[c]| <= |columns[d]| {
        var m := SameNames(columns[c], i, columns[d], j);
        assert Clash(columns[c], columns[d], m, i + 1) ==> Clash(columns[c], columns[d], m, count);
      } else {
        var m := SameNames(columns[d], j, columns[c], i);
        assert Clash(columns[d], columns[c], m, count);
      }
    }
  }

  predicate EndsWithDigit(s: string) {
    s != "" && IsDigit(s[|s| - 1])
  }

  /** Columns that do not end with a digit are never ambiguous. */
  lemma NoTrailingDigitIsEnough(columns: seq<string>, count: nat)
    requires Distinct(columns) && forall c :: 0 <= c < |columns| ==> !EndsWithDigit(columns[c])
    ensures NamesDistinct(columns, count)
  {
    NamesDistinctIff(columns, count);
    forall c, d, m: nat | 0 <= c < |columns| && 0 <= d < |columns| ensures !Clash(columns[c], columns[d], m, count) {
      DecimalIsDigits(m);
      var s := columns[c] + Decimal(m);
      assert s[|s| - 1] == Decimal(m)[|Decimal(m)| - 1];
      assert EndsWithDigit(s);
    }
  }
}
