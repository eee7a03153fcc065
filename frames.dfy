/** The table every service receives: a pandas DataFrame reduced to the parts
    the services look at (row count, named columns, each column's dtype tag and
    its cells), plus the small helpers several services share. */
module Frames {

  datatype Option<+T> = None | Some(value: T)

  /** What a Python call did: returned a value, or raised an exception whose
      `str(e)` is `message`. */
  datatype Outcome<+T> = Returned(value: T) | Raised(message: string)

  /** A column's dtype. `OtherNumeric` covers every other `np.number` dtype
      (int32, float32, uint8, ...); `NonNumeric` covers object, bool, datetime
      and category columns. The names are the ones `str(dtype)` prints. */
  datatype DType = Int64 | Float64 | OtherNumeric(name: string) | NonNumeric(name: string)

  /** A cell: missing (NaN/None), a number, or text. */
  datatype Cell = Null | Num(value: real) | Str(text: string)

  datatype Column = Column(name: string, dtype: DType, cells: seq<Cell>)

  datatype Frame = Frame(rowCount: nat, columns: seq<Column>)

  /** The `select_dtypes(include=[np.number])` test. */
  predicate IsNumber(d: DType) {
    !d.NonNumeric?
  }

  /** The `dtype in ["int64", "float64"]` test. */
  predicate IsInt64OrFloat64(d: DType) {
    d.Int64? || d.Float64?
  }

  function DTypeName(d: DType): string {
    match d
    case Int64 => "int64"
    case Float64 => "float64"
    case OtherNumeric(n) => n
    case NonNumeric(n) => n
  }

  predicate UniqueNames(cols: seq<Column>) {
    forall i, j :: 0 <= i < j < |cols| ==> cols[i].name != cols[j].name
  }

  /** `str(dtype)` is "int64" or "float64" only for those two dtypes. */
  predicate DTypeNamed(d: DType) {
    (d.OtherNumeric? || d.NonNumeric?) ==> d.name != "int64" && d.name != "float64"
  }

  /** A column holds one cell per row, a numeric column holds no text, and its
      dtype tag is named as pandas names it. */
  predicate ColumnFits(c: Column, rows: nat) {
    && |c.cells| == rows
    && (IsNumber(c.dtype) ==> forall i :: 0 <= i < |c.cells| ==> !c.cells[i].Str?)
    && DTypeNamed(c.dtype)
  }

  /** What pandas' readers guarantee of a loaded frame: rectangular, typed
      consistently, and with distinct column names (duplicate headers are
      renamed `a.1`, `a.2`, ... while reading). */
  predicate WellFormed(f: Frame) {
    && (forall i :: 0 <= i < |f.columns| ==> ColumnFits(f.columns[i], f.rowCount))
    && UniqueNames(f.columns)
  }

  function NameSet(cols: seq<Column>): set<string> {
    set c | c in cols :: c.name
  }

  /** The columns of `select_dtypes(include=[np.number])`, in frame order. */
  function NumericColumns(cols: seq<Column>): (r: seq<Column>)
    ensures |r| <= |cols|
    ensures forall c :: c in r ==> c in cols && IsNumber(c.dtype)
    ensures forall c :: c in cols && IsNumber(c.dtype) ==> c in r
  {
    if cols == [] then []
    else
      var rest := NumericColumns(cols[1..]);
      if IsNumber(cols[0].dtype) then [cols[0]] + rest else rest
  }

  /** Selection keeps frame order: it distributes over concatenation. */
  lemma {:induction false} NumericColumnsAppend(a: seq<Column>, b: seq<Column>)
    ensures NumericColumns(a + b) == NumericColumns(a) + NumericColumns(b)
  {
    if a != [] {
      assert (a + b)[1..] == a[1..] + b;
      NumericColumnsAppend(a[1..], b);
    } else {
      assert a + b == b;
    }
  }

  lemma {:induction false} NumericColumnsUnique(cols: seq<Column>)
    requires UniqueNames(cols)
    ensures UniqueNames(NumericColumns(cols))
  {
    if cols != [] {
      NumericColumnsUnique(cols[1..]);
      var rest := NumericColumns(cols[1..]);
      if IsNumber(cols[0].dtype) {
        forall j | 0 <= j < |rest| ensures rest[j].name != cols[0].name {
          var k :| 0 <= k < |cols[1..]| && cols[1..][k] == rest[j];
          assert cols[k + 1] == rest[j];
        }
        assert NumericColumns(cols) == [cols[0]] + rest;
      }
    }
  }

  /** `DataFrame.empty` of the numeric sub-frame: no numeric column, or no row. */
  predicate NumericFrameEmpty(f: Frame) {
    |NumericColumns(f.columns)| == 0 || f.rowCount == 0
  }

  /** A dict keyed by column name, filled in column order: a later column with
      the same name overwrites an earlier one, as assignment to a Python dict does. */
  function ByName<V>(cols: seq<Column>, value: Column -> V): (m: map<string, V>)
    ensures m.Keys == NameSet(cols)
    ensures UniqueNames(cols) ==> forall i :: 0 <= i < |cols| ==> m[cols[i].name] == value(cols[i])
  {
    if cols == [] then map[]
    else
      var init := cols[..|cols| - 1];
      var last := cols[|cols| - 1];
      assert cols == init + [last];
      NameSetSnoc(init, last);
      assert UniqueNames(cols) ==> UniqueNames(init) && forall i :: 0 <= i < |init| ==> init[i].name != last.name;
      ByName(init, value)[last.name := value(last)]
  }

  lemma NameSetSnoc(init: seq<Column>, last: Column)
    ensures NameSet(init + [last]) == NameSet(init) + {last.name}
  {
    assert forall c :: c in init + [last] <==> c in init || c == last;
  }

  /** `df[name]`: the column with that name, if any. */
  function Lookup(cols: seq<Column>, name: string): (r: Option<Column>)
    ensures r.Some? ==> r.value in cols && r.value.name == name
    ensures r.None? ==> name !in NameSet(cols)
    ensures UniqueNames(cols) ==> forall i :: 0 <= i < |cols| && cols[i].name == name ==> r == Some(cols[i])
  {
    if cols == [] then None
    else if cols[0].name == name then Some(cols[0])
    else Lookup(cols[1..], name)
  }

  function NullCount(cells: seq<Cell>): (n: nat)
    ensures n <= |cells|
  {
    if cells == [] then 0
    else (if cells[0].Null? then 1 else 0) + NullCount(cells[1..])
  }

  /** `df.isnull().sum().sum()`: missing cells over all columns. */
  function TotalNulls(cols: seq<Column>): nat {
    if cols == [] then 0 else NullCount(cols[0].cells) + TotalNulls(cols[1..])
  }

  /** `dropna()`: the non-missing cells, in order. */
  function NonMissing(cells: seq<Cell>): (r: seq<Cell>)
    ensures |r| == |cells| - NullCount(cells)
    ensures forall c :: c in r ==> c in cells && !c.Null?
  {
    if cells == [] then []
    else (if cells[0].Null? then [] else [cells[0]]) + NonMissing(cells[1..])
  }

  /** `dropna()` keeps every non-missing cell and their order: it distributes
      over concatenation, and keeps a single cell exactly when it is present. */
  lemma {:induction false} NonMissingAppend(a: seq<Cell>, b: seq<Cell>)
    ensures NonMissing(a + b) == NonMissing(a) + NonMissing(b)
  {
    if a != [] {
      assert (a + b)[0] == a[0];
      assert (a + b)[1..] == a[1..] + b;
      NonMissingAppend(a[1..], b);
    } else {
      assert a + b == b;
    }
  }

  /** Non-missing cells over all columns: `df.notnull().sum().sum()`. */
  function TotalPresent(cols: seq<Column>): nat {
    if cols == [] then 0 else |NonMissing(cols[0].cells)| + TotalPresent(cols[1..])
  }

  /** On a rectangular table, present and missing cells make up every cell. */
  lemma {:induction false} TotalPresentPlusNulls(cols: seq<Column>, rows: nat)
    requires forall i :: 0 <= i < |cols| ==> |cols[i].cells| == rows
    ensures TotalPresent(cols) + TotalNulls(cols) == rows * |cols|
  {
    if cols != [] {
      var rest := cols[1..];
      assert forall i :: 0 <= i < |rest| ==> rest[i] == cols[i + 1];
      TotalPresentPlusNulls(rest, rows);
      assert |cols[0].cells| == rows;
      MulSucc(rows, |rest|);
    }
  }

  lemma MulSucc(a: nat, n: nat)
    ensures a * (n + 1) == a + a * n
  {
  }

  lemma {:induction false} TotalNullsBound(cols: seq<Column>, rows: nat)
    requires forall i :: 0 <= i < |cols| ==> |cols[i].cells| == rows
    ensures TotalNulls(cols) <= rows * |cols|
  {
    if cols != [] {
      TotalNullsBound(cols[1..], rows);
      assert rows * |cols| == rows + rows * |cols[1..]|;
    }
  }

  predicate StrictlyIncreasing(s: seq<nat>) {
    forall i, j :: 0 <= i < j < |s| ==> s[i] < s[j]
  }

  /** The positions `k >= from` of `s` whose element satisfies `p`, ascending. */
  function PositionsFrom<T>(s: seq<T>, p: T -> bool, from: nat): (r: seq<nat>)
    requires from <= |s|
    ensures |r| <= |s| - from
    ensures forall j :: 0 <= j < |r| ==> from <= r[j] < |s|
    ensures forall k :: k in r <==> from <= k < |s| && p(s[k])
    ensures StrictlyIncreasing(r)
    decreases |s| - from
  {
    if from == |s| then []
    else
      var rest := PositionsFrom(s, p, from + 1);
      if p(s[from]) then [from] + rest else rest
  }

  /** `np.where(mask)[0]` and `df[mask].index.tolist()` over a default
      RangeIndex: the positions where `p` holds, ascending, each once. */
  function Positions<T>(s: seq<T>, p: T -> bool): (r: seq<nat>)
    ensures |r| <= |s|
    ensures forall k :: k in r <==> 0 <= k < |s| && p(s[k])
    ensures StrictlyIncreasing(r)
  {
    PositionsFrom(s, p, 0)
  }

  function Min(a: int, b: int): int {
    if a <= b then a else b
  }

  function Max(a: int, b: int): int {
    if a <= b then b else a
  }
}
