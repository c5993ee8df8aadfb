/** The part of pandas the pipeline relies on, stated abstractly: the JSON
    records a DataFrame is built from, a time-indexed table, and the column-wise
    outer join that `pd.concat(frames, sort=True, axis=1)` performs. */
module Frames {
  import opened Responses

  // ---------------------------------------------------------------------------
  // Raw JSON records
  // ---------------------------------------------------------------------------

  /** A JSON scalar as `json.load` decodes it. */
  datatype Value = Num(x: real) | Text(s: string) | Null

  /** One `"key": value` member of a JSON object. */
  datatype Field = Field(key: string, value: Value)

  /** A JSON object, its members in document order. */
  type Record = seq<Field>

  predicate Distinct<T(==)>(s: seq<T>) {
    forall i, j :: 0 <= i < j < |s| ==> s[i] != s[j]
  }

  predicate HasKey(r: Record, key: string) {
    exists j :: 0 <= j < |r| && r[j].key == key
  }

  /** `record[key]` for a decoded JSON object: `json.load` keeps the last of
      duplicated members, so the lookup takes the last member named `key`. */
  function Lookup(r: Record, key: string): (v: Option<Value>)
    ensures v.Some? <==> HasKey(r, key)
    ensures v.Some? ==> exists j ::
      && 0 <= j < |r|
      && r[j] == Field(key, v.value)
      && forall k :: j < k < |r| ==> r[k].key != key
  {
    if r == [] then None
    else if r[|r| - 1].key == key then Some(r[|r| - 1].value)
    else
      var v := Lookup(r[..|r| - 1], key);
      assert forall j :: 0 <= j < |r| - 1 ==> r[..|r| - 1][j] == r[j];
      v
  }

  /** Appends to `cols` the keys of `r` not seen yet, in document order. */
  function AddKeys(cols: seq<string>, r: Record): (res: seq<string>)
    requires Distinct(cols)
    ensures Distinct(res)
    ensures |cols| <= |res| && res[..|cols|] == cols
    ensures forall k :: k in res <==> k in cols || HasKey(r, k)
    decreases |r|
  {
    if r == [] then cols
    else
      var next := if r[0].key in cols then cols else cols + [r[0].key];
      var res := AddKeys(next, r[1..]);
      assert forall k :: HasKey(r, k) <==> k == r[0].key || HasKey(r[1..], k) by {
        forall k | HasKey(r, k) && k != r[0].key ensures HasKey(r[1..], k) {
          var j :| 0 <= j < |r| && r[j].key == k;
          assert r[1..][j - 1].key == k;
        }
        forall k | HasKey(r[1..], k) ensures HasKey(r, k) {
          var j :| 0 <= j < |r[1..]| && r[1..][j].key == k;
          assert r[j + 1].key == k;
        }
      }
      assert res[..|cols|] == res[..|next|][..|cols|];
      res
  }

  function FrameColumnsFrom(cols: seq<string>, rs: seq<Record>): (res: seq<string>)
    requires Distinct(cols)
    ensures Distinct(res)
    ensures forall k :: k in res <==> k in cols || exists i :: 0 <= i < |rs| && HasKey(rs[i], k)
    decreases |rs|
  {
    if rs == [] then cols
    else
      var res := FrameColumnsFrom(AddKeys(cols, rs[0]), rs[1..]);
      assert forall i :: 0 <= i < |rs| - 1 ==> rs[1..][i] == rs[i + 1];
      res
  }

  /** The columns of `pd.DataFrame(records)`: every key of every record, once,
      in order of first appearance. */
  function FrameColumns(rs: seq<Record>): (cols: seq<string>)
    ensures Distinct(cols)
    ensures forall k :: k in cols <==> exists i :: 0 <= i < |rs| && HasKey(rs[i], k)
  {
    FrameColumnsFrom([], rs)
  }

  /** `s` without the label `x`, the other labels in order: what dropping a
      column does to the column list. */
  function Remove(s: seq<string>, x: string): (r: seq<string>)
    ensures forall k :: k in r <==> k in s && k != x
    ensures Distinct(s) ==> Distinct(r)
    ensures x in s && Distinct(s) ==> |r| == |s| - 1
    ensures x !in s ==> r == s
  {
    if s == [] then []
    else
      var rest := Remove(s[1..], x);
      assert forall k :: k in s <==> k == s[0] || k in s[1..];
      assert Distinct(s) ==> Distinct(s[1..]) && s[0] !in s[1..] by {
        if Distinct(s) {
          forall i, j | 0 <= i < j < |s| - 1 ensures s[1..][i] != s[1..][j] {
            assert s[i + 1] != s[j + 1];
          }
        }
      }
      if s[0] == x then rest
      else
        assert Distinct(s) ==> Distinct([s[0]] + rest) by {
          if Distinct(s) {
            forall i, j | 0 <= i < j < |[s[0]] + rest| ensures ([s[0]] + rest)[i] != ([s[0]] + rest)[j] {
              assert ([s[0]] + rest)[j] == rest[j - 1] && rest[j - 1] in rest;
              if i > 0 { assert ([s[0]] + rest)[i] == rest[i - 1]; }
            }
          }
        }
        assert x !in s ==> s == [s[0]] + s[1..];
        [s[0]] + rest
  }

  // ---------------------------------------------------------------------------
  // Time-indexed tables
  // ---------------------------------------------------------------------------

  predicate StrictlyIncreasing(s: seq<int>) {
    forall i, j :: 0 <= i < j < |s| ==> s[i] < s[j]
  }

  /** A column: its label and its non-missing cells, keyed by timestamp. A
      timestamp of the index without a cell is a missing value (NaN). */
  datatype Column = Column(name: string, cells: map<int, Value>)

  /** A DataFrame indexed by `datetime`: the index (timestamps as integers)
      and the columns in order. Labels may repeat, as in pandas. */
  datatype Table = Table(index: seq<int>, columns: seq<Column>)

  const Empty: Table := Table([], [])

  /** The index is strictly increasing (sorted, no duplicates) and no column
      holds a cell outside the index. */
  predicate Valid(t: Table) {
    && StrictlyIncreasing(t.index)
    && forall j, x :: 0 <= j < |t.columns| && x in t.columns[j].cells ==> x in t.index
  }

  function Names(t: Table): (names: seq<string>)
    ensures |names| == |t.columns|
    ensures forall j :: 0 <= j < |t.columns| ==> names[j] == t.columns[j].name
  {
    seq(|t.columns|, j requires 0 <= j < |t.columns| => t.columns[j].name)
  }

  /** The cell in column `j` at timestamp `x`; None is a missing value. */
  function Cell(t: Table, j: nat, x: int): Option<Value>
    requires j < |t.columns|
  {
    if x in t.columns[j].cells then Some(t.columns[j].cells[x]) else None
  }

  /** A missing row reads as a missing value in every column. */
  lemma CellOutsideIndex(t: Table, j: nat, x: int)
    requires Valid(t) && j < |t.columns| && x !in t.index
    ensures Cell(t, j, x) == None
  {
  }

  // ---------------------------------------------------------------------------
  // Sorted union of indexes
  // ---------------------------------------------------------------------------

  /** The union of two sorted indexes, sorted: how pandas aligns the indexes
      of an outer join when `sort=True`. */
  function Union(a: seq<int>, b: seq<int>): (r: seq<int>)
    requires StrictlyIncreasing(a) && StrictlyIncreasing(b)
    ensures StrictlyIncreasing(r)
    ensures forall x :: x in r <==> x in a || x in b
    ensures (forall x :: x in a ==> x !in b) ==> |r| == |a| + |b|
    decreases |a| + |b|
  {
    if a == [] then b
    else if b == [] then a
    else if a[0] < b[0] then
      HeadIsLeast(a);
      HeadIsLeast(b);
      var rest := Union(a[1..], b);
      PrependLeast(a[0], rest);
      [a[0]] + rest
    else if b[0] < a[0] then
      HeadIsLeast(a);
      HeadIsLeast(b);
      var rest := Union(a, b[1..]);
      PrependLeast(b[0], rest);
      [b[0]] + rest
    else
      HeadIsLeast(a);
      HeadIsLeast(b);
      var rest := Union(a[1..], b[1..]);
      PrependLeast(a[0], rest);
      assert a[0] in a && a[0] in b;
      [a[0]] + rest
  }

  lemma HeadIsLeast(s: seq<int>)
    requires StrictlyIncreasing(s) && s != []
    ensures StrictlyIncreasing(s[1..])
    ensures forall x :: x in s <==> x == s[0] || x in s[1..]
    ensures forall x :: x in s[1..] ==> s[0] < x
    ensures forall x :: x in s ==> s[0] <= x
  {
    forall x | x in s[1..] ensures s[0] < x {
      var j :| 0 <= j < |s[1..]| && s[1..][j] == x;
      assert s[j + 1] == x;
    }
    assert s == [s[0]] + s[1..];
  }

  lemma PrependLeast(x: int, s: seq<int>)
    requires StrictlyIncreasing(s)
    requires forall y :: y in s ==> x < y
    ensures StrictlyIncreasing([x] + s)
  {
    forall i, j | 0 <= i < j < |[x] + s| ensures ([x] + s)[i] < ([x] + s)[j] {
      assert ([x] + s)[j] == s[j - 1] && s[j - 1] in s;
      if i > 0 { assert ([x] + s)[i] == s[i - 1]; }
    }
  }

  /** A sorted index is determined by its set of timestamps: so `Union` is
      THE sorted union, whatever order the inputs were joined in. */
  lemma {:induction false} SortedUnique(a: seq<int>, b: seq<int>)
    requires StrictlyIncreasing(a) && StrictlyIncreasing(b)
    requires forall x :: x in a <==> x in b
    ensures a == b
  {
    if a != [] && b != [] {
      HeadIsLeast(a);
      HeadIsLeast(b);
      assert a[0] in b && b[0] in a;
      assert a[0] <= b[0] && b[0] <= a[0];
      SortedUnique(a[1..], b[1..]);
      assert a == [a[0]] + a[1..] && b == [b[0]] + b[1..];
    } else {
      NoMembersEmpty(a);
      NoMembersEmpty(b);
    }
  }

  lemma NoMembersEmpty(s: seq<int>)
    ensures s == [] || exists x :: x in s
  {
    if s != [] {
      var y := s[0];
      assert y in s;
      assert exists x :: x in s;
    }
  }

  /** The timestamps of `s`, sorted; `s` must hold each timestamp once for
      the index to keep one row per record. */
  function Sorted(s: seq<int>): (r: seq<int>)
    ensures StrictlyIncreasing(r)
    ensures forall x :: x in r <==> x in s
    ensures Distinct(s) ==> |r| == |s|
  {
    if s == [] then []
    else
      var rest := Sorted(s[1..]);
      assert forall x :: x in s <==> x == s[0] || x in s[1..];
      assert Distinct(s) ==> Distinct(s[1..]) && s[0] !in s[1..];
      Union([s[0]], rest)
  }

  // ---------------------------------------------------------------------------
  // Column-wise outer join
  // ---------------------------------------------------------------------------

  /** The total number of columns of `ts`. */
  function ColumnCount(ts: seq<Table>): nat {
    if ts == [] then 0 else |ts[0].columns| + ColumnCount(ts[1..])
  }

  /** The columns of every table of `ts`, table after table. */
  function JoinColumns(ts: seq<Table>): (r: seq<Column>)
    ensures |r| == ColumnCount(ts)
  {
    if ts == [] then [] else ts[0].columns + JoinColumns(ts[1..])
  }

  /** `pd.concat(ts, sort=True, axis=1)`: the columns of every table, table
      after table, over the sorted union of all indexes. A column keeps its
      cells, so a row a table does not have reads as missing in its columns. */
  function Concat(ts: seq<Table>): (r: Table)
    requires forall k :: 0 <= k < |ts| ==> Valid(ts[k])
    ensures Valid(r)
    ensures forall x :: x in r.index <==> exists k :: 0 <= k < |ts| && x in ts[k].index
    ensures r.columns == JoinColumns(ts)
    ensures |r.columns| == ColumnCount(ts)
  {
    if ts == [] then Empty
    else
      var rest := Concat(ts[1..]);
      assert forall k :: 0 <= k < |ts| - 1 ==> ts[1..][k] == ts[k + 1];
      assert Valid(ts[0]);
      Table(Union(ts[0].index, rest.index), ts[0].columns + rest.columns)
  }

  /** Column `j` of `ts[k]` is column `ColumnCount(ts[..k]) + j` of the
      joined columns, unchanged: same label, same cells. */
  lemma {:induction false} JoinColumnAt(ts: seq<Table>, k: nat, j: nat)
    requires k < |ts| && j < |ts[k].columns|
    ensures ColumnCount(ts[..k]) + j < |JoinColumns(ts)|
    ensures JoinColumns(ts)[ColumnCount(ts[..k]) + j] == ts[k].columns[j]
  {
    if k == 0 {
      assert ts[..0] == [];
    } else {
      assert ts[1..][..k - 1] == ts[..k][1..];
      assert ts[1..][k - 1] == ts[k];
      JoinColumnAt(ts[1..], k - 1, j);
    }
  }

  /** The cell of the join `t` at `(x, column of ts[k])` is the owning
      table's cell: its value where `ts[k]` has a row at `x`, missing
      otherwise. */
  lemma ConcatCell(ts: seq<Table>, t: Table, k: nat, j: nat, x: int)
    requires forall i :: 0 <= i < |ts| ==> Valid(ts[i])
    requires t == Concat(ts)
    requires k < |ts| && j < |ts[k].columns|
    ensures ColumnCount(ts[..k]) + j < |t.columns|
    ensures t.columns[ColumnCount(ts[..k]) + j] == ts[k].columns[j]
    ensures Cell(t, ColumnCount(ts[..k]) + j, x) == Cell(ts[k], j, x)
    ensures x !in ts[k].index ==> Cell(t, ColumnCount(ts[..k]) + j, x) == None
  {
    JoinColumnAt(ts, k, j);
    if x !in ts[k].index {
      assert Valid(ts[k]);
      CellOutsideIndex(ts[k], j, x);
    }
  }

  /** The labels of every table of `ts`, table after table. */
  function AllNames(ts: seq<Table>): (names: seq<string>)
    ensures |names| == ColumnCount(ts)
  {
    if ts == [] then [] else Names(ts[0]) + AllNames(ts[1..])
  }

  /** The join's labels are the tables' labels, table after table. */
  lemma {:induction false} JoinNames(ts: seq<Table>)
    ensures forall c :: 0 <= c < |JoinColumns(ts)| ==> JoinColumns(ts)[c].name == AllNames(ts)[c]
  {
    if ts != [] {
      JoinNames(ts[1..]);
      var n := |ts[0].columns|;
      forall c | 0 <= c < |JoinColumns(ts)| ensures JoinColumns(ts)[c].name == AllNames(ts)[c] {
        if c < n {
          assert JoinColumns(ts)[c] == ts[0].columns[c];
          assert AllNames(ts)[c] == Names(ts[0])[c];
        } else {
          assert JoinColumns(ts)[c] == JoinColumns(ts[1..])[c - n];
          assert AllNames(ts)[c] == AllNames(ts[1..])[c - n];
        }
      }
    }
  }

  /** A table whose columns are the join of `ts` carries the labels of
      `ts`, table after table, so its labels are distinct when theirs are. */
  lemma JoinedNames(t: Table, ts: seq<Table>)
    requires t.columns == JoinColumns(ts)
    ensures Names(t) == AllNames(ts)
    ensures Distinct(AllNames(ts)) ==> Distinct(Names(t))
  {
    JoinNames(ts);
  }
}
