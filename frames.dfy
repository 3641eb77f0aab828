/** The part of a pandas DataFrame the scrapers use: named columns of equal
    length, built from a dict of lists, a column replaced or added in place,
    and row-wise concatenation with the outer join of the column names. The
    index is not modelled: rows are identified by position. */
module Frames {
  import opened Py
  import opened Calendar

  /** A cell: Python's `None`, a string, a time given as whole seconds
      since 0001-01-01 00:00, or a calendar date and time. */
  datatype Cell = Null | Str(s: string) | Seconds(t: int) | When(dt: DateTime)

  /** The text of an element that was found, or `None`. */
  function TextCell(o: Option<string>): (c: Cell)
    ensures c.Str? <==> o.Some?
    ensures o.Some? ==> c.s == o.value
  {
    if o.Some? then Str(o.value) else Null
  }

  /** A DataFrame as a value: its column names in order, the cells of each
      column, and the number of rows. */
  datatype Table = Table(names: seq<string>, cols: map<string, seq<Cell>>, height: nat)

  predicate Distinct(names: seq<string>) {
    forall i, j :: 0 <= i < j < |names| ==> names[i] != names[j]
  }

  /** Every named column exists, nothing else does, and all have `height`
      cells. */
  ghost predicate WellFormed(t: Table) {
    Distinct(t.names)
    && (forall n :: n in t.cols <==> n in t.names)
    && (forall n :: n in t.cols ==> |t.cols[n]| == t.height)
  }

  // ---------------------------------------------------------------- construction

  function Zip(names: seq<string>, lists: seq<seq<Cell>>): (m: map<string, seq<Cell>>)
    requires |names| == |lists|
    ensures forall n :: n in m <==> n in names
  {
    if names == [] then map[] else Zip(names[1..], lists[1..])[names[0] := lists[0]]
  }

  lemma {:induction false} ZipAt(names: seq<string>, lists: seq<seq<Cell>>, k: nat)
    requires |names| == |lists| && Distinct(names) && k < |names|
    ensures Zip(names, lists)[names[k]] == lists[k]
  {
    if k > 0 {
      assert names[1..][k - 1] == names[k];
      ZipAt(names[1..], lists[1..], k - 1);
    }
  }

  predicate SameLength(lists: seq<seq<Cell>>, n: nat) {
    forall k :: 0 <= k < |lists| ==> |lists[k]| == n
  }

  /** `pd.DataFrame({names[0]: lists[0], ...})`: the lists must all have the
      same length, otherwise ValueError. */
  function FromColumns(names: seq<string>, lists: seq<seq<Cell>>): (r: Result<Table>)
    requires |names| == |lists| && |names| > 0 && Distinct(names)
  {
    if SameLength(lists, |lists[0]|) then Ok(Table(names, Zip(names, lists), |lists[0]|))
    else Err(ValueError)
  }

  /** The constructor succeeds exactly on lists of one length, and then
      holds them as its columns, in order. */
  lemma FromColumnsSpec(names: seq<string>, lists: seq<seq<Cell>>)
    requires |names| == |lists| && |names| > 0 && Distinct(names)
    ensures FromColumns(names, lists).Ok? <==> SameLength(lists, |lists[0]|)
    ensures FromColumns(names, lists).Ok? ==>
              var t := FromColumns(names, lists).value;
              WellFormed(t) && t.names == names && t.height == |lists[0]|
              && forall k :: 0 <= k < |names| ==> t.cols[names[k]] == lists[k]
  {
    if SameLength(lists, |lists[0]|) {
      var m := Zip(names, lists);
      forall k | 0 <= k < |names|
        ensures m[names[k]] == lists[k]
      {
        ZipAt(names, lists, k);
      }
      forall n | n in m
        ensures |m[n]| == |lists[0]|
      {
        var k :| 0 <= k < |names| && names[k] == n;
        ZipAt(names, lists, k);
      }
    }
  }

  // ---------------------------------------------------------------- columns

  /** `df[name]`: KeyError for a column the frame does not have. */
  function Lookup(t: Table, name: string): (r: Result<seq<Cell>>)
    requires WellFormed(t)
    ensures r.Ok? <==> name in t.names
    ensures r.Ok? ==> |r.value| == t.height
  {
    if name in t.cols then Ok(t.cols[name]) else Err(KeyError)
  }

  /** `df[name] = col`: an existing column is replaced where it stands, a new
      one is added after the others. */
  function Assigned(t: Table, name: string, col: seq<Cell>): Table {
    Table(if name in t.names then t.names else t.names + [name], t.cols[name := col], t.height)
  }

  lemma AssignedSpec(t: Table, name: string, col: seq<Cell>)
    requires WellFormed(t) && |col| == t.height
    ensures var u := Assigned(t, name, col);
            WellFormed(u) && u.height == t.height
            && (name in t.names ==> u.names == t.names)
            && (name !in t.names ==> u.names == t.names + [name])
            && u.cols[name] == col
            && forall n :: n in t.cols && n != name ==> u.cols[n] == t.cols[n]
  {
  }

  /** A scalar assigned to a column: every row gets it. */
  function Broadcast(v: Cell, n: nat): (col: seq<Cell>)
    ensures |col| == n && forall i :: 0 <= i < n ==> col[i] == v
  {
    seq(n, _ => v)
  }

  // ---------------------------------------------------------------- concat

  /** The column `name` of `t`, or a column of `None` when `t` lacks it (the
      outer join's filling). */
  function Column(t: Table, name: string): (col: seq<Cell>)
    requires WellFormed(t)
    ensures |col| == t.height
  {
    if name in t.cols then t.cols[name] else Broadcast(Null, t.height)
  }

  ghost predicate AllWellFormed(ts: seq<Table>) {
    forall k :: 0 <= k < |ts| ==> WellFormed(ts[k])
  }

  /** `names` followed by those of `more` it lacks, in their order. */
  function AddNames(names: seq<string>, more: seq<string>): (r: seq<string>)
    ensures forall n :: n in r <==> n in names || n in more
    ensures |r| >= |names| && r[..|names|] == names
    ensures Distinct(names) ==> Distinct(r)
    decreases |more|
  {
    if more == [] then names
    else if more[0] in names then AddNames(names, more[1..])
    else
      var r := AddNames(names + [more[0]], more[1..]);
      assert r[..|names|] == r[..|names| + 1][..|names|];
      r
  }

  lemma {:induction false} AddNamesPresent(names: seq<string>, more: seq<string>)
    requires forall n :: n in more ==> n in names
    ensures AddNames(names, more) == names
    decreases |more|
  {
    if more != [] {
      assert more[0] in names;
      AddNamesPresent(names, more[1..]);
    }
  }

  lemma {:induction false} AddNamesFresh(names: seq<string>, more: seq<string>)
    requires Distinct(names + more)
    ensures AddNames(names, more) == names + more
    decreases |more|
  {
    if more != [] {
      assert more[0] == (names + more)[|names|];
      assert more[0] !in names by {
        forall i | 0 <= i < |names| ensures names[i] != more[0] {
          assert names[i] == (names + more)[i];
        }
      }
      assert (names + [more[0]]) + more[1..] == names + more;
      AddNamesFresh(names + [more[0]], more[1..]);
    }
  }

  /** The column names of an outer concatenation: in order of first
      appearance. */
  function UnionNames(ts: seq<Table>): (r: seq<string>)
    ensures forall n :: n in r <==> exists k :: 0 <= k < |ts| && n in ts[k].names
    decreases |ts|
  {
    if ts == [] then []
    else
      var r := AddNames(UnionNames(ts[..|ts| - 1]), ts[|ts| - 1].names);
      assert forall k :: 0 <= k < |ts| - 1 ==> ts[..|ts| - 1][k] == ts[k];
      r
  }

  lemma {:induction false} UnionNamesDistinct(ts: seq<Table>)
    ensures Distinct(UnionNames(ts))
    decreases |ts|
  {
    if ts != [] {
      UnionNamesDistinct(ts[..|ts| - 1]);
    }
  }

  /** Concatenating tables that all have the same columns keeps those
      columns, in their order. */
  lemma {:induction false} UnionNamesSame(ts: seq<Table>, names: seq<string>)
    requires |ts| > 0 && Distinct(names) && forall k :: 0 <= k < |ts| ==> ts[k].names == names
    ensures UnionNames(ts) == names
    decreases |ts|
  {
    var init := ts[..|ts| - 1];
    if |ts| == 1 {
      assert UnionNames(init) == [];
      assert [] + names == names;
      AddNamesFresh([], names);
    } else {
      UnionNamesSame(init, names);
      AddNamesPresent(names, names);
    }
  }

  /** The column `name` of each table in turn. */
  function Stack(ts: seq<Table>, name: string): (col: seq<Cell>)
    requires AllWellFormed(ts)
    ensures |col| == Height(ts)
  {
    if ts == [] then [] else Column(ts[0], name) + Stack(ts[1..], name)
  }

  function Height(ts: seq<Table>): nat {
    if ts == [] then 0 else ts[0].height + Height(ts[1..])
  }

  /** The row at which table `k`'s rows begin in the concatenation. */
  function Offset(ts: seq<Table>, k: nat): nat
    requires k <= |ts|
  {
    if k == 0 then 0 else ts[0].height + Offset(ts[1..], k - 1)
  }

  /** `pd.concat(ts, axis='rows', join='outer')`. */
  function ConcatAll(ts: seq<Table>): Table
    requires AllWellFormed(ts)
  {
    var names := UnionNames(ts);
    Table(names, map n | n in names :: Stack(ts, n), Height(ts))
  }

  lemma ConcatWellFormed(ts: seq<Table>)
    requires AllWellFormed(ts)
    ensures WellFormed(ConcatAll(ts))
  {
    UnionNamesDistinct(ts);
  }

  /** Table `k`'s rows lie one after another in the concatenation, ahead of
      every later table's rows. */
  lemma {:induction false} OffsetBound(ts: seq<Table>, k: nat)
    requires k < |ts|
    ensures Offset(ts, k) + ts[k].height <= Height(ts)
  {
    if k > 0 {
      OffsetBound(ts[1..], k - 1);
    }
  }

  /** Row `j` of table `k` is row `Offset(ts, k) + j` of the concatenation,
      in every column: the tables' rows keep their order, table by table,
      and a column a table lacks is `None` on its rows. */
  lemma {:induction false} StackAt(ts: seq<Table>, name: string, k: nat, j: nat)
    requires AllWellFormed(ts) && k < |ts| && j < ts[k].height
    ensures Offset(ts, k) + ts[k].height <= Height(ts)
    ensures Stack(ts, name)[Offset(ts, k) + j] == Column(ts[k], name)[j]
  {
    OffsetBound(ts, k);
    if k > 0 {
      StackAt(ts[1..], name, k - 1, j);
    }
  }

  /** Row `j` of table `k` is row `Offset(ts, k) + j` of the concatenation,
      in each of that table's columns. */
  lemma ConcatAt(ts: seq<Table>, name: string, k: nat, j: nat)
    requires AllWellFormed(ts) && k < |ts| && name in ts[k].names && j < ts[k].height
    ensures var t := ConcatAll(ts);
            name in t.cols && name in ts[k].cols && Offset(ts, k) + j < t.height
            && t.cols[name][Offset(ts, k) + j] == ts[k].cols[name][j]
  {
    assert WellFormed(ts[k]);
    assert name in UnionNames(ts);
    StackAt(ts, name, k, j);
  }

  /** Two tables with the same columns up to `b`'s being among `a`'s: the
      outer join has `a`'s columns. */
  lemma UnionNamesPair(a: Table, b: Table)
    requires Distinct(a.names) && forall n :: n in b.names ==> n in a.names
    ensures UnionNames([a, b]) == a.names
  {
    var ts := [a, b];
    assert [] + a.names == a.names;
    AddNamesFresh([], a.names);
    assert UnionNames([a]) == a.names by {
      assert [a][..0] == [];
      assert UnionNames([a]) == AddNames(UnionNames([]), a.names);
    }
    AddNamesPresent(a.names, b.names);
    assert ts[..1] == [a];
    assert UnionNames(ts) == AddNames(UnionNames([a]), b.names);
  }

  /** Concatenating two tables: `a`'s rows, then `b`'s. */
  lemma ConcatPair(a: Table, b: Table, name: string)
    requires WellFormed(a) && WellFormed(b)
    ensures AllWellFormed([a, b]) && Height([a, b]) == a.height + b.height
    ensures forall i :: 0 <= i < a.height ==> Stack([a, b], name)[i] == Column(a, name)[i]
    ensures forall i :: a.height <= i < a.height + b.height ==> Stack([a, b], name)[i] == Column(b, name)[i - a.height]
  {
    var ts := [a, b];
    assert ts[1..] == [b] && ts[1..][1..] == [];
    assert Stack(ts, name) == Column(a, name) + Column(b, name);
  }

  /** A column of the concatenation of two frames: the first frame's
      cells, then the second's (missing columns read as Null). */
  lemma ConcatPairColumn(a: Table, b: Table, name: string, first: seq<Cell>, second: seq<Cell>)
    requires WellFormed(a) && WellFormed(b) && name in UnionNames([a, b])
    requires Column(a, name) == first && Column(b, name) == second
    ensures var t := ConcatAll([a, b]);
            name in t.cols && t.cols[name] == first + second
  {
    ConcatPair(a, b, name);
    assert Stack([a, b], name) == first + second;
  }

  // ---------------------------------------------------------------- apply

  /** `col.apply(f)`: `f` is applied to each cell in order, and the first
      exception it raises propagates. */
  function Apply(col: seq<Cell>, f: Cell -> Result<Cell>): (r: Result<seq<Cell>>)
    ensures r.Ok? ==> |r.value| == |col| && forall i :: 0 <= i < |col| ==> f(col[i]) == Ok(r.value[i])
    ensures r.Err? ==> exists i :: 0 <= i < |col| && f(col[i]) == Err(r.exc)
                                 && forall j :: 0 <= j < i ==> f(col[j]).Ok?
  {
    if col == [] then Ok([])
    else match f(col[0])
      case Err(e) => Err(e)
      case Ok(c) =>
        match Apply(col[1..], f)
        case Err(e) =>
          ghost var i :| 0 <= i < |col[1..]| && f(col[1..][i]) == Err(e)
                         && forall j :: 0 <= j < i ==> f(col[1..][j]).Ok?;
          assert f(col[i + 1]) == Err(e);
          assert forall j :: 0 <= j < i + 1 ==> f(col[j]).Ok? by {
            forall j | 0 <= j < i + 1 ensures f(col[j]).Ok? {
              if j > 0 { assert col[j] == col[1..][j - 1]; }
            }
          }
          Err(e)
        case Ok(rest) => Ok([c] + rest)
  }

  // ---------------------------------------------------------------- in place

  /** A DataFrame object, whose columns the scrapers overwrite in place. */
  class Frame {
    var names: seq<string>
    var cols: map<string, seq<Cell>>
    var height: nat

    function Value(): Table
      reads this
    {
      Table(names, cols, height)
    }

    ghost predicate Valid()
      reads this
    {
      WellFormed(Value())
    }

    constructor(t: Table)
      requires WellFormed(t)
      ensures Value() == t && Valid()
    {
      names := t.names;
      cols := t.cols;
      height := t.height;
    }

    /** `df[name]`. */
    method Get(name: string) returns (r: Result<seq<Cell>>)
      requires Valid()
      ensures r == Lookup(Value(), name)
    {
      if name in cols {
        r := Ok(cols[name]);
      } else {
        r := Err(KeyError);
      }
    }

    /** `df[name] = col` with a column of the frame's length. */
    method SetColumn(name: string, col: seq<Cell>)
      requires Valid() && |col| == height
      modifies this
      ensures Value() == Assigned(old(Value()), name, col) && Valid()
    {
      if name !in names {
        names := names + [name];
      }
      cols := cols[name := col];
    }

    /** `df[name] = v` with a scalar. */
    method Fill(name: string, v: Cell)
      requires Valid()
      modifies this
      ensures Value() == Assigned(old(Value()), name, Broadcast(v, old(height))) && Valid()
    {
      SetColumn(name, Broadcast(v, height));
    }
  }
}
