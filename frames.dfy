/** The part of a pandas DataFrame the modelled code uses: named columns, rows of
    cells, reading a column, setting a column, a boolean-mask row filter and a column
    projection. A cell holds one of the Python values the code stores or tests. */
module Frames {
  import opened Base

  /** A cell: `None`/`NaN`, a `str`, a number (`int` or `float`), a `bool`, a `list`,
      or a `dict` with string keys. */
  datatype Value =
    | Null
    | Str(s: string)
    | Num(x: real)
    | Bool(b: bool)
    | List(items: seq<Value>)
    | Dict(entries: map<string, Value>)

  type Row = map<string, Value>

  /** A table as a value: its column names in order, and its rows in order. */
  datatype Frame = Frame(columns: seq<string>, rows: seq<Row>)

  predicate Distinct(names: seq<string>) {
    forall i, j :: 0 <= i < j < |names| ==> names[i] != names[j]
  }

  function NameSet(names: seq<string>): set<string> {
    set c | c in names
  }

  /** Column names are unique and every row has a cell for exactly those columns. */
  predicate WellFormed(f: Frame) {
    Distinct(f.columns) && forall k :: 0 <= k < |f.rows| ==> f.rows[k].Keys == NameSet(f.columns)
  }

  /** `df[name]`: the column's cells, top to bottom, or `KeyError` when there is no
      such column. */
  function Column(f: Frame, name: string): (r: Result<seq<Value>>)
    requires WellFormed(f)
    ensures r.Failure? <==> name !in f.columns
    ensures r.Failure? ==> r.error == KeyError(name)
    ensures r.Success? ==> (|r.value| == |f.rows| &&
              forall k :: 0 <= k < |f.rows| ==> r.value[k] == f.rows[k][name])
  {
    if name !in f.columns then Failure(KeyError(name))
    else Success(seq(|f.rows|, k requires 0 <= k < |f.rows| => f.rows[k][name]))
  }

  /** `df[name] = values`: a new column at the right-hand end, or the cells of an
      existing column replaced where it stands. */
  function WithColumn(f: Frame, name: string, values: seq<Value>): Frame
    requires |values| == |f.rows|
  {
    Frame(if name in f.columns then f.columns else f.columns + [name],
          seq(|f.rows|, k requires 0 <= k < |f.rows| => f.rows[k][name := values[k]]))
  }

  /** Setting a column keeps the table well formed, makes the column read back as the
      values set, and leaves every other column as it was. */
  lemma WithColumnEffect(f: Frame, name: string, values: seq<Value>)
    requires WellFormed(f) && |values| == |f.rows|
    ensures WellFormed(WithColumn(f, name, values))
    ensures Column(WithColumn(f, name, values), name) == Success(values)
    ensures forall c :: c != name ==> Column(WithColumn(f, name, values), c) == Column(f, c)
    ensures NameSet(WithColumn(f, name, values).columns) == NameSet(f.columns) + {name}
  {
    var g := WithColumn(f, name, values);
    assert NameSet(g.columns) == NameSet(f.columns) + {name};
    assert WellFormed(g);
    assert Column(g, name).value == values;
    forall c | c != name
      ensures Column(g, c) == Column(f, c)
    {
      assert c in g.columns <==> c in f.columns;
      if c in f.columns {
        assert Column(g, c).value == Column(f, c).value;
      }
    }
  }

  // ---------------------------------------------------------------------------
  // Row selection

  /** The indices `k` with `keep[k]`, in increasing order. */
  function Kept(keep: seq<bool>): (ks: seq<nat>)
    ensures forall j :: 0 <= j < |ks| ==> ks[j] < |keep| && keep[ks[j]]
  {
    if keep == [] then []
    else Kept(keep[..|keep| - 1]) + (if keep[|keep| - 1] then [|keep| - 1] else [])
  }

  /** The kept indices are exactly the marked ones, each once, in increasing order. */
  lemma {:induction false} KeptExactly(keep: seq<bool>)
    ensures forall i :: i in Kept(keep) <==> 0 <= i < |keep| && keep[i]
    ensures forall j, l :: 0 <= j < l < |Kept(keep)| ==> Kept(keep)[j] < Kept(keep)[l]
  {
    if keep != [] {
      KeptExactly(keep[..|keep| - 1]);
    }
  }

  /** A mask keeps nothing exactly when it marks no row. */
  lemma KeptEmpty(keep: seq<bool>)
    ensures Kept(keep) == [] <==> forall k :: 0 <= k < |keep| ==> !keep[k]
  {
    KeptExactly(keep);
    if Kept(keep) != [] {
      assert keep[Kept(keep)[0]];
    }
  }

  /** A mask that marks every row keeps every index, in order. */
  lemma {:induction false} KeptAll(keep: seq<bool>)
    requires forall k :: 0 <= k < |keep| ==> keep[k]
    ensures |Kept(keep)| == |keep| && forall j :: 0 <= j < |keep| ==> Kept(keep)[j] == j
  {
    if keep != [] {
      KeptAll(keep[..|keep| - 1]);
    }
  }

  /** The element-wise `&` of two masks. */
  function Both(a: seq<bool>, b: seq<bool>): (m: seq<bool>)
    requires |a| == |b|
    ensures |m| == |a| && forall k :: 0 <= k < |a| ==> m[k] == (a[k] && b[k])
  {
    seq(|a|, k requires 0 <= k < |a| => a[k] && b[k])
  }

  /** The elements of `xs` at the indices `ks`, in that order. Read through the indices
      a first filter kept, a mask over the original rows is the same test applied to the
      filtered table, and a per-row sequence is the filtered table's. */
  function Through<T>(ks: seq<nat>, xs: seq<T>): (p: seq<T>)
    requires forall j :: 0 <= j < |ks| ==> ks[j] < |xs|
    ensures |p| == |ks| && forall j :: 0 <= j < |ks| ==> p[j] == xs[ks[j]]
  {
    seq(|ks|, j requires 0 <= j < |ks| => xs[ks[j]])
  }

  /** Filtering with `a` and then with `b` keeps the rows that filtering once with
      `a & b` keeps, in the same order. */
  lemma {:induction false} KeptTwice(a: seq<bool>, b: seq<bool>)
    requires |a| == |b|
    ensures var ka := Kept(a); var kb := Kept(Through(ka, b)); var kc := Kept(Both(a, b));
      |kb| == |kc| && forall j :: 0 <= j < |kb| ==> ka[kb[j]] == kc[j]
  {
    if a != [] {
      var n := |a| - 1;
      KeptTwice(a[..n], b[..n]);
      if a[n] {
        KeptTwiceMarked(a, b);
      } else {
        KeptTwiceUnmarked(a, b);
      }
    }
  }

  /** Picking, from what filtering twice keeps, the elements of a per-row sequence
      gives what filtering once with both masks picks. */
  lemma KeptTwiceThrough<T>(a: seq<bool>, b: seq<bool>, xs: seq<T>)
    requires |a| == |b| == |xs|
    ensures Through(Kept(Through(Kept(a), b)), Through(Kept(a), xs)) == Through(Kept(Both(a, b)), xs)
  {
    KeptTwice(a, b);
  }

  /** The step of `KeptTwice` when the last row passes the first filter. */
  lemma KeptTwiceMarked(a: seq<bool>, b: seq<bool>)
    requires |a| == |b| && a != [] && a[|a| - 1]
    requires var a', b' := a[..|a| - 1], b[..|a| - 1];
      var ka := Kept(a'); var kb := Kept(Through(ka, b')); var kc := Kept(Both(a', b'));
      |kb| == |kc| && forall j :: 0 <= j < |kb| ==> ka[kb[j]] == kc[j]
    ensures var ka := Kept(a); var kb := Kept(Through(ka, b)); var kc := Kept(Both(a, b));
      |kb| == |kc| && forall j :: 0 <= j < |kb| ==> ka[kb[j]] == kc[j]
  {
    var n := |a| - 1;
    var a', b' := a[..n], b[..n];
    var ka' := Kept(a');
    assert a == a' + [true];
    KeptSnoc(a', true);
    BothSnoc(a, b);
    KeptSnoc(Both(a', b'), b[n]);
    ThroughPrefix(ka', b, b');
    ThroughSnoc(ka', n, b);
    KeptSnoc(Through(ka', b'), b[n]);
    AgreeSnoc(ka', Kept(Through(ka', b')), Kept(Both(a', b')), n, b[n]);
  }

  /** The step of `KeptTwice` when the last row fails the first filter. */
  lemma KeptTwiceUnmarked(a: seq<bool>, b: seq<bool>)
    requires |a| == |b| && a != [] && !a[|a| - 1]
    requires var a', b' := a[..|a| - 1], b[..|a| - 1];
      var ka := Kept(a'); var kb := Kept(Through(ka, b')); var kc := Kept(Both(a', b'));
      |kb| == |kc| && forall j :: 0 <= j < |kb| ==> ka[kb[j]] == kc[j]
    ensures var ka := Kept(a); var kb := Kept(Through(ka, b)); var kc := Kept(Both(a, b));
      |kb| == |kc| && forall j :: 0 <= j < |kb| ==> ka[kb[j]] == kc[j]
  {
    var n := |a| - 1;
    var a', b' := a[..n], b[..n];
    assert a == a' + [false];
    KeptSnoc(a', false);
    assert Kept(a) == Kept(a');
    BothSnoc(a, b);
    KeptSnoc(Both(a', b'), false);
    assert Kept(Both(a, b)) == Kept(Both(a', b'));
    ThroughPrefix(Kept(a'), b, b');
    assert Through(Kept(a), b) == Through(Kept(a'), b');
  }

  /** Index bookkeeping for `KeptTwiceMarked`: one more kept row on each side. */
  lemma AgreeSnoc(ka: seq<nat>, kb: seq<nat>, kc: seq<nat>, n: nat, last: bool)
    requires |kb| == |kc| && forall j :: 0 <= j < |kb| ==> kb[j] < |ka| && ka[kb[j]] == kc[j]
    ensures var ka2 := ka + [n];
      var kb2 := kb + (if last then [|ka|] else []);
      var kc2 := kc + (if last then [n] else []);
      |kb2| == |kc2| && forall j :: 0 <= j < |kb2| ==> kb2[j] < |ka2| && ka2[kb2[j]] == kc2[j]
  {
  }

  lemma BothSnoc(a: seq<bool>, b: seq<bool>)
    requires |a| == |b| && a != []
    ensures var n := |a| - 1; Both(a, b) == Both(a[..n], b[..n]) + [a[n] && b[n]]
  {
    var n := |a| - 1;
    var l, r := Both(a, b), Both(a[..n], b[..n]) + [a[n] && b[n]];
    assert |l| == |r|;
    forall k | 0 <= k < |l| ensures l[k] == r[k] {
      if k < n {
        assert r[k] == Both(a[..n], b[..n])[k] == (a[k] && b[k]);
      }
    }
  }

  lemma KeptSnoc(m: seq<bool>, v: bool)
    ensures Kept(m + [v]) == Kept(m) + (if v then [|m|] else [])
  {
    assert (m + [v])[..|m|] == m;
  }

  /** Reading a mask through indices that all lie in its prefix reads the prefix. */
  lemma ThroughPrefix(ks: seq<nat>, b: seq<bool>, b': seq<bool>)
    requires |b'| <= |b| && b' == b[..|b'|]
    requires forall j :: 0 <= j < |ks| ==> ks[j] < |b'|
    ensures Through(ks, b) == Through(ks, b')
  {
  }

  lemma ThroughSnoc(ks: seq<nat>, i: nat, b: seq<bool>)
    requires forall j :: 0 <= j < |ks| ==> ks[j] < |b|
    requires i < |b|
    ensures Through(ks + [i], b) == Through(ks, b) + [b[i]]
  {
  }

  /** `df[mask]`: the rows whose mask entry is true, in their original order. */
  function Select(f: Frame, keep: seq<bool>): (g: Frame)
    requires |keep| == |f.rows|
    ensures g.columns == f.columns
    ensures |g.rows| == |Kept(keep)|
    ensures forall j :: 0 <= j < |g.rows| ==> g.rows[j] == f.rows[Kept(keep)[j]]
  {
    Frame(f.columns, Through(Kept(keep), f.rows))
  }

  lemma SelectWellFormed(f: Frame, keep: seq<bool>)
    requires WellFormed(f) && |keep| == |f.rows|
    ensures WellFormed(Select(f, keep))
  {
  }

  /** `df[names]`: the named columns, in the order named, of every row. */
  function Project(f: Frame, names: seq<string>): (g: Frame)
    requires forall j :: 0 <= j < |names| ==> names[j] in f.columns
    requires WellFormed(f)
    ensures g.columns == names && |g.rows| == |f.rows|
    ensures forall k, c :: 0 <= k < |f.rows| && c in names ==> c in g.rows[k] && g.rows[k][c] == f.rows[k][c]
  {
    var g := Frame(names, seq(|f.rows|, k requires 0 <= k < |f.rows| =>
                                map c | c in NameSet(names) :: f.rows[k][c]));
    assert forall c :: c in names ==> c in NameSet(names);
    assert forall k :: 0 <= k < |f.rows| ==> g.rows[k] == map c | c in NameSet(names) :: f.rows[k][c];
    assert forall k, c :: 0 <= k < |f.rows| && c in names ==> g.rows[k][c] == f.rows[k][c];
    g
  }

  /** Projecting on distinct names gives a well-formed table. */
  lemma ProjectWellFormed(f: Frame, names: seq<string>)
    requires WellFormed(f) && Distinct(names)
    requires forall j :: 0 <= j < |names| ==> names[j] in f.columns
    ensures WellFormed(Project(f, names))
  {
  }

  // ---------------------------------------------------------------------------
  // A table updated in place

  /** A DataFrame that the code changes by assigning columns. */
  class Table {
    var columns: seq<string>
    var rows: seq<Row>

    /** The table's current contents, as a value. */
    function Snapshot(): Frame
      reads this
    {
      Frame(columns, rows)
    }

    /** A new table holding `f`; `df.copy()` is this applied to the contents of `df`. */
    constructor (f: Frame)
      ensures Snapshot() == f
    {
      columns := f.columns;
      rows := f.rows;
    }

    /** `df[name] = values`. */
    method Set(name: string, values: seq<Value>)
      requires |values| == |rows|
      modifies this
      ensures Snapshot() == WithColumn(old(Snapshot()), name, values)
    {
      if name !in columns {
        columns := columns + [name];
      }
      var previous := rows;
      rows := seq(|previous|, k requires 0 <= k < |previous| => previous[k][name := values[k]]);
    }
  }
}
