/**
 The distribution table of datasets_utils.py and prepare_VisDrone.py: a count
 per (row, column), rows `Samples` followed by the class names, columns
 `server`, `client1` .. `clientN`. A cell absent from `count` stands for a
 pandas NaN: it arises only when two tables with different axes are merged.
 */
module Distribution {
  import opened Naming

  /** The synthetic first row: one count per recorded annotation line. */
  const SamplesRow: string := "Samples"

  type Cell = (string, string)

  datatype Table = Table(rows: seq<string>, cols: seq<string>, count: map<Cell, nat>)

  /** The value of a cell, a missing cell read as 0 (pandas' `fill_value=0`). */
  function Get(t: Table, row: string, col: string): nat
  {
    if (row, col) in t.count then t.count[(row, col)] else 0
  }

  /** Exactly the cells of the row and column axes are present. */
  ghost predicate Shaped(t: Table)
  {
    forall r, c :: (r, c) in t.count <==> r in t.rows && c in t.cols
  }

  /** A table as the pipeline builds it: `Samples` first, distinct row labels, every cell present. */
  ghost predicate WellFormed(t: Table)
  {
    && 1 <= |t.rows| && t.rows[0] == SamplesRow
    && Distinct(t.rows)
    && Shaped(t)
  }

  /** The sum, over the given rows, of their cells in column `col`. */
  function ClassSum(t: Table, rows: seq<string>, col: string): nat
  {
    if |rows| == 0 then 0 else Get(t, rows[0], col) + ClassSum(t, rows[1..], col)
  }

  /** In every column, `Samples` equals the sum of the class rows. */
  ghost predicate Balanced(t: Table)
  {
    && WellFormed(t)
    && forall c :: c in t.cols ==> Get(t, SamplesRow, c) == ClassSum(t, t.rows[1..], c)
  }

  /** get_distribution_dataframe: rows `Samples` + names, columns `server`, `client1` .. `clientN`, every cell 0. */
  function FreshTable(names: seq<string>, nclients: nat): (t: Table)
    ensures t.rows == [SamplesRow] + names
    ensures |t.cols| == nclients + 1 && t.cols[0] == "server"
    ensures forall k :: 1 <= k <= nclients ==> t.cols[k] == BucketName(Client(k))
    ensures Shaped(t)
    ensures forall r, c :: Get(t, r, c) == 0
  {
    var rows, cols := [SamplesRow] + names, Columns(nclients);
    Table(rows, cols, map r, c | r in rows && c in cols :: (r, c) := 0)
  }

  /** The per-line counter update: one cell up by one, nothing else changes. */
  function Increment(t: Table, row: string, col: string): (u: Table)
    requires (row, col) in t.count
    ensures u.rows == t.rows && u.cols == t.cols && u.count.Keys == t.count.Keys
    ensures Get(u, row, col) == Get(t, row, col) + 1
    ensures forall r, c :: (r, c) != (row, col) ==> Get(u, r, c) == Get(t, r, c)
  {
    t.(count := t.count[(row, col) := t.count[(row, col)] + 1])
  }

  /** The labels of `xs`, then those of `ys` that `xs` lacks, in order. */
  function AppendNew(xs: seq<string>, ys: seq<string>): (r: seq<string>)
    ensures |xs| <= |r| && r[..|xs|] == xs
    ensures forall z :: z in r <==> z in xs || z in ys
    ensures (forall y :: y in ys ==> y in xs) ==> r == xs
    decreases |ys|
  {
    if |ys| == 0 then xs
    else if ys[0] in xs then AppendNew(xs, ys[1..])
    else AppendNew(xs + [ys[0]], ys[1..])
  }

  /** Adding two tables cell by cell over the union of their cells, a missing cell read as zero. */
  function Merge(a: Table, b: Table): (m: Table)
    ensures m.count.Keys == a.count.Keys + b.count.Keys
    ensures forall r, c :: Get(m, r, c) == Get(a, r, c) + Get(b, r, c)
    ensures a.rows == b.rows && a.cols == b.cols ==> m.rows == a.rows && m.cols == a.cols
  {
    Table(AppendNew(a.rows, b.rows), AppendNew(a.cols, b.cols),
          map k | k in a.count.Keys + b.count.Keys :: Get(a, k.0, k.1) + Get(b, k.0, k.1))
  }

  // ---------------------------------------------------------------------------
  // Properties of the table operations

  /** Every cell of the fresh table is present and zero, and its `Samples` row balances. */
  lemma FreshBalanced(names: seq<string>, nclients: nat)
    requires Distinct(names) && SamplesRow !in names
    ensures Balanced(FreshTable(names, nclients))
  {
    var t := FreshTable(names, nclients);
    forall c | c in t.cols
      ensures ClassSum(t, t.rows[1..], c) == 0
    {
      ClassSumZero(t, t.rows[1..], c);
    }
  }

  lemma {:induction false} ClassSumZero(t: Table, rows: seq<string>, col: string)
    requires forall r :: r in rows ==> Get(t, r, col) == 0
    ensures ClassSum(t, rows, col) == 0
    decreases |rows|
  {
    if |rows| > 0 {
      ClassSumZero(t, rows[1..], col);
    }
  }

  /** Incrementing one cell raises a column sum by how often that cell's row is summed. */
  lemma {:induction false} ClassSumIncrement(t: Table, rows: seq<string>, row: string, col: string, c: string)
    requires (row, col) in t.count
    ensures ClassSum(Increment(t, row, col), rows, c)
            == ClassSum(t, rows, c) + (if c == col then multiset(rows)[row] else 0)
    decreases |rows|
  {
    if |rows| > 0 {
      ClassSumIncrement(t, rows[1..], row, col, c);
      assert rows == [rows[0]] + rows[1..];
    }
  }

  /** Recording one line (class row, then `Samples`, in the same column) keeps the table balanced. */
  lemma RecordKeepsBalance(t: Table, name: string, col: string)
    requires Balanced(t)
    requires name in t.rows[1..] && col in t.cols
    ensures var u := Increment(Increment(t, name, col), SamplesRow, col);
            Balanced(u) && Get(u, SamplesRow, col) == Get(t, SamplesRow, col) + 1
  {
    var classes := t.rows[1..];
    var t1 := Increment(t, name, col);
    var u := Increment(t1, SamplesRow, col);
    assert t.rows == [SamplesRow] + classes;
    assert SamplesRow !in classes by {
      forall i | 0 <= i < |classes|
        ensures classes[i] != SamplesRow
      {
        assert classes[i] == t.rows[i + 1];
      }
    }
    assert multiset(classes)[name] == 1 by {
      DistinctCount(classes, name);
    }
    assert multiset(classes)[SamplesRow] == 0;
    forall c | c in u.cols
      ensures Get(u, SamplesRow, c) == ClassSum(u, u.rows[1..], c)
    {
      ClassSumIncrement(t, classes, name, col, c);
      ClassSumIncrement(t1, classes, SamplesRow, col, c);
    }
  }

  /** A label occurring in a list of distinct labels occurs exactly once. */
  lemma {:induction false} DistinctCount(s: seq<string>, x: string)
    requires Distinct(s) && x in s
    ensures multiset(s)[x] == 1
    decreases |s|
  {
    assert s == [s[0]] + s[1..];
    if s[0] == x {
      assert x !in s[1..] by {
        forall i | 0 <= i < |s[1..]|
          ensures s[1..][i] != x
        {
          assert s[1..][i] == s[i + 1];
        }
      }
    } else {
      DistinctCount(s[1..], x);
    }
  }

  /** Column sums of a merge are the sums of the two tables' column sums. */
  lemma {:induction false} ClassSumMerge(a: Table, b: Table, rows: seq<string>, col: string)
    ensures ClassSum(Merge(a, b), rows, col) == ClassSum(a, rows, col) + ClassSum(b, rows, col)
    decreases |rows|
  {
    if |rows| > 0 {
      ClassSumMerge(a, b, rows[1..], col);
    }
  }

  /** Merging two balanced tables over the same axes gives a balanced table over those axes. */
  lemma MergeKeepsBalance(a: Table, b: Table)
    requires Balanced(a) && Balanced(b)
    requires a.rows == b.rows && a.cols == b.cols
    ensures Balanced(Merge(a, b))
    ensures Merge(a, b).rows == a.rows && Merge(a, b).cols == a.cols
  {
    var m := Merge(a, b);
    forall c | c in m.cols
      ensures Get(m, SamplesRow, c) == ClassSum(m, m.rows[1..], c)
    {
      ClassSumMerge(a, b, a.rows[1..], c);
    }
  }

  /** Merge order does not matter for any cell. */
  lemma MergeCommutes(a: Table, b: Table)
    ensures Merge(a, b).count == Merge(b, a).count
    ensures a.rows == b.rows && a.cols == b.cols ==> Merge(a, b) == Merge(b, a)
  {
  }

  /** Merge grouping does not matter for any cell. */
  lemma MergeAssociates(a: Table, b: Table, c: Table)
    ensures Merge(Merge(a, b), c).count == Merge(a, Merge(b, c)).count
  {
    var l, r := Merge(Merge(a, b), c), Merge(a, Merge(b, c));
    assert l.count.Keys == r.count.Keys;
    forall k | k in l.count.Keys
      ensures l.count[k] == r.count[k]
    {
      assert l.count[k] == Get(l, k.0, k.1);
      assert r.count[k] == Get(r, k.0, k.1);
    }
  }

  /** Merging with a fresh table of the same axes changes nothing. */
  lemma MergeFreshIdentity(t: Table, names: seq<string>, nclients: nat)
    requires Shaped(t)
    requires t.rows == [SamplesRow] + names && t.cols == Columns(nclients)
    ensures Merge(t, FreshTable(names, nclients)) == t
  {
    var z := FreshTable(names, nclients);
    SameAxesSameCells(t, z);
    var m := Merge(t, z);
    assert m.rows == t.rows && m.cols == t.cols;
    MergeZero(t, z);
  }

  /** Two shaped tables over the same axes have the same cells. */
  lemma SameAxesSameCells(a: Table, b: Table)
    requires Shaped(a) && Shaped(b)
    requires a.rows == b.rows && a.cols == b.cols
    ensures a.count.Keys == b.count.Keys
  {
    forall k | k in a.count.Keys
      ensures k in b.count.Keys
    {
      assert (k.0, k.1) in a.count;
    }
    forall k | k in b.count.Keys
      ensures k in a.count.Keys
    {
      assert (k.0, k.1) in b.count;
    }
  }

  lemma MergeZero(t: Table, z: Table)
    requires z.count.Keys == t.count.Keys
    requires forall r, c :: Get(z, r, c) == 0
    ensures Merge(t, z).count == t.count
  {
    var m := Merge(t, z);
    forall k | k in m.count.Keys
      ensures m.count[k] == t.count[k]
    {
      assert m.count[k] == Get(m, k.0, k.1);
      assert Get(z, k.0, k.1) == 0;
    }
  }

  /** The worked merge: cells A = 3, B = 0 plus A = 2, B = 1 give A = 5, B = 1. */
  lemma MergeExample()
    ensures var a := Table(["A", "B"], ["server"], map[("A", "server") := 3, ("B", "server") := 0]);
            var b := Table(["A", "B"], ["server"], map[("A", "server") := 2, ("B", "server") := 1]);
            var m := Merge(a, b);
            Get(m, "A", "server") == 5 && Get(m, "B", "server") == 1 && |m.count.Keys| == 2
  {
    var a := Table(["A", "B"], ["server"], map[("A", "server") := 3, ("B", "server") := 0]);
    var b := Table(["A", "B"], ["server"], map[("A", "server") := 2, ("B", "server") := 1]);
    assert Merge(a, b).count.Keys == {("A", "server"), ("B", "server")};
  }
}
