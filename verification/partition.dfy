/**
 The partitioner of prepare_VisDrone.py. Training files are shuffled and then
 dealt round-robin to `client1` .. `clientN` with Python's extended slice
 `files[i::nclients]`; validation files go whole, in order, to `server`.
 The seeded shuffle is a caller-supplied permutation of the file list.
 */
module Partition {
  import opened Naming

  /** One bucket of an assignment: its identity and its files, in order. */
  datatype Entry<T> = Entry(bucket: Bucket, files: seq<T>)

  /** A bucket assignment, in the dictionary's insertion order. */
  type Assignment<T> = seq<Entry<T>>

  /** Python's `s[start::step]` for `start >= 0` and `step >= 1`. */
  function Stride<T>(s: seq<T>, start: nat, step: nat): seq<T>
    requires 1 <= step
    decreases |s| - start
  {
    if start < |s| then [s[start]] + Stride(s, start + step, step) else []
  }

  /** How many positions `start`, `start + step`, ... lie below `|s|`. */
  lemma {:induction false} StrideLength<T>(s: seq<T>, start: nat, step: nat)
    requires 1 <= step
    ensures |Stride(s, start, step)| == if start < |s| then (|s| - 1 - start) / step + 1 else 0
    decreases |s| - start
  {
    if start < |s| {
      StrideLength(s, start + step, step);
      var a := |s| - 1 - start;
      if start + step < |s| {
        DivShift(a - step, step);
      }
    }
  }

  // Quotient and remainder facts, derived from the uniqueness of Euclidean division.

  lemma {:induction false} MulAtLeast(n: nat, k: nat)
    requires 1 <= k
    ensures n * k >= n
    decreases k
  {
    if k > 1 {
      MulAtLeast(n, k - 1);
      assert n * k == n * (k - 1) + n;
    }
  }

  /** `x == q * n + r` with `0 <= r < n` pins down `x / n` and `x % n`. */
  lemma DivModUnique(x: int, n: int, q: int, r: int)
    requires 1 <= n && 0 <= r < n && x == q * n + r
    ensures x / n == q && x % n == r
  {
    var q0, r0 := x / n, x % n;
    assert x == q0 * n + r0;
    assert (q - q0) * n == r0 - r;
    assert (q0 - q) * n == r - r0;
    if q > q0 {
      MulAtLeast(n, q - q0);
    } else if q < q0 {
      MulAtLeast(n, q0 - q);
    }
  }

  /** Shifting the dividend by one divisor shifts the quotient by one. */
  lemma DivShift(a: nat, d: nat)
    requires 1 <= d
    ensures (a + d) / d == a / d + 1
    ensures (a + d) % d == a % d
  {
    assert a == (a / d) * d + a % d;
    assert a + d == (a / d + 1) * d + a % d;
    DivModUnique(a + d, d, a / d + 1, a % d);
  }

  /** Element `q` of a stride is element `start + q * step` of the whole list. */
  lemma {:induction false} StrideIndex<T>(s: seq<T>, start: nat, step: nat, q: nat)
    requires 1 <= step
    requires q < |Stride(s, start, step)|
    ensures start + q * step < |s|
    ensures Stride(s, start, step)[q] == s[start + q * step]
    decreases q
  {
    if q > 0 {
      StrideIndex(s, start + step, step, q - 1);
      assert start + q * step == (start + step) + (q - 1) * step;
    }
  }

  /** Appending one element extends exactly the stride whose positions it continues. */
  lemma {:induction false} StrideSnoc<T>(s: seq<T>, x: T, start: nat, step: nat)
    requires 1 <= step
    ensures start <= |s| && (|s| - start) % step == 0 ==>
              Stride(s + [x], start, step) == Stride(s, start, step) + [x]
    ensures !(start <= |s| && (|s| - start) % step == 0) ==>
              Stride(s + [x], start, step) == Stride(s, start, step)
    decreases |s| - start
  {
    if start < |s| {
      StrideSnoc(s, x, start + step, step);
      if start + step <= |s| {
        assert (|s| - start) % step == (|s| - (start + step)) % step by {
          DivShift(|s| - (start + step), step);
        }
      } else {
        assert (|s| - start) % step != 0;
      }
      assert (s + [x])[start] == s[start];
    }
  }

  /** Round-robin split: bucket `client(i + 1)` receives `files[i::nclients]`. */
  function SplitFiles<T>(files: seq<T>, nclients: nat): (a: Assignment<T>)
    ensures |a| == nclients
    ensures forall i :: 0 <= i < nclients ==> a[i].bucket == Client(i + 1)
  {
    seq(nclients, i requires 0 <= i < nclients => Entry(Client(i + 1), Stride(files, i, nclients)))
  }

  /** The bucket choice of process_split: a shuffled round-robin split for training, one `server` bucket otherwise. */
  function Assign<T>(files: seq<T>, shuffled: seq<T>, nclients: nat, isTrain: bool): Assignment<T>
  {
    if isTrain then SplitFiles(shuffled, nclients) else [Entry(Server, files)]
  }

  /** The multiset union of all buckets' files. */
  function Gather<T>(a: Assignment<T>): multiset<T>
  {
    if |a| == 0 then multiset{} else Gather(a[..|a| - 1]) + multiset(a[|a| - 1].files)
  }

  /** Replacing one bucket's files by themselves plus `x` adds `x` to the union. */
  lemma {:induction false} GatherBump<T>(a: Assignment<T>, b: Assignment<T>, j: nat, x: T)
    requires |a| == |b| && j < |a|
    requires b[j].files == a[j].files + [x]
    requires forall i :: 0 <= i < |a| && i != j ==> b[i].files == a[i].files
    ensures Gather(b) == Gather(a) + multiset{x}
    decreases |a|
  {
    var n := |a|;
    if j == n - 1 {
      GatherEqual(a[..n - 1], b[..n - 1]);
    } else {
      GatherBump(a[..n - 1], b[..n - 1], j, x);
    }
  }

  lemma {:induction false} GatherEqual<T>(a: Assignment<T>, b: Assignment<T>)
    requires |a| == |b|
    requires forall i :: 0 <= i < |a| ==> b[i].files == a[i].files
    ensures Gather(b) == Gather(a)
    decreases |a|
  {
    if |a| > 0 {
      GatherEqual(a[..|a| - 1], b[..|b| - 1]);
    }
  }

  lemma {:induction false} GatherEmpty<T>(a: Assignment<T>)
    requires forall i :: 0 <= i < |a| ==> a[i].files == []
    ensures Gather(a) == multiset{}
    decreases |a|
  {
    if |a| > 0 {
      GatherEmpty(a[..|a| - 1]);
    }
  }

  /** Coverage: the buckets of the round-robin split hold exactly the input files, each as often as in the input. */
  lemma {:induction false} SplitCovers<T>(files: seq<T>, nclients: nat)
    requires 1 <= nclients
    ensures Gather(SplitFiles(files, nclients)) == multiset(files)
    decreases |files|
  {
    var n := nclients;
    if |files| == 0 {
      GatherEmpty(SplitFiles(files, n));
    } else {
      var m := |files| - 1;
      var init, x := files[..m], files[m];
      assert files == init + [x];
      SplitCovers(init, n);
      var a, b := SplitFiles(init, n), SplitFiles(files, n);
      var j := m % n;
      SplitSnoc(init, x, n);
      GatherBump(a, b, j, x);
      assert multiset(files) == multiset(init) + multiset{x};
    }
  }

  /** Appending one file extends exactly bucket `m mod N`, where `m` is that file's position. */
  lemma SplitSnoc<T>(init: seq<T>, x: T, n: nat)
    requires 1 <= n
    ensures var a, b := SplitFiles(init, n), SplitFiles(init + [x], n);
            forall i :: 0 <= i < n ==>
              (i == |init| % n ==> b[i].files == a[i].files + [x]) && (i != |init| % n ==> b[i].files == a[i].files)
  {
    var a, b := SplitFiles(init, n), SplitFiles(init + [x], n);
    forall i | 0 <= i < n
      ensures i == |init| % n ==> b[i].files == a[i].files + [x]
      ensures i != |init| % n ==> b[i].files == a[i].files
    {
      StrideSnoc(init, x, i, n);
      ModOfPosition(|init|, i, n);
    }
  }

  /** For `i < n <= m`: `(m - i) % n == 0` exactly when `i` is `m % n`. */
  lemma ModOfPosition(m: nat, i: nat, n: nat)
    requires i < n
    ensures (i <= m && (m - i) % n == 0) <==> i == m % n
  {
    if i <= m && (m - i) % n == 0 {
      var q := (m - i) / n;
      assert m == q * n + i;
      ModOfSum(q, i, n);
    }
    if i == m % n {
      assert m - i == (m / n) * n;
      ModOfMultiple(m / n, n);
    }
  }

  lemma ModOfSum(q: nat, i: nat, n: nat)
    requires i < n
    ensures (q * n + i) % n == i && (q * n + i) / n == q
  {
    DivModUnique(q * n + i, n, q, i);
  }

  lemma ModOfMultiple(q: nat, n: nat)
    requires 1 <= n
    ensures (q * n) % n == 0
  {
    ModOfSum(q, 0, n);
  }

  /** Membership by position: file `i` of the shuffled list is file `i / N` of bucket `client(i mod N + 1)`. */
  lemma PositionBucket<T>(files: seq<T>, nclients: nat, i: nat)
    requires 1 <= nclients && i < |files|
    ensures var a := SplitFiles(files, nclients);
            var e := a[i % nclients];
            e.bucket == Client(i % nclients + 1) && i / nclients < |e.files| && e.files[i / nclients] == files[i]
  {
    var n := nclients;
    var j, q := i % n, i / n;
    assert i == q * n + j;
    StrideReaches(files, j, n, q);
    assert SplitFiles(files, n)[j] == Entry(Client(j + 1), Stride(files, j, n));
  }

  /** Every position `start + q * step` inside the list is reached by the stride, as its element `q`. */
  lemma StrideReaches<T>(files: seq<T>, start: nat, step: nat, q: nat)
    requires start < step && q * step + start < |files|
    ensures q < |Stride(files, start, step)|
    ensures Stride(files, start, step)[q] == files[q * step + start]
  {
    StrideLength(files, start, step);
    DivMonotone(q * step, |files| - 1 - start, step);
    ModOfSum(q, 0, step);
    StrideIndex(files, start, step, q);
  }

  lemma DivMonotone(a: nat, b: nat, n: nat)
    requires 1 <= n && a <= b
    ensures a / n <= b / n
  {
    var qa, qb := a / n, b / n;
    assert a == qa * n + a % n && b == qb * n + b % n;
    assert (qa - qb) * n == qa * n - qb * n;
    if qa > qb {
      MulAtLeast(n, qa - qb);
    }
  }

  /** Order and origin: bucket `client(j + 1)` lists files `j, j + N, j + 2N, ...` of the shuffled list, in that order. */
  lemma BucketPositions<T>(files: seq<T>, nclients: nat, j: nat, q: nat)
    requires j < nclients
    requires q < |SplitFiles(files, nclients)[j].files|
    ensures j + q * nclients < |files|
    ensures SplitFiles(files, nclients)[j].files[q] == files[j + q * nclients]
  {
    StrideIndex(files, j, nclients, q);
  }

  /** Balance: with M files and N clients every bucket holds floor(M/N) or ceil(M/N) files. */
  lemma SplitBalanced<T>(files: seq<T>, nclients: nat, j: nat)
    requires j < nclients
    ensures var size := |SplitFiles(files, nclients)[j].files|;
            size == |files| / nclients || size == (|files| + nclients - 1) / nclients
  {
    var m, n := |files|, nclients;
    assert SplitFiles(files, n)[j].files == Stride(files, j, n);
    StrideLength(files, j, n);
    if j < m {
      var a := m - 1 - j;
      var lq, r := a / n, a % n;
      assert a == lq * n + r;
      assert |Stride(files, j, n)| == lq + 1;
      if r + 1 + j <= n {
        assert m + n - 1 == (lq + 1) * n + (r + j);
        DivModUnique(m + n - 1, n, lq + 1, r + j);
      } else {
        assert m == (lq + 1) * n + (r + 1 + j - n);
        DivModUnique(m, n, lq + 1, r + 1 + j - n);
      }
    } else {
      DivModUnique(m, n, 0, m);
    }
  }

  /** Disjointness: when the file names are distinct, no file lies in two different client buckets. */
  lemma SplitDisjoint<T>(files: seq<T>, nclients: nat, j1: nat, j2: nat, x: T)
    requires Distinct(files)
    requires j1 < nclients && j2 < nclients
    requires x in SplitFiles(files, nclients)[j1].files && x in SplitFiles(files, nclients)[j2].files
    ensures j1 == j2
  {
    var n := nclients;
    var b1, b2 := SplitFiles(files, n)[j1].files, SplitFiles(files, n)[j2].files;
    var q1 :| 0 <= q1 < |b1| && b1[q1] == x;
    var q2 :| 0 <= q2 < |b2| && b2[q2] == x;
    BucketPositions(files, n, j1, q1);
    BucketPositions(files, n, j2, q2);
    var p1, p2 := j1 + q1 * n, j2 + q2 * n;
    assert p1 == p2;
    ModOfSum(q1, j1, n);
    ModOfSum(q2, j2, n);
    assert q1 * n + j1 == p1 && q2 * n + j2 == p2;
  }

  /** The validation subset yields one `server` bucket holding the files in their original order. */
  lemma AssignValidation<T>(files: seq<T>, shuffled: seq<T>, nclients: nat)
    ensures Assign(files, shuffled, nclients, false) == [Entry(Server, files)]
    ensures Gather(Assign(files, shuffled, nclients, false)) == multiset(files)
  {
    var a := Assign(files, shuffled, nclients, false);
    assert a[..0] == [];
  }

  /** In both modes, when the shuffle is a permutation and N >= 1, the buckets hold exactly the subset's files. */
  lemma AssignCovers<T>(files: seq<T>, shuffled: seq<T>, nclients: nat, isTrain: bool)
    requires multiset(shuffled) == multiset(files)
    requires isTrain ==> 1 <= nclients
    ensures Gather(Assign(files, shuffled, nclients, isTrain)) == multiset(files)
  {
    if isTrain {
      SplitCovers(shuffled, nclients);
    } else {
      AssignValidation(files, shuffled, nclients);
    }
  }
}
