/**
 Bucket identities and their labels. A bucket is either the server partition
 (validation data) or the k-th client partition; its label is the string used
 as a directory name and as a column of the distribution table:
 `server`, `client1`, `client2`, ...
 */
module Naming {

  datatype Bucket = Server | Client(k: nat)

  /** The decimal digit character for `d`. */
  function Digit(d: nat): (c: char)
    requires d < 10
    ensures '0' <= c <= '9'
    ensures (c as int) - ('0' as int) == d
  {
    ((('0' as int) + d) as char)
  }

  predicate IsDigits(s: string)
  {
    forall i :: 0 <= i < |s| ==> '0' <= s[i] <= '9'
  }

  /** The canonical decimal rendering of `n`, as Python's f-string formats an int. */
  function Decimal(n: nat): (s: string)
    ensures 1 <= |s|
    ensures IsDigits(s)
    ensures s[0] == '0' ==> n == 0
    decreases n
  {
    if n < 10 then [Digit(n)] else Decimal(n / 10) + [Digit(n % 10)]
  }

  /** Reads a string of decimal digits back as a number (the reference inverse of `Decimal`). */
  function ParseDecimal(s: string): nat
    requires IsDigits(s)
    decreases |s|
  {
    if |s| == 0 then 0
    else ParseDecimal(s[..|s| - 1]) * 10 + ((s[|s| - 1] as int) - ('0' as int))
  }

  lemma {:induction false} DecimalRoundTrip(n: nat)
    ensures ParseDecimal(Decimal(n)) == n
    decreases n
  {
    if n >= 10 {
      var s := Decimal(n);
      assert s[..|s| - 1] == Decimal(n / 10);
      DecimalRoundTrip(n / 10);
    }
  }

  lemma DecimalInjective(a: nat, b: nat)
    requires Decimal(a) == Decimal(b)
    ensures a == b
  {
    DecimalRoundTrip(a);
    DecimalRoundTrip(b);
  }

  /** The label of a bucket (prepare_VisDrone.py builds `client{i + 1}`; the table adds `server`). */
  function BucketName(b: Bucket): (s: string)
  {
    match b
    case Server => "server"
    case Client(k) => "client" + Decimal(k)
  }

  /** Distinct buckets have distinct labels, so labels can key a dictionary. */
  lemma BucketNameInjective(a: Bucket, b: Bucket)
    requires BucketName(a) == BucketName(b)
    ensures a == b
  {
    if a.Client? && b.Client? {
      assert BucketName(a)[6..] == Decimal(a.k);
      assert BucketName(b)[6..] == Decimal(b.k);
      DecimalInjective(a.k, b.k);
    }
  }

  /** A bucket that exists when the run has `nclients` clients. */
  predicate IsBucketOf(b: Bucket, nclients: nat)
  {
    b.Server? || 1 <= b.k <= nclients
  }

  /** The table's column labels: `server`, then `client1` .. `clientN`, in that order. */
  function Columns(nclients: nat): (cols: seq<string>)
    ensures |cols| == nclients + 1
    ensures cols[0] == BucketName(Server)
    ensures forall k :: 1 <= k <= nclients ==> cols[k] == BucketName(Client(k))
  {
    [BucketName(Server)] + seq(nclients, i requires 0 <= i => BucketName(Client(i + 1)))
  }

  /** Every column label is the label of exactly one bucket of the run, and vice versa. */
  lemma ColumnsAreBuckets(nclients: nat, b: Bucket)
    ensures BucketName(b) in Columns(nclients) <==> IsBucketOf(b, nclients)
  {
    var cols := Columns(nclients);
    if BucketName(b) in cols {
      var j :| 0 <= j < |cols| && cols[j] == BucketName(b);
      if j == 0 {
        BucketNameInjective(b, Server);
      } else {
        BucketNameInjective(b, Client(j));
      }
    }
  }

  /** No element occurs twice. */
  predicate Distinct<T(==)>(s: seq<T>)
  {
    forall i, j :: 0 <= i < j < |s| ==> s[i] != s[j]
  }

  /** The column labels are pairwise distinct. */
  lemma ColumnsDistinct(nclients: nat)
    ensures Distinct(Columns(nclients))
  {
    forall i, j | 0 <= i < j < |Columns(nclients)|
      ensures Columns(nclients)[i] != Columns(nclients)[j]
    {
      ColumnsDiffer(nclients, i, j);
    }
  }

  lemma ColumnsDiffer(nclients: nat, i: nat, j: nat)
    requires i < j <= nclients
    ensures Columns(nclients)[i] != Columns(nclients)[j]
  {
    var bi := if i == 0 then Server else Client(i);
    assert Columns(nclients)[i] == BucketName(bi);
    if Columns(nclients)[i] == Columns(nclients)[j] {
      BucketNameInjective(bi, Client(j));
    }
  }
}
