/**
 process_split and the merge in main (prepare_VisDrone.py): select the `.jpg`
 images, assign them to buckets, convert every image's annotation lines into
 its bucket and count the recorded lines in a fresh distribution table; then
 add the train and val tables. File contents are given as a map from image
 name to annotation lines; an image without an entry stands for an annotation
 file that cannot be opened, which the source skips.
 */
module Pipeline {
  import opened Wrappers
  import opened Naming
  import opened Text
  import opened Partition
  import opened Annotation
  import opened Distribution

  /** Converting one annotation file: the records written, the table after it, and whether the file ran to its end. */
  datatype FileResult = FileResult(lines: seq<Output>, table: Table, completed: bool)

  /** One written label file. `complete` is false when the file was cut short by a class id with no table row. */
  datatype Label = Label(bucket: Bucket, image: string, lines: seq<Output>, complete: bool)

  datatype SplitResult = SplitResult(labels: seq<Label>, table: Table)

  /** The subset's image directory held no `.jpg` file. */
  datatype Error = NoImages

  datatype RunResult = RunResult(train: SplitResult, val: SplitResult, total: Table)

  /** The transform applied to every line of a file. */
  function Transformed(raw: seq<string>, p: Parsers): (recs: seq<Option<Output>>)
    ensures |recs| == |raw|
    ensures forall i :: 0 <= i < |raw| ==> recs[i] == Transform(raw[i], p)
    ensures ClassesNonNegative(recs)
  {
    seq(|raw|, i requires 0 <= i < |raw| => Transform(raw[i], p))
  }

  /** Every record present carries a 0-based (non-negative) class. */
  predicate ClassesNonNegative(recs: seq<Option<Output>>)
  {
    forall i :: 0 <= i < |recs| && recs[i].Some? ==> 0 <= recs[i].value.cls
  }

  /** The records present, in order. */
  function Emitted(recs: seq<Option<Output>>): seq<Output>
  {
    if |recs| == 0 then []
    else (if recs[0].Some? then [recs[0].value] else []) + Emitted(recs[1..])
  }

  /** Of the records written for a file, those that were also counted: all but the last when the file was cut short. */
  function Counted(lines: seq<Output>, completed: bool): seq<Output>
  {
    if completed || |lines| == 0 then lines else lines[..|lines| - 1]
  }

  /** How many records carry 0-based class `k`. */
  function CountClass(lines: seq<Output>, k: int): nat
  {
    if |lines| == 0 then 0
    else (if lines[0].cls == k then 1 else 0) + CountClass(lines[1..], k)
  }

  /**
   The line loop for one file into column `col`, over the lines' transforms. A
   surviving record is written; its class row is `rows[cls_id]`; when the table
   has no such row the lookup fails after the write and the rest of the file is
   abandoned.
   */
  function ProcessRecords(recs: seq<Option<Output>>, col: string, t: Table): (r: FileResult)
    requires Shaped(t) && col in t.cols && SamplesRow in t.rows
    requires ClassesNonNegative(recs)
    ensures r.table.rows == t.rows && r.table.cols == t.cols && r.table.count.Keys == t.count.Keys
    ensures forall row, c :: c != col ==> Get(r.table, row, c) == Get(t, row, c)
    decreases |recs|
  {
    if |recs| == 0 then FileResult([], t, true)
    else if recs[0].None? then ProcessRecords(recs[1..], col, t)
    else
      var o := recs[0].value;
      var cls := o.cls + 1;
      if cls < |t.rows| then
        var u := Increment(Increment(t, t.rows[cls], col), SamplesRow, col);
        var rest := ProcessRecords(recs[1..], col, u);
        FileResult([o] + rest.lines, rest.table, rest.completed)
      else
        FileResult([o], t, false)
  }

  /** The loop over one annotation file's raw lines. */
  function ProcessFile(raw: seq<string>, p: Parsers, col: string, t: Table): (r: FileResult)
    requires Shaped(t) && col in t.cols && SamplesRow in t.rows
    ensures r.table.rows == t.rows && r.table.cols == t.cols && r.table.count.Keys == t.count.Keys
    ensures forall row, c :: c != col ==> Get(r.table, row, c) == Get(t, row, c)
  {
    ProcessRecords(Transformed(raw, p), col, t)
  }

  /** The files of one bucket, in order; an image with no annotation entry is skipped. */
  function ProcessFiles(files: seq<string>, b: Bucket, ann: map<string, seq<string>>, p: Parsers, t: Table)
    : (r: SplitResult)
    requires Shaped(t) && BucketName(b) in t.cols && SamplesRow in t.rows
    ensures r.table.rows == t.rows && r.table.cols == t.cols && r.table.count.Keys == t.count.Keys
    ensures forall row, c :: c != BucketName(b) ==> Get(r.table, row, c) == Get(t, row, c)
    ensures forall i :: 0 <= i < |r.labels| ==>
              r.labels[i].bucket == b && r.labels[i].image in files && r.labels[i].image in ann
    decreases |files|
  {
    if |files| == 0 then SplitResult([], t)
    else if files[0] in ann then
      var fr := ProcessFile(ann[files[0]], p, BucketName(b), t);
      var rest := ProcessFiles(files[1..], b, ann, p, fr.table);
      SplitResult([Label(b, files[0], fr.lines, fr.completed)] + rest.labels, rest.table)
    else
      ProcessFiles(files[1..], b, ann, p, t)
  }

  /** The buckets of an assignment, in order. */
  function ProcessEntries(a: Assignment<string>, ann: map<string, seq<string>>, p: Parsers, t: Table)
    : (r: SplitResult)
    requires Shaped(t) && SamplesRow in t.rows
    requires forall i :: 0 <= i < |a| ==> BucketName(a[i].bucket) in t.cols
    ensures r.table.rows == t.rows && r.table.cols == t.cols && r.table.count.Keys == t.count.Keys
    ensures forall row, c ::
              (forall i :: 0 <= i < |a| ==> c != BucketName(a[i].bucket)) ==> Get(r.table, row, c) == Get(t, row, c)
    ensures forall i :: 0 <= i < |r.labels| ==> exists j :: 0 <= j < |a| && r.labels[i].bucket == a[j].bucket
    decreases |a|
  {
    if |a| == 0 then SplitResult([], t)
    else
      var first := ProcessFiles(a[0].files, a[0].bucket, ann, p, t);
      var rest := ProcessEntries(a[1..], ann, p, first.table);
      assert forall i :: 0 <= i < |rest.labels| ==> exists j :: 0 <= j < |a| && rest.labels[i].bucket == a[j].bucket by {
        forall i | 0 <= i < |rest.labels|
          ensures exists j :: 0 <= j < |a| && rest.labels[i].bucket == a[j].bucket
        {
          var j :| 0 <= j < |a[1..]| && rest.labels[i].bucket == a[1..][j].bucket;
          assert a[1..][j] == a[j + 1];
        }
      }
      SplitResult(first.labels + rest.labels, rest.table)
  }

  /** The names of `xs` that satisfy `keep`, in their original order. */
  function Filter(xs: seq<string>, keep: string -> bool): (r: seq<string>)
    ensures |r| <= |xs|
    ensures forall x :: x in r <==> x in xs && keep(x)
  {
    if |xs| == 0 then []
    else (if keep(xs[0]) then [xs[0]] else []) + Filter(xs[1..], keep)
  }

  /** Filtering a concatenation filters each part and keeps them in order. */
  lemma {:induction false} FilterAppend(xs: seq<string>, ys: seq<string>, keep: string -> bool)
    ensures Filter(xs + ys, keep) == Filter(xs, keep) + Filter(ys, keep)
    decreases |xs|
  {
    if |xs| > 0 {
      assert (xs + ys)[1..] == xs[1..] + ys;
      FilterAppend(xs[1..], ys, keep);
    } else {
      assert xs + ys == ys;
    }
  }

  predicate IsImage(name: string)
  {
    EndsWith(name, ".jpg")
  }

  /** The image files of a directory listing: the names ending in `.jpg`. */
  function SelectImages(listing: seq<string>): (r: seq<string>)
    ensures |r| <= |listing|
    ensures forall x :: x in r <==> x in listing && EndsWith(x, ".jpg")
  {
    Filter(listing, IsImage)
  }

  /** The selection keeps the listing's order and multiplicity: it distributes over concatenation, one name at a time. */
  lemma SelectImagesAppend(xs: seq<string>, ys: seq<string>)
    ensures SelectImages(xs + ys) == SelectImages(xs) + SelectImages(ys)
    ensures |xs| == 1 ==> SelectImages(xs) == if EndsWith(xs[0], ".jpg") then xs else []
  {
    FilterAppend(xs, ys, IsImage);
    if |xs| == 1 {
      assert xs[1..] == [];
    }
  }

  /** The images of `files` that have an annotation entry, in order. */
  function Annotated(files: seq<string>, ann: map<string, seq<string>>): (r: seq<string>)
    ensures |r| <= |files|
    ensures forall x :: x in r <==> x in files && x in ann
  {
    Filter(files, f => f in ann)
  }

  /** Each image paired with bucket `b`. */
  function Tagged(b: Bucket, imgs: seq<string>): (r: seq<(Bucket, string)>)
    ensures |r| == |imgs| && forall i :: 0 <= i < |imgs| ==> r[i] == (b, imgs[i])
  {
    seq(|imgs|, i requires 0 <= i < |imgs| => (b, imgs[i]))
  }

  /** The bucket and image of every label an assignment produces: bucket by bucket, in entry order. */
  function Labelled(a: Assignment<string>, ann: map<string, seq<string>>): seq<(Bucket, string)>
  {
    if |a| == 0 then [] else Tagged(a[0].bucket, Annotated(a[0].files, ann)) + Labelled(a[1..], ann)
  }

  /** Every bucket of an assignment is a column of the run's table. */
  lemma AssignedColumns(files: seq<string>, shuffled: seq<string>, nclients: nat, isTrain: bool)
    ensures var a := Assign(files, shuffled, nclients, isTrain);
            forall i :: 0 <= i < |a| ==> BucketName(a[i].bucket) in Columns(nclients)
  {
    var a := Assign(files, shuffled, nclients, isTrain);
    forall i | 0 <= i < |a|
      ensures BucketName(a[i].bucket) in Columns(nclients)
    {
      ColumnsAreBuckets(nclients, a[i].bucket);
    }
  }

  /**
   process_split: fail when the subset has no image; otherwise assign the images
   (through the caller's shuffle when training) and convert them into a fresh table.
   */
  function ProcessSplit(listing: seq<string>, shuffled: seq<string>, nclients: nat, names: seq<string>,
                        ann: map<string, seq<string>>, isTrain: bool, p: Parsers): (r: Result<SplitResult, Error>)
    ensures r.Failure? <==> SelectImages(listing) == []
    ensures r.Success? ==>
              && r.value.table.rows == [SamplesRow] + names
              && r.value.table.cols == Columns(nclients)
              && Shaped(r.value.table)
  {
    var files := SelectImages(listing);
    if |files| == 0 then Failure(NoImages)
    else
      var t := FreshTable(names, nclients);
      var a := Assign(files, shuffled, nclients, isTrain);
      AssignedColumns(files, shuffled, nclients, isTrain);
      Success(ProcessEntries(a, ann, p, t))
  }

  /** main: the train subset, then the val subset, then their tables added cell by cell. */
  function Run(trainListing: seq<string>, shuffledTrain: seq<string>, valListing: seq<string>, nclients: nat,
               names: seq<string>, trainAnn: map<string, seq<string>>, valAnn: map<string, seq<string>>,
               p: Parsers): (r: Result<RunResult, Error>)
    ensures r.Success? <==> SelectImages(trainListing) != [] && SelectImages(valListing) != []
    ensures r.Success? ==> r.value.total.rows == [SamplesRow] + names && r.value.total.cols == Columns(nclients)
  {
    match ProcessSplit(trainListing, shuffledTrain, nclients, names, trainAnn, true, p)
    case Failure(e) => Failure(e)
    case Success(train) =>
      match ProcessSplit(valListing, [], nclients, names, valAnn, false, p)
      case Failure(e) => Failure(e)
      case Success(val) => Success(RunResult(train, val, Merge(train.table, val.table)))
  }

  // ---------------------------------------------------------------------------
  // Properties of the line loop

  /**
   `lines` are exactly the records `e` if the file completed, and otherwise the
   non-empty prefix of `e` that stops at the first record whose class has no
   row among `nrows`: every record before it had a row.
   */
  predicate WrittenPrefix(lines: seq<Output>, completed: bool, e: seq<Output>, nrows: nat)
  {
    PrefixOf(lines, completed, e, nrows) && RowsBefore(lines, completed, nrows)
  }

  /** All of `e` when completed; otherwise a non-empty prefix of it whose last record has no row. */
  predicate PrefixOf(lines: seq<Output>, completed: bool, e: seq<Output>, nrows: nat)
  {
    && (completed ==> lines == e)
    && (!completed ==>
          && 1 <= |lines| <= |e|
          && lines == e[..|lines|]
          && nrows <= lines[|lines| - 1].cls + 1)
  }

  /** Every record but a cut-short file's last has a class row. */
  predicate RowsBefore(lines: seq<Output>, completed: bool, nrows: nat)
  {
    forall i :: 0 <= i < |lines| && (completed || i < |lines| - 1) ==> lines[i].cls + 1 < nrows
  }

  /** The records written are the records present, in order, up to the first record whose class has no row. */
  lemma {:induction false} RecordsWritten(recs: seq<Option<Output>>, col: string, t: Table)
    requires Shaped(t) && col in t.cols && SamplesRow in t.rows
    requires ClassesNonNegative(recs)
    ensures var r := ProcessRecords(recs, col, t);
            WrittenPrefix(r.lines, r.completed, Emitted(recs), |t.rows|)
  {
    RecordsPrefix(recs, col, t);
    RecordsHaveRows(recs, col, t);
  }

  lemma {:induction false} RecordsPrefix(recs: seq<Option<Output>>, col: string, t: Table)
    requires Shaped(t) && col in t.cols && SamplesRow in t.rows
    requires ClassesNonNegative(recs)
    ensures var r := ProcessRecords(recs, col, t);
            PrefixOf(r.lines, r.completed, Emitted(recs), |t.rows|)
    decreases |recs|
  {
    if |recs| > 0 {
      ClassesNonNegativeTail(recs);
      if recs[0].None? {
        RecordsPrefix(recs[1..], col, t);
        assert ProcessRecords(recs, col, t) == ProcessRecords(recs[1..], col, t);
        assert Emitted(recs) == Emitted(recs[1..]);
      } else {
        var o := recs[0].value;
        var cls := o.cls + 1;
        assert Emitted(recs) == [o] + Emitted(recs[1..]);
        if cls < |t.rows| {
          var u := RecordsCons(recs, col, t);
          RecordsPrefix(recs[1..], col, u);
          var rest := ProcessRecords(recs[1..], col, u);
          PrefixCons(o, rest.lines, rest.completed, Emitted(recs[1..]), |t.rows|);
        } else {
          assert ProcessRecords(recs, col, t) == FileResult([o], t, false);
          assert Emitted(recs)[..1] == [o];
        }
      }
    }
  }

  lemma {:induction false} RecordsHaveRows(recs: seq<Option<Output>>, col: string, t: Table)
    requires Shaped(t) && col in t.cols && SamplesRow in t.rows
    requires ClassesNonNegative(recs)
    ensures var r := ProcessRecords(recs, col, t);
            RowsBefore(r.lines, r.completed, |t.rows|)
    decreases |recs|
  {
    if |recs| > 0 {
      ClassesNonNegativeTail(recs);
      if recs[0].None? {
        RecordsHaveRows(recs[1..], col, t);
        assert ProcessRecords(recs, col, t) == ProcessRecords(recs[1..], col, t);
      } else {
        var o := recs[0].value;
        var cls := o.cls + 1;
        if cls < |t.rows| {
          var u := RecordsCons(recs, col, t);
          RecordsHaveRows(recs[1..], col, u);
          var rest := ProcessRecords(recs[1..], col, u);
          RowsCons(o, rest.lines, rest.completed, |t.rows|);
        } else {
          assert ProcessRecords(recs, col, t) == FileResult([o], t, false);
        }
      }
    }
  }

  /** A first record whose class has a row is written, counted, and the rest of the file continues from that table. */
  lemma RecordsCons(recs: seq<Option<Output>>, col: string, t: Table) returns (u: Table)
    requires Shaped(t) && col in t.cols && SamplesRow in t.rows
    requires ClassesNonNegative(recs)
    requires |recs| > 0 && recs[0].Some? && recs[0].value.cls + 1 < |t.rows|
    ensures Shaped(u) && u.rows == t.rows && u.cols == t.cols
    ensures var rest := ProcessRecords(recs[1..], col, u);
            ProcessRecords(recs, col, t) == FileResult([recs[0].value] + rest.lines, rest.table, rest.completed)
  {
    u := Increment(Increment(t, t.rows[recs[0].value.cls + 1], col), SamplesRow, col);
    assert u.count.Keys == t.count.Keys;
  }

  lemma ClassesNonNegativeTail(recs: seq<Option<Output>>)
    requires |recs| > 0 && ClassesNonNegative(recs)
    ensures ClassesNonNegative(recs[1..])
  {
    forall i | 0 <= i < |recs[1..]| && recs[1..][i].Some?
      ensures 0 <= recs[1..][i].value.cls
    {
      assert recs[1..][i] == recs[i + 1];
    }
  }

  lemma PrefixCons(o: Output, lines: seq<Output>, completed: bool, e: seq<Output>, nrows: nat)
    requires PrefixOf(lines, completed, e, nrows)
    ensures PrefixOf([o] + lines, completed, [o] + e, nrows)
  {
    if !completed {
      assert ([o] + lines)[..|lines| + 1] == [o] + e[..|lines|];
    }
  }

  lemma RowsCons(o: Output, lines: seq<Output>, completed: bool, nrows: nat)
    requires o.cls + 1 < nrows
    requires RowsBefore(lines, completed, nrows)
    ensures RowsBefore([o] + lines, completed, nrows)
  {
    forall i | 0 <= i < |[o] + lines| && (completed || i < |[o] + lines| - 1)
      ensures ([o] + lines)[i].cls + 1 < nrows
    {
      if i > 0 {
        assert ([o] + lines)[i] == lines[i - 1];
      }
    }
  }

  /** For a file: the records written are its lines' transforms that are present, in order. */
  lemma FileWritten(raw: seq<string>, p: Parsers, col: string, t: Table)
    requires Shaped(t) && col in t.cols && SamplesRow in t.rows
    ensures var r := ProcessFile(raw, p, col, t);
            WrittenPrefix(r.lines, r.completed, Emitted(Transformed(raw, p)), |t.rows|)
  {
    RecordsWritten(Transformed(raw, p), col, t);
  }

  lemma TransformedCons(line: string, rest: seq<string>, p: Parsers)
    ensures Transformed([line] + rest, p) == [Transform(line, p)] + Transformed(rest, p)
  {
    var a, b := Transformed([line] + rest, p), [Transform(line, p)] + Transformed(rest, p);
    assert |a| == |b|;
    forall i | 0 <= i < |a|
      ensures a[i] == b[i]
    {
      if i > 0 {
        assert ([line] + rest)[i] == rest[i - 1];
      }
    }
  }

  /** A malformed or filtered line writes nothing and changes no counter: the file proceeds as without it. */
  lemma RejectedLineNoEffect(line: string, rest: seq<string>, p: Parsers, col: string, t: Table)
    requires Shaped(t) && col in t.cols && SamplesRow in t.rows
    requires Transform(line, p).None?
    ensures ProcessFile([line] + rest, p, col, t) == ProcessFile(rest, p, col, t)
  {
    TransformedCons(line, rest, p);
    var recs := Transformed([line] + rest, p);
    assert recs[1..] == Transformed(rest, p);
  }

  /**
   A surviving line whose class has a row is written with class `cls_id - 1`, adds
   one to its class cell and one to `Samples` in `col`, changes no other cell,
   and the rest of the file continues from that table.
   */
  lemma SurvivingLineCounted(line: string, rest: seq<string>, p: Parsers, col: string, t: Table)
    returns (u: Table)
    requires Shaped(t) && col in t.cols && SamplesRow in t.rows
    requires Transform(line, p).Some?
    requires Transform(line, p).value.cls + 1 < |t.rows|
    ensures var o := Transform(line, p).value;
            var name := t.rows[o.cls + 1];
            && 0 <= o.cls < MaxClass
            && Shaped(u) && u.rows == t.rows && u.cols == t.cols
            && (name != SamplesRow ==> Get(u, name, col) == Get(t, name, col) + 1)
            && (name != SamplesRow ==> Get(u, SamplesRow, col) == Get(t, SamplesRow, col) + 1)
            && (forall r, c :: (r, c) != (name, col) && (r, c) != (SamplesRow, col) ==> Get(u, r, c) == Get(t, r, c))
            && var after := ProcessFile(rest, p, col, u);
               ProcessFile([line] + rest, p, col, t) == FileResult([o] + after.lines, after.table, after.completed)
  {
    var o := Transform(line, p).value;
    var name := t.rows[o.cls + 1];
    u := Increment(Increment(t, name, col), SamplesRow, col);
    assert Shaped(u) by {
      assert u.count.Keys == t.count.Keys;
    }
    TransformedCons(line, rest, p);
    var recs := Transformed([line] + rest, p);
    assert recs[1..] == Transformed(rest, p);
  }

  /** A surviving line whose class has no row is written, then ends the file with no counter changed. */
  lemma SurvivingLineWithoutRow(line: string, rest: seq<string>, p: Parsers, col: string, t: Table)
    requires Shaped(t) && col in t.cols && SamplesRow in t.rows
    requires Transform(line, p).Some?
    requires |t.rows| <= Transform(line, p).value.cls + 1
    ensures ProcessFile([line] + rest, p, col, t) == FileResult([Transform(line, p).value], t, false)
  {
    TransformedCons(line, rest, p);
  }

  /** One more counted record at the front: the class tally of that record's class goes up by one. */
  lemma CountClassCons(o: Output, lines: seq<Output>, k: int)
    ensures CountClass([o] + lines, k) == CountClass(lines, k) + (if o.cls == k then 1 else 0)
  {
    assert ([o] + lines)[1..] == lines;
  }

  /**
   Counting: each recorded line adds one to `Samples` and one to its class row in
   column `col`, and nothing else; so the table stays balanced.
   */
  lemma {:induction false} RecordsCounted(recs: seq<Option<Output>>, col: string, t: Table)
    requires Balanced(t) && col in t.cols
    requires ClassesNonNegative(recs)
    ensures var r := ProcessRecords(recs, col, t);
            && Balanced(r.table)
            && Get(r.table, SamplesRow, col) == Get(t, SamplesRow, col) + |Counted(r.lines, r.completed)|
            && forall k :: 1 <= k < |t.rows| ==>
                 Get(r.table, t.rows[k], col) == Get(t, t.rows[k], col) + CountClass(Counted(r.lines, r.completed), k - 1)
    decreases |recs|
  {
    var r := ProcessRecords(recs, col, t);
    if |recs| > 0 {
      if recs[0].None? {
        RecordsCounted(recs[1..], col, t);
      } else {
        var o := recs[0].value;
        var cls := o.cls + 1;
        if cls < |t.rows| {
          var u := RecordOne(t, cls, col);
          RecordsCounted(recs[1..], col, u);
          RecordsWritten(recs[1..], col, u);
          var rest := ProcessRecords(recs[1..], col, u);
          assert r == FileResult([o] + rest.lines, rest.table, rest.completed);
          assert Counted(r.lines, r.completed) == [o] + Counted(rest.lines, rest.completed);
          forall k | 1 <= k < |t.rows|
            ensures Get(r.table, t.rows[k], col) == Get(t, t.rows[k], col) + CountClass(Counted(r.lines, r.completed), k - 1)
          {
            CountClassCons(o, Counted(rest.lines, rest.completed), k - 1);
          }
        } else {
          assert Counted(r.lines, r.completed) == [];
        }
      }
    }
  }

  /** Recording one line of class row `cls`: `Samples` and that row go up by one in `col`, the table stays balanced. */
  lemma RecordOne(t: Table, cls: nat, col: string) returns (u: Table)
    requires Balanced(t) && col in t.cols && 1 <= cls < |t.rows|
    ensures u == Increment(Increment(t, t.rows[cls], col), SamplesRow, col)
    ensures Balanced(u)
    ensures Get(u, SamplesRow, col) == Get(t, SamplesRow, col) + 1
    ensures forall k :: 1 <= k < |t.rows| ==> Get(u, t.rows[k], col) == Get(t, t.rows[k], col) + (if k == cls then 1 else 0)
  {
    var name := t.rows[cls];
    u := Increment(Increment(t, name, col), SamplesRow, col);
    assert name in t.rows[1..] by {
      assert t.rows[1..][cls - 1] == name;
    }
    RecordKeepsBalance(t, name, col);
  }

  // ---------------------------------------------------------------------------
  // Properties of a bucket and of a subset

  /** The records of a label file that were counted in the table. */
  function LabelCounted(l: Label): seq<Output>
  {
    Counted(l.lines, l.complete)
  }

  /** The counted records of all labels. */
  function TotalCounted(labels: seq<Label>): nat
  {
    if |labels| == 0 then 0 else |LabelCounted(labels[0])| + TotalCounted(labels[1..])
  }

  /** The counted records of class `k` over all labels. */
  function ClassTotal(labels: seq<Label>, k: int): nat
  {
    if |labels| == 0 then 0 else CountClass(LabelCounted(labels[0]), k) + ClassTotal(labels[1..], k)
  }

  lemma TotalsCons(l: Label, labels: seq<Label>, k: int)
    ensures TotalCounted([l] + labels) == |LabelCounted(l)| + TotalCounted(labels)
    ensures ClassTotal([l] + labels, k) == CountClass(LabelCounted(l), k) + ClassTotal(labels, k)
  {
    assert ([l] + labels)[1..] == labels;
  }

  /**
   Accumulation over a bucket: its column's `Samples` cell grows by the number of
   counted records of all its label files, each class row by that class's
   records, and the table stays balanced.
   */
  lemma {:induction false} FilesCounted(files: seq<string>, b: Bucket, ann: map<string, seq<string>>, p: Parsers,
                                        t: Table)
    requires Balanced(t) && BucketName(b) in t.cols
    ensures var r := ProcessFiles(files, b, ann, p, t);
            var col := BucketName(b);
            && Balanced(r.table)
            && Get(r.table, SamplesRow, col) == Get(t, SamplesRow, col) + TotalCounted(r.labels)
            && forall k :: 1 <= k < |t.rows| ==>
                 Get(r.table, t.rows[k], col) == Get(t, t.rows[k], col) + ClassTotal(r.labels, k - 1)
    decreases |files|
  {
    if |files| > 0 {
      var col := BucketName(b);
      if files[0] in ann {
        var fr := ProcessFile(ann[files[0]], p, col, t);
        RecordsCounted(Transformed(ann[files[0]], p), col, t);
        FilesCounted(files[1..], b, ann, p, fr.table);
        var rest := ProcessFiles(files[1..], b, ann, p, fr.table);
        var l := Label(b, files[0], fr.lines, fr.completed);
        assert LabelCounted(l) == Counted(fr.lines, fr.completed);
        forall k | 1 <= k < |t.rows|
          ensures Get(rest.table, t.rows[k], col)
                  == Get(t, t.rows[k], col) + ClassTotal([l] + rest.labels, k - 1)
        {
          TotalsCons(l, rest.labels, k - 1);
        }
        TotalsCons(l, rest.labels, 0);
      } else {
        FilesCounted(files[1..], b, ann, p, t);
      }
    }
  }

  /** Processing the buckets of an assignment keeps the table balanced. */
  lemma {:induction false} EntriesKeepBalance(a: Assignment<string>, ann: map<string, seq<string>>, p: Parsers,
                                              t: Table)
    requires Balanced(t)
    requires forall i :: 0 <= i < |a| ==> BucketName(a[i].bucket) in t.cols
    ensures Balanced(ProcessEntries(a, ann, p, t).table)
    decreases |a|
  {
    if |a| > 0 {
      FilesCounted(a[0].files, a[0].bucket, ann, p, t);
      var first := ProcessFiles(a[0].files, a[0].bucket, ann, p, t);
      EntriesKeepBalance(a[1..], ann, p, first.table);
    }
  }

  /** Label `l` holds the records written for its image's annotation file under a table of `nrows` rows. */
  predicate LabelWritten(l: Label, ann: map<string, seq<string>>, p: Parsers, nrows: nat)
  {
    l.image in ann && WrittenPrefix(l.lines, l.complete, Emitted(Transformed(ann[l.image], p)), nrows)
  }

  /** `labels` are one label per image of `imgs`, in order, all in bucket `b`, each holding its file's written records. */
  predicate LabelsOf(labels: seq<Label>, b: Bucket, imgs: seq<string>, ann: map<string, seq<string>>, p: Parsers,
                     nrows: nat)
  {
    && |labels| == |imgs|
    && forall i :: 0 <= i < |labels| ==>
         && labels[i].bucket == b && labels[i].image == imgs[i]
         && LabelWritten(labels[i], ann, p, nrows)
  }

  lemma LabelsOfCons(l: Label, labels: seq<Label>, b: Bucket, img: string, imgs: seq<string>,
                     ann: map<string, seq<string>>, p: Parsers, nrows: nat)
    requires l.bucket == b && l.image == img && LabelWritten(l, ann, p, nrows)
    requires LabelsOf(labels, b, imgs, ann, p, nrows)
    ensures LabelsOf([l] + labels, b, [img] + imgs, ann, p, nrows)
  {
    forall i | 0 <= i < |[l] + labels|
      ensures ([l] + labels)[i].bucket == b && ([l] + labels)[i].image == ([img] + imgs)[i]
      ensures LabelWritten(([l] + labels)[i], ann, p, nrows)
    {
      if i > 0 {
        assert ([l] + labels)[i] == labels[i - 1];
        assert ([img] + imgs)[i] == imgs[i - 1];
      }
    }
  }

  /**
   A bucket writes one label per image that has an annotation file, in file
   order, each holding the records written for that image's lines.
   */
  lemma {:induction false} FilesLabelled(files: seq<string>, b: Bucket, ann: map<string, seq<string>>, p: Parsers,
                                         t: Table)
    requires Shaped(t) && BucketName(b) in t.cols && SamplesRow in t.rows
    ensures LabelsOf(ProcessFiles(files, b, ann, p, t).labels, b, Annotated(files, ann), ann, p, |t.rows|)
    decreases |files|
  {
    if |files| > 0 {
      var col := BucketName(b);
      var imgs := Annotated(files, ann);
      assert imgs == (if files[0] in ann then [files[0]] else []) + Annotated(files[1..], ann);
      if files[0] in ann {
        var fr := ProcessFile(ann[files[0]], p, col, t);
        FileWritten(ann[files[0]], p, col, t);
        assert Shaped(fr.table);
        FilesLabelled(files[1..], b, ann, p, fr.table);
        var rest := ProcessFiles(files[1..], b, ann, p, fr.table);
        var l := Label(b, files[0], fr.lines, fr.completed);
        assert ProcessFiles(files, b, ann, p, t).labels == [l] + rest.labels;
        LabelsOfCons(l, rest.labels, b, files[0], Annotated(files[1..], ann), ann, p, |t.rows|);
      } else {
        FilesLabelled(files[1..], b, ann, p, t);
        assert imgs == Annotated(files[1..], ann);
        assert ProcessFiles(files, b, ann, p, t) == ProcessFiles(files[1..], b, ann, p, t);
      }
    } else {
      assert Annotated(files, ann) == [];
    }
  }

  /** `labels` carry the buckets and images of `pairs`, in order, each holding its file's written records. */
  predicate PairsOf(labels: seq<Label>, pairs: seq<(Bucket, string)>, ann: map<string, seq<string>>, p: Parsers,
                    nrows: nat)
  {
    && |labels| == |pairs|
    && forall i :: 0 <= i < |labels| ==>
         (labels[i].bucket, labels[i].image) == pairs[i] && LabelWritten(labels[i], ann, p, nrows)
  }

  lemma PairsOfLabels(labels: seq<Label>, b: Bucket, imgs: seq<string>, ann: map<string, seq<string>>, p: Parsers,
                      nrows: nat)
    requires LabelsOf(labels, b, imgs, ann, p, nrows)
    ensures PairsOf(labels, Tagged(b, imgs), ann, p, nrows)
  {
  }

  lemma PairsOfAppend(xs: seq<Label>, ys: seq<Label>, px: seq<(Bucket, string)>, py: seq<(Bucket, string)>,
                      ann: map<string, seq<string>>, p: Parsers, nrows: nat)
    requires PairsOf(xs, px, ann, p, nrows) && PairsOf(ys, py, ann, p, nrows)
    ensures PairsOf(xs + ys, px + py, ann, p, nrows)
  {
    forall i | 0 <= i < |xs + ys|
      ensures ((xs + ys)[i].bucket, (xs + ys)[i].image) == (px + py)[i]
      ensures LabelWritten((xs + ys)[i], ann, p, nrows)
    {
      if i < |xs| {
        assert (xs + ys)[i] == xs[i] && (px + py)[i] == px[i];
      } else {
        assert (xs + ys)[i] == ys[i - |xs|] && (px + py)[i] == py[i - |xs|];
      }
    }
  }

  /**
   Processing an assignment labels exactly the annotated images of each bucket,
   the buckets' labels joined in entry order, each holding its file's written records.
   */
  lemma {:induction false} EntriesLabelled(a: Assignment<string>, ann: map<string, seq<string>>, p: Parsers,
                                           t: Table)
    requires Shaped(t) && SamplesRow in t.rows
    requires forall i :: 0 <= i < |a| ==> BucketName(a[i].bucket) in t.cols
    ensures PairsOf(ProcessEntries(a, ann, p, t).labels, Labelled(a, ann), ann, p, |t.rows|)
    decreases |a|
  {
    if |a| > 0 {
      var first := ProcessFiles(a[0].files, a[0].bucket, ann, p, t);
      FilesLabelled(a[0].files, a[0].bucket, ann, p, t);
      PairsOfLabels(first.labels, a[0].bucket, Annotated(a[0].files, ann), ann, p, |t.rows|);
      assert Shaped(first.table);
      EntriesLabelled(a[1..], ann, p, first.table);
      var rest := ProcessEntries(a[1..], ann, p, first.table);
      assert ProcessEntries(a, ann, p, t).labels == first.labels + rest.labels;
      PairsOfAppend(first.labels, rest.labels, Tagged(a[0].bucket, Annotated(a[0].files, ann)),
                    Labelled(a[1..], ann), ann, p, |t.rows|);
    }
  }

  /** With distinct class names other than `Samples`, a subset's table is balanced in every column. */
  lemma ProcessSplitBalanced(listing: seq<string>, shuffled: seq<string>, nclients: nat, names: seq<string>,
                             ann: map<string, seq<string>>, isTrain: bool, p: Parsers)
    requires Distinct(names) && SamplesRow !in names
    ensures var r := ProcessSplit(listing, shuffled, nclients, names, ann, isTrain, p);
            r.Success? ==> Balanced(r.value.table)
  {
    var files := SelectImages(listing);
    if |files| > 0 {
      var t := FreshTable(names, nclients);
      FreshBalanced(names, nclients);
      AssignedColumns(files, shuffled, nclients, isTrain);
      EntriesKeepBalance(Assign(files, shuffled, nclients, isTrain), ann, p, t);
    }
  }

  /** The val subset counts only into `server`: every client column stays zero and every label goes to `server`. */
  lemma ValidationOnlyServer(listing: seq<string>, nclients: nat, names: seq<string>,
                             ann: map<string, seq<string>>, p: Parsers, row: string, k: nat)
    requires 1 <= k <= nclients
    ensures var r := ProcessSplit(listing, [], nclients, names, ann, false, p);
            r.Success? ==>
              && Get(r.value.table, row, BucketName(Client(k))) == 0
              && forall i :: 0 <= i < |r.value.labels| ==> r.value.labels[i].bucket == Server
  {
    var files := SelectImages(listing);
    if |files| > 0 {
      var t := FreshTable(names, nclients);
      ValidationEntries(listing, nclients, names, ann, p);
      var c := BucketName(Client(k));
      if c == BucketName(Server) {
        BucketNameInjective(Client(k), Server);
      }
      assert BucketName(Server) == t.cols[0];
      ServerOnly(files, ann, p, t, row, c);
    }
  }

  /** The val subset processes the single `server` bucket holding its images, into a fresh table. */
  lemma ValidationEntries(listing: seq<string>, nclients: nat, names: seq<string>, ann: map<string, seq<string>>,
                          p: Parsers)
    requires SelectImages(listing) != []
    ensures ProcessSplit(listing, [], nclients, names, ann, false, p)
            == Success(ProcessEntries([Entry(Server, SelectImages(listing))], ann, p, FreshTable(names, nclients)))
  {
    assert Assign(SelectImages(listing), [], nclients, false) == [Entry(Server, SelectImages(listing))];
  }

  /** Processing the single `server` bucket leaves every other column alone and labels only into `server`. */
  lemma ServerOnly(files: seq<string>, ann: map<string, seq<string>>, p: Parsers, t: Table, row: string, c: string)
    requires Shaped(t) && SamplesRow in t.rows && BucketName(Server) in t.cols
    requires c != BucketName(Server)
    ensures var r := ProcessEntries([Entry(Server, files)], ann, p, t);
            && Get(r.table, row, c) == Get(t, row, c)
            && forall i :: 0 <= i < |r.labels| ==> r.labels[i].bucket == Server
  {
    var a := [Entry(Server, files)];
    var first := ProcessFiles(files, Server, ann, p, t);
    assert ProcessEntries(a[1..], ann, p, first.table) == SplitResult([], first.table);
    assert ProcessEntries(a, ann, p, t) == SplitResult(first.labels, first.table);
  }

  /** The train subset never counts into `server`. */
  lemma TrainingNeverServer(listing: seq<string>, shuffled: seq<string>, nclients: nat, names: seq<string>,
                            ann: map<string, seq<string>>, p: Parsers, row: string)
    ensures var r := ProcessSplit(listing, shuffled, nclients, names, ann, true, p);
            r.Success? ==> Get(r.value.table, row, BucketName(Server)) == 0
  {
    var files := SelectImages(listing);
    if |files| > 0 {
      var t := FreshTable(names, nclients);
      var a := Assign(files, shuffled, nclients, true);
      AssignedColumns(files, shuffled, nclients, true);
      assert ProcessSplit(listing, shuffled, nclients, names, ann, true, p) == Success(ProcessEntries(a, ann, p, t));
      forall i | 0 <= i < |a|
        ensures BucketName(Server) != BucketName(a[i].bucket)
      {
        if BucketName(Server) == BucketName(a[i].bucket) {
          BucketNameInjective(Server, a[i].bucket);
        }
      }
    }
  }

  /**
   The merged table of a run is balanced, its `server` column is the val subset's
   and its client columns are the train subset's.
   */
  lemma RunMerged(trainListing: seq<string>, shuffledTrain: seq<string>, valListing: seq<string>, nclients: nat,
                  names: seq<string>, trainAnn: map<string, seq<string>>, valAnn: map<string, seq<string>>,
                  p: Parsers, row: string, k: nat)
    requires Distinct(names) && SamplesRow !in names
    requires 1 <= k <= nclients
    ensures var r := Run(trainListing, shuffledTrain, valListing, nclients, names, trainAnn, valAnn, p);
            r.Success? ==>
              && Balanced(r.value.total)
              && Get(r.value.total, row, BucketName(Server)) == Get(r.value.val.table, row, BucketName(Server))
              && Get(r.value.total, row, BucketName(Client(k)))
                 == Get(r.value.train.table, row, BucketName(Client(k)))
  {
    var r := Run(trainListing, shuffledTrain, valListing, nclients, names, trainAnn, valAnn, p);
    if r.Success? {
      var tr, va := r.value.train, r.value.val;
      assert Success(tr) == ProcessSplit(trainListing, shuffledTrain, nclients, names, trainAnn, true, p);
      assert Success(va) == ProcessSplit(valListing, [], nclients, names, valAnn, false, p);
      assert r.value.total == Merge(tr.table, va.table);
      ProcessSplitBalanced(trainListing, shuffledTrain, nclients, names, trainAnn, true, p);
      ProcessSplitBalanced(valListing, [], nclients, names, valAnn, false, p);
      TrainingNeverServer(trainListing, shuffledTrain, nclients, names, trainAnn, p, row);
      ValidationOnlyServer(valListing, nclients, names, valAnn, p, row, k);
      MergedSplits(tr.table, va.table, row, BucketName(Server), BucketName(Client(k)));
    }
  }

  lemma MergedSplits(train: Table, val: Table, row: string, server: string, client: string)
    requires Balanced(train) && Balanced(val)
    requires train.rows == val.rows && train.cols == val.cols
    requires Get(train, row, server) == 0 && Get(val, row, client) == 0
    ensures Balanced(Merge(train, val))
    ensures Get(Merge(train, val), row, server) == Get(val, row, server)
    ensures Get(Merge(train, val), row, client) == Get(train, row, client)
  {
    MergeKeepsBalance(train, val);
  }
}
