# VisDrone to federated YOLO converter — verified model

This project models the partition-and-transform core of the FedDrone dataset
converter (`datasets/prepare_VisDrone.py` and `datasets/datasets_utils.py`):

- **Partitioner.** Training images are shuffled, then dealt round-robin to
  buckets `client1` .. `clientN` with `files[i::nclients]`. Validation images go
  whole and in order to the one bucket `server`.
- **Annotation transform.** Each raw VisDrone line
  `left,top,width,height,score,class,status,truncation,...` is stripped and
  split on commas. It is dropped if it has fewer than 8 fields or if fields
  0-3, 5 or 6 do not convert. It is filtered out when `status == 0` or the
  class lies outside [1, 10]. Otherwise it becomes a YOLO record
  `class-1 x y w h`, normalised at a fixed 1920 x 1080 whatever the real image
  size.
- **Distribution table.** Rows are `Samples` followed by the class names;
  columns are `server, client1, ..., clientN`. Every cell starts at 0. A
  recorded line adds 1 to its class row (`index[cls_id]`) and 1 to `Samples`
  in its bucket's column, so `Samples` counts lines, not images. The train and
  val tables are added cell by cell, with a missing cell read as 0.

Modules, one per component: `Wrappers` (Option, Result), `Naming` (buckets,
their labels, the column axis), `Partition`, `Text` (strip, split, join),
`BBox` (`convert_bbox`), `Annotation` (the per-line transform),
`Distribution` (the table), `Pipeline` (`process_split` and the merge in
`main`).

Inputs that come from outside are parameters:
- the directory listing of a subset is a `seq<string>`;
- the annotation file of each image is an entry of a `map<string, seq<string>>`;
  an image with no entry stands for an annotation file that cannot be opened;
- the seeded shuffle is a caller-supplied sequence, assumed to be a
  permutation of the selected images where coverage is stated;
- Python's `float()` and `int()` are the caller's `Parsers`, a pair of total
  functions `string -> Option`;
- the class names read from YAML are a `seq<string>`.

One behaviour of the code is modelled as written:
- When the class list has fewer than `cls_id` names, `dist_df.index[cls_id]`
  fails after the line was written. The per-file handler then abandons the
  rest of that file. `FileResult.completed` / `Label.complete` record this.
  The written record is kept and is not counted.

One restriction applies to the table lemmas:
- The balance invariant ("`Samples` equals the sum of the class rows in every
  column") is proved for distinct class names that differ from `Samples`.
  pandas would accept duplicate labels; a map cell cannot represent them.

## Model

| member | source | states |
|---|---|---|
| Naming.DecimalRoundTrip | datasets/prepare_VisDrone.py:14 | the decimal rendering used in `client{i + 1}` reads back as the same number, so it loses nothing |
| Naming.BucketNameInjective | datasets/prepare_VisDrone.py:14 | distinct buckets get distinct labels (`server`, `client1`, ...), so the split dictionary and the table columns never collide |
| Naming.Columns | datasets/datasets_utils.py:37-41 | the column axis has N+1 labels: `server` first, then `clientk` at position k for 1 ≤ k ≤ N |
| Naming.ColumnsAreBuckets | datasets/datasets_utils.py:37-41 | a bucket's label is a column exactly when the bucket is `server` or `clientk` with 1 ≤ k ≤ N |
| Naming.ColumnsDistinct | datasets/datasets_utils.py:37-41 | the column labels are pairwise distinct |
| Partition.SplitFiles | datasets/prepare_VisDrone.py:14 | the split yields exactly N buckets, the i-th keyed `client(i+1)` |
| Partition.StrideLength | datasets/prepare_VisDrone.py:14 | the slice `s[start::step]` has ⌊(len-1-start)/step⌋+1 elements when start < len, else none |
| Partition.StrideIndex | datasets/prepare_VisDrone.py:14 | element q of `s[start::step]` is element start + q·step of `s` |
| Partition.SplitCovers | datasets/prepare_VisDrone.py:13-14 | the multiset union of all client buckets equals the shuffled list: nothing is lost or duplicated |
| Partition.PositionBucket | datasets/prepare_VisDrone.py:14 | file i of the shuffled list lands in `client(i mod N + 1)` at position ⌊i/N⌋ |
| Partition.BucketPositions | datasets/prepare_VisDrone.py:14 | bucket j+1 lists shuffled positions j, j+N, j+2N, ... in increasing order, so each bucket keeps the shuffled order |
| Partition.SplitBalanced | datasets/prepare_VisDrone.py:14 | with M files and N ≥ 1 clients every bucket has ⌊M/N⌋ or ⌈M/N⌉ files |
| Partition.SplitDisjoint | datasets/prepare_VisDrone.py:14 | with distinct file names, a file found in two client buckets means the two buckets are the same |
| Partition.AssignValidation | datasets/prepare_VisDrone.py:42 | the non-train subset yields the single bucket `server` holding the input list in its original order |
| Partition.AssignCovers | datasets/prepare_VisDrone.py:42 | in both modes, given a permuting shuffle and N ≥ 1 for training, the buckets together hold exactly the subset's files |
| Text.Strip | datasets/prepare_VisDrone.py:70 | `strip()` returns a slice of the line with only whitespace removed before and after it, and neither end of the result is whitespace |
| Text.StripIdempotent | datasets/prepare_VisDrone.py:70 | stripping an already stripped line changes nothing |
| Text.Split | datasets/prepare_VisDrone.py:70 | `split(',')` yields one more piece than there are commas, and no piece contains a comma |
| Text.JoinSplit | datasets/prepare_VisDrone.py:70 | joining the pieces with commas rebuilds the line exactly |
| Text.SplitJoin | datasets/prepare_VisDrone.py:70 | splitting a comma-join of one or more comma-free pieces gives back those pieces |
| Annotation.Fields | datasets/prepare_VisDrone.py:70 | a line always has at least one field and no field contains a comma |
| Annotation.FieldsOfJoin | datasets/prepare_VisDrone.py:70 | any non-empty list of comma-free fields (empty first or last field included) whose comma-join has no whitespace at its ends is read back as exactly those fields |
| Annotation.FieldsOfLine | datasets/prepare_VisDrone.py:69-70 | the same holds for the line as the file loop yields it, with its trailing newline |
| Annotation.FieldCount | datasets/prepare_VisDrone.py:70-72 | a line has fewer than 8 fields exactly when its stripped text has fewer than 7 commas |
| Annotation.ParseLine | datasets/prepare_VisDrone.py:70-83 | a line parses exactly when it has ≥ 8 fields and fields 0-3 convert as reals and 5-6 as ints; the parsed values are those conversions |
| Annotation.Transform | datasets/prepare_VisDrone.py:69-100 | a record is emitted exactly when the line parses, status ≠ 0 and the class is in [1,10]; it carries class `cls_id - 1` in [0,9], a box whose corners are (left, top, left+width, top+height), and w = width/1920, h = height/1080 |
| Annotation.MalformedDropped | datasets/prepare_VisDrone.py:70-83 | a line with fewer than 8 fields or an unconvertible field 0-3, 5 or 6 emits nothing |
| Annotation.FilteredDropped | datasets/prepare_VisDrone.py:86-87 | a line with status 0 or a class outside [1,10] emits nothing, whatever its other fields |
| Annotation.TaxonomyShift | datasets/prepare_VisDrone.py:86-100 | a kept line of source class k in [1,10] emits class k-1 |
| Annotation.Emit | datasets/prepare_VisDrone.py:86-100 | a parsed line is emitted exactly when status ≠ 0 and the class is in [1,10]; the record has class `cls_id - 1` in [0,9], corners (left, top, left+width, top+height), w = width/1920, h = height/1080 |
| Annotation.EmitExample | datasets/prepare_VisDrone.py:86-100 | left 100, top 200, width 300, height 150, class 4, status 1 give class 3 and box (250/1920, 275/1080, 300/1920, 150/1080) |
| BBox.ConvertBox | datasets/datasets_utils.py:47-53 | the centre box maps back to the original corners under l = (x−w/2)·W, r = (x+w/2)·W, t = (y−h/2)·H, b = (y+h/2)·H |
| BBox.ConvertToCorners | datasets/datasets_utils.py:49-52 | every centre box is the conversion of its own corners, so the conversion is a bijection |
| BBox.ConvertInUnitRange | datasets/datasets_utils.py:49-52 | a box with 0 ≤ l ≤ r ≤ W and 0 ≤ t ≤ b ≤ H has x, y, w, h in [0,1] |
| BBox.ConvertExample | datasets/datasets_utils.py:49-52 | (100,200,400,350) at 1920×1080 gives exactly (250/1920, 275/1080, 300/1920, 150/1080), i.e. 0.130208, 0.254630, 0.156250, 0.138889 within 1e-5 |
| Distribution.FreshTable | datasets/datasets_utils.py:36-44 | the fresh table has rows `Samples` + names and columns `server`, `client1` .. `clientN` in order, every (row, column) cell present and every cell 0 |
| Distribution.FreshBalanced | datasets/datasets_utils.py:42-43 | the fresh table satisfies the balance invariant in every column |
| Distribution.Increment | datasets/prepare_VisDrone.py:104-105 | `.loc[row, col] += 1` raises that one cell by 1 and leaves the axes, the cell set and every other cell unchanged |
| Distribution.RecordKeepsBalance | datasets/prepare_VisDrone.py:103-105 | incrementing a class row and then `Samples` in one column keeps `Samples` equal to the class-row sum and raises `Samples` by 1 |
| Distribution.AppendNew | datasets/prepare_VisDrone.py:146 | the merged axis starts with the first table's labels, holds exactly the labels of both, and is the first axis when the second adds nothing |
| Distribution.Merge | datasets/prepare_VisDrone.py:146 | `add(..., fill_value=0)` has the union of both tables' cells, each the sum of the two, a missing cell read as 0; equal axes are kept |
| Distribution.MergeKeepsBalance | datasets/prepare_VisDrone.py:146 | merging two balanced tables over the same axes yields a balanced table over those axes |
| Distribution.MergeCommutes | datasets/prepare_VisDrone.py:146 | merge order does not change any cell, and with equal axes the tables are equal |
| Distribution.MergeAssociates | datasets/prepare_VisDrone.py:146 | merge grouping does not change any cell |
| Distribution.MergeFreshIdentity | datasets/prepare_VisDrone.py:146 | merging with the fresh table of the same axes changes nothing |
| Distribution.MergeExample | datasets/prepare_VisDrone.py:146 | merging {A:3, B:0} with {A:2, B:1} gives {A:5, B:1} |
| Pipeline.Transformed | datasets/prepare_VisDrone.py:69-100 | one transform outcome per line, in order, never with a negative class |
| Pipeline.ProcessRecords | datasets/prepare_VisDrone.py:69-105 | the line loop keeps the axes and the cell set and changes no cell outside the destination column |
| Pipeline.ProcessFile | datasets/prepare_VisDrone.py:68-105 | converting one file changes only cells of its bucket's column |
| Pipeline.RecordsWritten | datasets/prepare_VisDrone.py:99-105 | a completed file wrote exactly the emitted records in order, each with a class row; a cut-short file wrote the non-empty prefix of them that stops at the first record whose class has no table row |
| Pipeline.FileWritten | datasets/prepare_VisDrone.py:68-105 | the label file holds the transforms of the annotation lines that survive, in line order, or their prefix up to the first class without a row when cut short |
| Pipeline.RecordsCounted | datasets/prepare_VisDrone.py:100-105 | after a file, `Samples` in its column grew by the number of counted records, each class row by that class's count, and the table stays balanced |
| Pipeline.RecordOne | datasets/prepare_VisDrone.py:103-105 | recording a line of class row k adds 1 to row k and to `Samples` in the column and 0 to every other class row, keeping the table balanced |
| Pipeline.RejectedLineNoEffect | datasets/prepare_VisDrone.py:70-87 | a malformed or filtered line writes nothing and changes no counter: the file proceeds as if it were absent |
| Pipeline.SurvivingLineCounted | datasets/prepare_VisDrone.py:100-105 | a surviving line is written with class in [0,9], adds 1 to (`index[cls_id]`, dest) and 1 to (`Samples`, dest), changes no other cell, and the file continues from that table |
| Pipeline.SurvivingLineWithoutRow | datasets/prepare_VisDrone.py:100-103 | a surviving line whose class has no row is written and then ends the file with the table unchanged |
| Pipeline.ProcessFiles | datasets/prepare_VisDrone.py:49-68 | a bucket's files change only that bucket's column; every label belongs to that bucket and names one of its images that has an annotation file |
| Pipeline.FilesCounted | datasets/prepare_VisDrone.py:49-105 | a bucket's `Samples` cell grows by the total counted records over its label files, each class row by that class's total, and the table stays balanced |
| Pipeline.ProcessEntries | datasets/prepare_VisDrone.py:48-49 | processing the buckets changes only columns of buckets present, and every label belongs to one of them |
| Pipeline.FilesLabelled | datasets/prepare_VisDrone.py:49-105 | a bucket writes one label per image that has an annotation file, in file order, each holding that file's written records |
| Pipeline.EntriesLabelled | datasets/prepare_VisDrone.py:48-105 | a subset's labels are its buckets' labels joined in entry order: exactly the annotated images of each bucket, each holding its file's written records |
| Pipeline.EntriesKeepBalance | datasets/prepare_VisDrone.py:48-105 | processing every bucket keeps the table balanced |
| Pipeline.SelectImages | datasets/prepare_VisDrone.py:37 | the selected images are exactly the listed names ending in `.jpg` |
| Pipeline.SelectImagesAppend | datasets/prepare_VisDrone.py:37 | the selection keeps listing order and multiplicity: it distributes over concatenation and keeps or drops each single name by its `.jpg` ending |
| Pipeline.AssignedColumns | datasets/prepare_VisDrone.py:42 | every bucket the assignment produces is a column of the run's table |
| Pipeline.ProcessSplit | datasets/prepare_VisDrone.py:37-42 | a subset fails exactly when it has no `.jpg` image; otherwise its table has rows `Samples` + names and columns `server`, `client1` .. `clientN` |
| Pipeline.ProcessSplitBalanced | datasets/prepare_VisDrone.py:103-105 | with distinct class names other than `Samples`, a subset's table is balanced in every column |
| Pipeline.ValidationOnlyServer | datasets/prepare_VisDrone.py:42 | the val subset leaves every client column at 0 and writes every label into `server` |
| Pipeline.ServerOnly | datasets/prepare_VisDrone.py:42-105 | processing the single `server` bucket changes no other column and labels only into `server` |
| Pipeline.TrainingNeverServer | datasets/prepare_VisDrone.py:42 | the train subset leaves the `server` column at 0 |
| Pipeline.Run | datasets/prepare_VisDrone.py:141-146 | a run succeeds exactly when both subsets have images; the merged table keeps the shared axes |
| Pipeline.RunMerged | datasets/prepare_VisDrone.py:141-146 | the merged table is balanced, its `server` column is the val table's and its client columns are the train table's |

## Left out

- Filesystem work is not modelled: `os.listdir`, `os.path.exists` checks, `os.makedirs`, `shutil.copy`, opening and writing files, `create_directories`, `archive_directories` (tar packaging), `to_csv`. It is plumbing with no decision logic. Listings and annotation contents are parameters.
- Argument parsing in `main`, the `print` logging and the tqdm progress bar are left out, because they are I/O wrappers.
- YAML loading in `get_distribution_dataframe` is not modelled: the class names are a given `seq<string>`.
- `random.seed(42)` / `random.shuffle` is not modelled, because the Mersenne Twister is foreign code. The shuffle is a caller-supplied sequence; coverage lemmas require it to be a permutation. Determinism holds trivially because every member is a function.
- Python's `float()` / `int()` parsing is not modelled, because it is foreign and float-specific. It is the abstract `Parsers` pair.
- Box values are exact reals: float rounding and the `:.6f` output formatting are not modelled.
- Python's `float()` also accepts `nan`, `inf` and `-inf`, which no real represents. Such a line passes the filter, which reads only the class and the status, so it is written and counted. A `Parsers` that accepts the field keeps the counts right, but the box it gives is a real, not the NaN or infinite one Python would write.
- Text.Strip: strips only the ASCII characters Python's `isspace` accepts, not other Unicode whitespace.
- The `.jpg` to `.txt` name mapping (`img_file.replace`) is left out: the annotation map is keyed by image name directly.
- The per-file `except` at prepare_VisDrone.py:108-110 is modelled for two failures only: a missing annotation file (the file is skipped) and a class id with no table row (the file is cut short). Other failures, such as a failed image copy or an unreadable file, are not modelled.
- Duplicate class names, or a class named `Samples`: the table is a map, so it cannot hold duplicate row labels as a pandas index can. The balance lemmas require distinct names.
- Distribution.Merge: when the two tables' axes differ, pandas sorts the union of labels. The model keeps the first table's order and appends the second's new labels. Within the pipeline both tables always share their axes.
- Distribution.AppendNew: computes that merged axis as the first axis followed by the second axis's new labels, not as pandas' sorted union.
