/**
 The per-line annotation transform of process_split (prepare_VisDrone.py): a
 raw VisDrone line `left,top,width,height,score,class,status,truncation[,...]`
 is split on commas, its numeric fields parsed, filtered by status and class,
 and turned into a YOLO record `class-1 x y w h` at a fixed 1920 x 1080.
 Python's `float()` and `int()` are abstracted as the caller's `Parsers`.
 */
module Annotation {
  import opened Wrappers
  import opened Text
  import opened BBox

  /** The fixed image size used for every image. */
  const ImageWidth: int := 1920
  const ImageHeight: int := 1080

  /** A line needs at least this many comma-separated fields. */
  const MinFields: nat := 8

  /** Source class ids run from 1 to this bound. */
  const MaxClass: int := 10

  /** String-to-number conversions, standing for Python's `float()` and `int()`. */
  datatype Parsers = Parsers(toReal: string -> Option<real>, toInt: string -> Option<int>)

  /** The fields of a raw line the transform reads. */
  datatype Source = Source(left: real, top: real, width: real, height: real, cls: int, status: int)

  /** One YOLO output record: 0-based class and normalised centre box. */
  datatype Output = Output(cls: int, box: Box)

  /** The comma-separated fields of a line once the whitespace around it is stripped. */
  function Fields(line: string): (parts: seq<string>)
    ensures 1 <= |parts|
    ensures forall i :: 0 <= i < |parts| ==> ',' !in parts[i]
  {
    Split(Strip(line), ',')
  }

  /** All six fields the transform reads are present and convert. */
  predicate Parses(parts: seq<string>, p: Parsers)
  {
    && MinFields <= |parts|
    && p.toReal(parts[0]).Some? && p.toReal(parts[1]).Some?
    && p.toReal(parts[2]).Some? && p.toReal(parts[3]).Some?
    && p.toInt(parts[5]).Some? && p.toInt(parts[6]).Some?
  }

  /** Reads a line; `None` when it has fewer than eight fields or a field fails to convert. */
  function ParseLine(line: string, p: Parsers): (r: Option<Source>)
    ensures r.Some? <==> Parses(Fields(line), p)
    ensures r.Some? ==>
              var parts := Fields(line);
              && Some(r.value.left) == p.toReal(parts[0]) && Some(r.value.top) == p.toReal(parts[1])
              && Some(r.value.width) == p.toReal(parts[2]) && Some(r.value.height) == p.toReal(parts[3])
              && Some(r.value.cls) == p.toInt(parts[5]) && Some(r.value.status) == p.toInt(parts[6])
  {
    var parts := Fields(line);
    if |parts| < MinFields then None
    else
      match (p.toReal(parts[0]), p.toReal(parts[1]), p.toReal(parts[2]), p.toReal(parts[3]),
             p.toInt(parts[5]), p.toInt(parts[6]))
      case (Some(l), Some(t), Some(w), Some(h), Some(c), Some(s)) => Some(Source(l, t, w, h, c, s))
      case _ => None
  }

  /** The filter: a nonzero status and a class id in [1, 10]. */
  predicate Keep(src: Source)
  {
    src.status != 0 && 1 <= src.cls <= MaxClass
  }

  /** The pixel corners of a source box: right = left + width, bottom = top + height. */
  function SourceCorners(src: Source): Corners
  {
    Corners(src.left, src.top, src.left + src.width, src.top + src.height)
  }

  /** The filter and conversion of a parsed line: kept lines become a record with a 0-based class. */
  function Emit(src: Source): (r: Option<Output>)
    ensures r.Some? <==> Keep(src)
    ensures r.Some? ==>
              && r.value.cls == src.cls - 1
              && 0 <= r.value.cls < MaxClass
              && ToCorners(r.value.box, ImageWidth, ImageHeight) == SourceCorners(src)
              && r.value.box.w == src.width / (ImageWidth as real)
              && r.value.box.h == src.height / (ImageHeight as real)
  {
    if Keep(src) then Some(Output(src.cls - 1, ConvertBox(SourceCorners(src), ImageWidth, ImageHeight)))
    else None
  }

  /** One raw line to at most one output record. */
  function Transform(line: string, p: Parsers): (r: Option<Output>)
    ensures r.Some? <==> ParseLine(line, p).Some? && Keep(ParseLine(line, p).value)
    ensures r.Some? ==>
              var src := ParseLine(line, p).value;
              && r.value.cls == src.cls - 1
              && 0 <= r.value.cls < MaxClass
              && ToCorners(r.value.box, ImageWidth, ImageHeight) == SourceCorners(src)
              && r.value.box.w == src.width / (ImageWidth as real)
              && r.value.box.h == src.height / (ImageHeight as real)
  {
    match ParseLine(line, p)
    case None => None
    case Some(src) => Emit(src)
  }

  /** A line with fewer than eight fields, or one whose fields 0-3, 5 or 6 do not convert, yields nothing. */
  lemma MalformedDropped(line: string, p: Parsers)
    requires !Parses(Fields(line), p)
    ensures Transform(line, p) == None
  {
  }

  /** Fewer than eight fields means fewer than seven commas left after stripping. */
  lemma FieldCount(line: string)
    ensures |Fields(line)| < MinFields <==> Occurrences(Strip(line), ',') < MinFields - 1
  {
  }

  /** A zero status, or a class outside [1, 10], is never emitted, whatever the other fields hold. */
  lemma FilteredDropped(line: string, p: Parsers)
    requires ParseLine(line, p).Some?
    requires ParseLine(line, p).value.status == 0 || !(1 <= ParseLine(line, p).value.cls <= MaxClass)
    ensures Transform(line, p) == None
  {
  }

  /** Source class k in [1, 10] always comes out as k - 1. */
  lemma TaxonomyShift(line: string, p: Parsers, k: int)
    requires ParseLine(line, p).Some? && ParseLine(line, p).value.cls == k
    requires ParseLine(line, p).value.status != 0 && 1 <= k <= MaxClass
    ensures Transform(line, p).Some? && Transform(line, p).value.cls == k - 1
  {
  }

  /** A line written as comma-joined fields, with no whitespace at its ends, reads back as exactly those fields. */
  lemma FieldsOfJoin(fields: seq<string>)
    requires 1 <= |fields|
    requires forall i :: 0 <= i < |fields| ==> ',' !in fields[i]
    requires var line := Join(fields, ','); |line| > 0 ==> !IsSpace(line[0]) && !IsSpace(line[|line| - 1])
    ensures Fields(Join(fields, ',')) == fields
  {
    var line := Join(fields, ',');
    SplitJoin(fields, ',');
    if |line| > 0 {
      assert TrimStart(line) == line;
      assert TrimEnd(line) == line;
    }
  }

  /** The same holds for the line as a file yields it, ending in a newline. */
  lemma FieldsOfLine(fields: seq<string>)
    requires 1 <= |fields|
    requires forall i :: 0 <= i < |fields| ==> ',' !in fields[i]
    requires var line := Join(fields, ','); |line| > 0 ==> !IsSpace(line[0]) && !IsSpace(line[|line| - 1])
    ensures Fields(Join(fields, ',') + "\n") == fields
  {
    var line := Join(fields, ',');
    FieldsOfJoin(fields);
    TrimEndSpace(line, '\n');
    if |line| > 0 {
      assert Strip(line) == line;
      assert TrimStart(line + "\n") == line + "\n";
      assert TrimEnd(line) == line;
    } else {
      assert line + "\n" == "\n";
      assert TrimStart("\n") == "";
    }
  }

  /** The worked example: left 100, top 200, width 300, height 150, class 4, status 1 emits class 3 at 1920 x 1080. */
  lemma EmitExample()
    ensures Emit(Source(100.0, 200.0, 300.0, 150.0, 4, 1))
            == Some(Output(3, Box(250.0 / 1920.0, 275.0 / 1080.0, 300.0 / 1920.0, 150.0 / 1080.0)))
  {
    var src := Source(100.0, 200.0, 300.0, 150.0, 4, 1);
    assert ConvertBox(SourceCorners(src), ImageWidth, ImageHeight)
           == Box(250.0 / 1920.0, 275.0 / 1080.0, 300.0 / 1920.0, 150.0 / 1080.0);
  }
}
