/**
 The string operations the annotation transform relies on: Python's
 `str.strip()` (ASCII whitespace), `str.split(sep)` with an explicit one-character
 separator, its inverse `sep.join(...)`, and `str.endswith`.
 */
module Text {

  /** The ASCII characters Python's `str.isspace` accepts. */
  predicate IsSpace(c: char)
  {
    (9 <= c as int <= 13) || (28 <= c as int <= 32)
  }

  predicate AllSpace(s: string)
  {
    forall i :: 0 <= i < |s| ==> IsSpace(s[i])
  }

  /** `s` with its leading whitespace removed. */
  function TrimStart(s: string): (r: string)
    ensures |r| <= |s| && r == s[|s| - |r|..]
    ensures AllSpace(s[..|s| - |r|])
    ensures |r| > 0 ==> !IsSpace(r[0])
    decreases |s|
  {
    if |s| > 0 && IsSpace(s[0]) then TrimStart(s[1..]) else s
  }

  /** `s` with its trailing whitespace removed. */
  function TrimEnd(s: string): (r: string)
    ensures |r| <= |s| && r == s[..|r|]
    ensures AllSpace(s[|r|..])
    ensures |r| > 0 ==> !IsSpace(r[|r| - 1])
    decreases |s|
  {
    if |s| > 0 && IsSpace(s[|s| - 1]) then TrimEnd(s[..|s| - 1]) else s
  }

  /** A trailing whitespace character is trimmed away like the rest. */
  lemma TrimEndSpace(s: string, c: char)
    requires IsSpace(c)
    ensures TrimEnd(s + [c]) == TrimEnd(s)
  {
    assert (s + [c])[..|s|] == s;
  }

  /** Python's `s.strip()`: the slice of `s` left after dropping whitespace at both ends. */
  function Strip(s: string): (r: string)
    ensures exists i, j :: 0 <= i <= j <= |s| && r == s[i..j] && AllSpace(s[..i]) && AllSpace(s[j..])
    ensures |r| > 0 ==> !IsSpace(r[0]) && !IsSpace(r[|r| - 1])
  {
    var t := TrimStart(s);
    var r := TrimEnd(t);
    var i := |s| - |t|;
    assert r == s[i..i + |r|];
    assert s[i + |r|..] == t[|r|..];
    r
  }

  /** Stripping twice changes nothing more. */
  lemma StripIdempotent(s: string)
    ensures Strip(Strip(s)) == Strip(s)
  {
    var r := Strip(s);
    if |r| > 0 {
      assert TrimStart(r) == r;
      assert TrimEnd(r) == r;
    }
  }

  /** How many times `c` occurs in `s`. */
  function Occurrences(s: string, c: char): nat
  {
    multiset(s)[c]
  }

  /** Python's `s.split(sep)`: the maximal `sep`-free pieces between separators, empty pieces kept. */
  function Split(s: string, sep: char): (r: seq<string>)
    ensures |r| == Occurrences(s, sep) + 1
    ensures forall i :: 0 <= i < |r| ==> sep !in r[i]
    decreases |s|
  {
    if |s| == 0 then [""]
    else
      var rest := Split(s[1..], sep);
      assert s == [s[0]] + s[1..];
      if s[0] == sep then [""] + rest
      else [[s[0]] + rest[0]] + rest[1..]
  }

  /** Python's `sep.join(fields)`. */
  function Join(fields: seq<string>, sep: char): string
  {
    if |fields| == 0 then ""
    else if |fields| == 1 then fields[0]
    else fields[0] + [sep] + Join(fields[1..], sep)
  }

  /** Joining the pieces of a split with the same separator gives back the string. */
  lemma {:induction false} JoinSplit(s: string, sep: char)
    ensures Join(Split(s, sep), sep) == s
    decreases |s|
  {
    if |s| > 0 {
      JoinSplit(s[1..], sep);
      var rest := Split(s[1..], sep);
      if s[0] == sep {
        assert Split(s, sep)[1..] == rest;
      } else {
        var r := Split(s, sep);
        if |rest| == 1 {
          assert r == [[s[0]] + rest[0]];
        } else {
          assert r[1..] == rest[1..];
          assert Join(rest, sep) == rest[0] + [sep] + Join(rest[1..], sep);
        }
      }
    }
  }

  /** One step of `Split`: how the first character extends or closes the first piece. */
  lemma SplitCons(c: char, t: string, sep: char)
    ensures Split([c] + t, sep) ==
              if c == sep then [""] + Split(t, sep) else [[c] + Split(t, sep)[0]] + Split(t, sep)[1..]
  {
    assert ([c] + t)[1..] == t;
  }

  /** Splitting a join of separator-free pieces gives back the pieces. */
  lemma {:induction false} SplitJoin(fields: seq<string>, sep: char)
    requires 1 <= |fields|
    requires forall i :: 0 <= i < |fields| ==> sep !in fields[i]
    ensures Split(Join(fields, sep), sep) == fields
    decreases |fields|, |fields[0]|
  {
    var f := fields[0];
    if |fields| == 1 {
      SplitFree(f, sep);
    } else if |f| == 0 {
      SplitJoin(fields[1..], sep);
      JoinEmptyHead(fields, sep);
    } else {
      var shorter := [f[1..]] + fields[1..];
      assert sep !in f[1..] by {
        assert forall c :: c in f[1..] ==> c in f;
      }
      assert forall i :: 1 <= i < |shorter| ==> shorter[i] == fields[i];
      SplitJoin(shorter, sep);
      JoinLongHead(fields, sep);
    }
  }

  lemma JoinEmptyHead(fields: seq<string>, sep: char)
    requires 2 <= |fields| && fields[0] == ""
    requires Split(Join(fields[1..], sep), sep) == fields[1..]
    ensures Split(Join(fields, sep), sep) == fields
  {
    var tail := Join(fields[1..], sep);
    assert Join(fields, sep) == fields[0] + [sep] + tail;
    assert fields[0] + [sep] + tail == [sep] + tail;
    SplitCons(sep, tail, sep);
    assert fields == [""] + fields[1..];
  }

  lemma JoinLongHead(fields: seq<string>, sep: char)
    requires 2 <= |fields| && 1 <= |fields[0]| && fields[0][0] != sep
    requires Split(Join([fields[0][1..]] + fields[1..], sep), sep) == [fields[0][1..]] + fields[1..]
    ensures Split(Join(fields, sep), sep) == fields
  {
    var f := fields[0];
    var shorter := [f[1..]] + fields[1..];
    var tail := Join(fields[1..], sep);
    assert shorter[1..] == fields[1..];
    assert Join(shorter, sep) == f[1..] + [sep] + tail;
    assert Join(fields, sep) == f + [sep] + tail;
    assert f + [sep] + tail == [f[0]] + (f[1..] + [sep] + tail);
    SplitCons(f[0], Join(shorter, sep), sep);
    assert [f[0]] + f[1..] == f;
    assert fields == [f] + shorter[1..];
  }

  /** A separator-free string splits into itself alone. */
  lemma {:induction false} SplitFree(s: string, sep: char)
    requires sep !in s
    ensures Split(s, sep) == [s]
    decreases |s|
  {
    if |s| > 0 {
      assert sep !in s[1..] by {
        assert forall c :: c in s[1..] ==> c in s;
      }
      SplitFree(s[1..], sep);
      assert s == [s[0]] + s[1..];
    }
  }

  /** Python's `s.endswith(suffix)`. */
  predicate EndsWith(s: string, suffix: string)
  {
    |suffix| <= |s| && s[|s| - |suffix|..] == suffix
  }
}
