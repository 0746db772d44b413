/** The string and list primitives the script relies on: list.index, str.split
    and line-by-line reading of a text file, plus `Join`, the helper in which
    the split round trip is stated. */
module Text {
  import opened Wrappers

  /** Number of occurrences of `x` in `xs`. */
  function Count<T(==)>(xs: seq<T>, x: T): nat
  {
    if |xs| == 0 then 0 else (if xs[0] == x then 1 else 0) + Count(xs[1..], x)
  }

  lemma {:induction false} CountConcat<T>(a: seq<T>, b: seq<T>, x: T)
    ensures Count(a + b, x) == Count(a, x) + Count(b, x)
  {
    if |a| == 0 {
      assert a + b == b;
    } else {
      assert (a + b)[1..] == a[1..] + b;
      CountConcat(a[1..], b, x);
    }
  }

  lemma {:induction false} CountAbsent<T>(xs: seq<T>, x: T)
    ensures Count(xs, x) == 0 <==> x !in xs
  {
    if |xs| > 0 {
      CountAbsent(xs[1..], x);
      assert xs == [xs[0]] + xs[1..];
    }
  }

  /** The first position of `x` in `xs`, as Python's `list.index`, or None where
      Python raises ValueError. */
  function IndexOf<T(==)>(xs: seq<T>, x: T): (r: Option<nat>)
    ensures r.Some? ==> r.value < |xs| && xs[r.value] == x && x !in xs[..r.value]
    ensures r.None? <==> x !in xs
  {
    if |xs| == 0 then None
    else if xs[0] == x then Some(0)
    else match IndexOf(xs[1..], x)
      case None => None
      case Some(i) =>
        assert xs[..i + 1] == [xs[0]] + xs[1..][..i];
        Some(i + 1)
  }

  /** `sep.join(fields)`. */
  function Join(fields: seq<string>, sep: string): string
  {
    if |fields| == 0 then ""
    else if |fields| == 1 then fields[0]
    else fields[0] + sep + Join(fields[1..], sep)
  }

  /** `s.split(sep)` for a one-character separator: the pieces between the
      separators, at least one, none of them holding the separator, and they
      join back into `s`. */
  function Split(s: string, sep: char): (fields: seq<string>)
    ensures |fields| >= 1
    ensures forall k :: 0 <= k < |fields| ==> sep !in fields[k]
    ensures Join(fields, [sep]) == s
    decreases |s|
  {
    match IndexOf(s, sep)
    case None => [s]
    case Some(i) =>
      var rest := Split(s[i + 1..], sep);
      assert s == s[..i] + [sep] + s[i + 1..];
      [s[..i]] + rest
  }

  /** A header line splits into one more field than it has separators. */
  lemma {:induction false} SplitLength(s: string, sep: char)
    ensures |Split(s, sep)| == Count(s, sep) + 1
    decreases |s|
  {
    match IndexOf(s, sep)
    case None =>
      CountAbsent(s, sep);
    case Some(i) =>
      SplitLength(s[i + 1..], sep);
      assert s == s[..i] + ([sep] + s[i + 1..]);
      CountConcat(s[..i], [sep] + s[i + 1..], sep);
      CountConcat([sep], s[i + 1..], sep);
      CountAbsent(s[..i], sep);
  }

  /** The other half of the round trip: fields without the separator are
      recovered exactly by splitting their join. */
  lemma {:induction false} SplitJoin(fields: seq<string>, sep: char)
    requires |fields| >= 1
    requires forall k :: 0 <= k < |fields| ==> sep !in fields[k]
    ensures Split(Join(fields, [sep]), sep) == fields
  {
    var s := Join(fields, [sep]);
    if |fields| == 1 {
      assert IndexOf(s, sep).None?;
    } else {
      var tail := Join(fields[1..], [sep]);
      assert s == fields[0] + [sep] + tail;
      var i := |fields[0]|;
      assert s[i] == sep;
      assert s[..i] == fields[0];
      var j := IndexOf(s, sep);
      assert j == Some(i);
      assert s[i + 1..] == tail;
      SplitJoin(fields[1..], sep);
    }
  }

  /** One call of `f.readline()`: the text up to and including the first line
      feed, or all of it when there is none; at the end of the file it gives
      the empty string. */
  function ReadLine(s: string): (r: (string, string))
    ensures r.0 + r.1 == s
    ensures r.0 == "" <==> s == ""
    ensures r.0 != "" ==> '\n' !in r.0[..|r.0| - 1]
    ensures r.1 != "" ==> r.0 != "" && r.0[|r.0| - 1] == '\n'
  {
    match IndexOf(s, '\n')
    case None => (s, "")
    case Some(i) =>
      assert s[..i + 1][..i] == s[..i];
      assert s[..i + 1] + s[i + 1..] == s;
      (s[..i + 1], s[i + 1..])
  }

  /** The lines successive `readline` calls return before the end of the file. */
  function SplitLines(s: string): (lines: seq<string>)
    ensures lines == [] <==> s == ""
    decreases |s|
  {
    if s == "" then [] else [ReadLine(s).0] + SplitLines(ReadLine(s).1)
  }

  /** Reading on from a text whose lines are `lines[i..]` gives line `i` and
      leaves `lines[i + 1..]`; at the end of the text it gives the empty string. */
  lemma ReadLineNext(rest: string, lines: seq<string>, i: nat)
    requires i <= |lines| && SplitLines(rest) == lines[i..]
    ensures i < |lines| ==> ReadLine(rest).0 == lines[i] && SplitLines(ReadLine(rest).1) == lines[i + 1..]
    ensures i == |lines| ==> ReadLine(rest) == ("", "")
  {
    if i < |lines| {
      var t := SplitLines(rest);
      assert rest != "";
      assert t == [ReadLine(rest).0] + SplitLines(ReadLine(rest).1);
      assert t[0] == lines[i];
      assert t[1..] == lines[i + 1..];
    } else {
      assert rest == "";
    }
  }

  /** Concatenation of a list of strings. */
  function Concat(parts: seq<string>): string
  {
    if |parts| == 0 then "" else parts[0] + Concat(parts[1..])
  }

  /** A line as `readline` returns it: non-empty, with no line feed before its
      last character. */
  predicate IsLine(line: string)
  {
    line != "" && '\n' !in line[..|line| - 1]
  }

  /** The line ends in a line feed. */
  predicate IsTerminated(line: string)
  {
    line != "" && line[|line| - 1] == '\n'
  }

  /** The image of each element under `f`, in order. */
  function MapSeq<T>(f: T --> string, xs: seq<T>): (ys: seq<string>)
    requires forall k :: 0 <= k < |xs| ==> f.requires(xs[k])
    ensures |ys| == |xs|
  {
    if |xs| == 0 then [] else [f(xs[0])] + MapSeq(f, xs[1..])
  }

  lemma {:induction false} MapSeqAt<T>(f: T --> string, xs: seq<T>, k: nat)
    requires forall k :: 0 <= k < |xs| ==> f.requires(xs[k])
    requires k < |xs|
    ensures MapSeq(f, xs)[k] == f(xs[k])
  {
    if k > 0 {
      MapSeqAt(f, xs[1..], k - 1);
    }
  }

  lemma DefinedAppend<T>(f: T --> string, xs: seq<T>, ys: seq<T>)
    requires forall k :: 0 <= k < |xs| ==> f.requires(xs[k])
    requires forall k :: 0 <= k < |ys| ==> f.requires(ys[k])
    ensures forall k :: 0 <= k < |xs + ys| ==> f.requires((xs + ys)[k])
  {
    forall k | 0 <= k < |xs + ys|
      ensures f.requires((xs + ys)[k])
    {
      if k >= |xs| {
        assert (xs + ys)[k] == ys[k - |xs|];
      }
    }
  }

  lemma {:induction false} MapSeqAppend<T>(f: T --> string, xs: seq<T>, ys: seq<T>)
    requires forall k :: 0 <= k < |xs| ==> f.requires(xs[k])
    requires forall k :: 0 <= k < |ys| ==> f.requires(ys[k])
    ensures forall k :: 0 <= k < |xs + ys| ==> f.requires((xs + ys)[k])
    ensures MapSeq(f, xs + ys) == MapSeq(f, xs) + MapSeq(f, ys)
  {
    DefinedAppend(f, xs, ys);
    if |xs| == 0 {
      assert xs + ys == ys;
    } else {
      var rest := xs[1..];
      MapSeqAppend(f, rest, ys);
      assert (xs + ys)[1..] == rest + ys;
      calc {
        MapSeq(f, xs + ys);
        [f(xs[0])] + MapSeq(f, rest + ys);
        [f(xs[0])] + (MapSeq(f, rest) + MapSeq(f, ys));
        ([f(xs[0])] + MapSeq(f, rest)) + MapSeq(f, ys);
      }
    }
  }

  lemma {:induction false} ConcatAppend(xs: seq<string>, ys: seq<string>)
    ensures Concat(xs + ys) == Concat(xs) + Concat(ys)
  {
    if |xs| == 0 {
      assert xs + ys == ys;
    } else {
      assert (xs + ys)[1..] == xs[1..] + ys;
      ConcatAppend(xs[1..], ys);
    }
  }

  /** The lines of a text rebuild it. */
  lemma {:induction false} SplitLinesConcat(s: string)
    ensures Concat(SplitLines(s)) == s
    decreases |s|
  {
    if s != "" {
      SplitLinesConcat(ReadLine(s).1);
      assert SplitLines(s)[1..] == SplitLines(ReadLine(s).1);
    }
  }

  /** Each line of a text is a line in the sense of `readline`, and every line
      but the last ends in a line feed. */
  lemma {:induction false} SplitLinesShape(s: string)
    ensures forall k :: 0 <= k < |SplitLines(s)| ==> IsLine(SplitLines(s)[k])
    ensures forall k :: 0 <= k < |SplitLines(s)| - 1 ==> IsTerminated(SplitLines(s)[k])
    decreases |s|
  {
    if s != "" {
      var rest := ReadLine(s).1;
      SplitLinesShape(rest);
      var lines := SplitLines(s);
      var tail := SplitLines(rest);
      assert lines == [ReadLine(s).0] + tail;
      assert IsLine(lines[0]);
      assert |lines| > 1 ==> IsTerminated(lines[0]);
      forall k | 0 < k < |lines|
        ensures IsLine(lines[k]) && (k < |lines| - 1 ==> IsTerminated(lines[k]))
      {
        assert lines[k] == tail[k - 1];
      }
    }
  }
}
