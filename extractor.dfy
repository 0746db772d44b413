/** The script itself: it reads the header of the first statement, keeps the
    records that name one participant, selects five columns and renders one
    report line per kept record under a banner, the rendered header and a rule. */
module Extractor {
  import opened Wrappers
  import opened Text
  import opened IsoDate

  /** One statement file: its text as read in text mode, and the records the
      CSV reader yields for it. */
  datatype StatementFile = StatementFile(text: string, records: seq<seq<string>>)

  /** The ways a run ends without a report being written. */
  datatype RunError =
    | NoInputFiles            // no statement file matched; the script exits
    | FieldMissing(field: string) // `fieldnames.index` raised ValueError
    | NoColumns             // `cc[0]` raised IndexError on an empty selection
    | RowTooShort(row: nat)   // `l[c]` raised IndexError on this kept record

  const ParticipantName: string := "Amanda Ruiz"

  const OutputFields: seq<string> := ["Datetime", "From", "To", "Amount (total)", "Note"]

  const Banner: string :=
    "VENMO TRANSACTIONS BETWEEN @PETER-GRACE-16 AND @AMANDA-RUIZ-139\n"
    + "FROM FEBRUARY 2023 TO NOVEMBER 2024\n"
    + "\n"
    + "(The source code and data of the following report can be found here:\n"
    + "https://github.com/petergrace1618/venmo-data-extractor.git)\n"
    + "\n"

  /** `'-' * 64 + '\n'`. */
  const Rule: string := Repeat('-', 64) + "\n"

  /** `c * n` for a one-character string `c`. */
  function Repeat(c: char, n: nat): string
  {
    if n == 0 then "" else [c] + Repeat(c, n - 1)
  }

  lemma {:induction false} RepeatShape(c: char, n: nat)
    ensures |Repeat(c, n)| == n && forall k :: 0 <= k < n ==> Repeat(c, n)[k] == c
  {
    if n > 0 {
      RepeatShape(c, n - 1);
    }
  }

  // ---------------------------------------------------------------------------
  // Header acquisition

  /** The value `header` holds after three `readline` calls: the third line,
      or the empty string when the text has fewer than three lines. */
  function ThirdLine(text: string): string
  {
    var lines := SplitLines(text);
    if |lines| >= 3 then lines[2] else ""
  }

  /** `get_fieldnames`: read three lines and split the last one on commas. */
  method GetFieldnames(text: string) returns (fieldnames: seq<string>)
    ensures fieldnames == Split(ThirdLine(text), ',')
    ensures Join(fieldnames, ",") == ThirdLine(text)
    ensures |fieldnames| == Count(ThirdLine(text), ',') + 1
    ensures forall k :: 0 <= k < |fieldnames| ==> ',' !in fieldnames[k]
  {
    ghost var lines := SplitLines(text);
    ghost var n := |lines|;
    var rest := text;
    var header := "";
    for i := 0 to 3
      invariant i <= n ==> SplitLines(rest) == lines[i..]
      invariant i > n ==> rest == ""
      invariant header == if 0 < i <= n then lines[i - 1] else ""
    {
      if i <= n {
        ReadLineNext(rest, lines, i);
      }
      header, rest := ReadLine(rest).0, ReadLine(rest).1;
    }
    fieldnames := Split(header, ',');
    SplitLength(header, ',');
  }

  // ---------------------------------------------------------------------------
  // Column selection

  /** The first index of every wanted name, in order, as
      `[fieldnames.index(field) for field in output_fields]`; the error names
      the first wanted name that is not a field name. */
  function Columns(fieldnames: seq<string>, wanted: seq<string>): (r: Result<seq<nat>, string>)
    ensures r.Success? <==> forall k :: 0 <= k < |wanted| ==> wanted[k] in fieldnames
    ensures r.Success? ==>
              && |r.value| == |wanted|
              && forall k :: 0 <= k < |wanted| ==>
                   && r.value[k] < |fieldnames|
                   && fieldnames[r.value[k]] == wanted[k]
                   && wanted[k] !in fieldnames[..r.value[k]]
    ensures r.Failure? ==>
              exists k :: 0 <= k < |wanted| && wanted[k] == r.error && wanted[k] !in fieldnames
                          && forall j :: 0 <= j < k ==> wanted[j] in fieldnames
  {
    if |wanted| == 0 then Success([])
    else match IndexOf(fieldnames, wanted[0])
      case None => Failure(wanted[0])
      case Some(i) =>
        match Columns(fieldnames, wanted[1..])
        case Failure(f) =>
          assert forall k :: 0 < k < |wanted| ==> wanted[k] == wanted[1..][k - 1];
          Failure(f)
        case Success(cols) =>
          assert forall k :: 0 < k < |wanted| ==> wanted[k] == wanted[1..][k - 1];
          Success([i] + cols)
  }

  // ---------------------------------------------------------------------------
  // Record filtering

  /** The records, in order, that have a field equal to `name` (`name in line`). */
  function Matching(rows: seq<seq<string>>, name: string): seq<seq<string>>
  {
    if |rows| == 0 then []
    else (if name in rows[0] then [rows[0]] else []) + Matching(rows[1..], name)
  }

  /** All records of all files, file after file. */
  function Records(files: seq<StatementFile>): seq<seq<string>>
  {
    if |files| == 0 then [] else Records(files[..|files| - 1]) + files[|files| - 1].records
  }

  /** The loop that builds `lines`: the field names, then every matching record
      of every file in file order and record order. */
  method CollectLines(fieldnames: seq<string>, files: seq<StatementFile>, name: string)
    returns (lines: seq<seq<string>>)
    ensures lines == [fieldnames] + Matching(Records(files), name)
  {
    lines := [fieldnames];
    for i := 0 to |files|
      invariant lines == [fieldnames] + Matching(Records(files[..i]), name)
    {
      lines := CollectFromFile(lines, files[i].records, name);
      assert files[..i + 1][..i] == files[..i];
      MatchingConcat(Records(files[..i]), files[i].records, name);
    }
    assert files[..|files|] == files;
  }

  /** `for line in csv_reader: if name in line: lines.append(line)` for one file. */
  method CollectFromFile(lines: seq<seq<string>>, records: seq<seq<string>>, name: string)
    returns (extended: seq<seq<string>>)
    ensures extended == lines + Matching(records, name)
  {
    extended := lines;
    assert Matching(records[..0], name) == [];
    for j := 0 to |records|
      invariant extended == lines + Matching(records[..j], name)
    {
      assert records[..j + 1] == records[..j] + [records[j]];
      MatchingConcat(records[..j], [records[j]], name);
      if name in records[j] {
        extended := extended + [records[j]];
      }
    }
    assert records[..|records|] == records;
  }

  /** Filtering the records of consecutive files is filtering each in turn. */
  lemma {:induction false} MatchingConcat(a: seq<seq<string>>, b: seq<seq<string>>, name: string)
    ensures Matching(a + b, name) == Matching(a, name) + Matching(b, name)
  {
    if |a| == 0 {
      assert a + b == b;
    } else {
      assert (a + b)[1..] == a[1..] + b;
      MatchingConcat(a[1..], b, name);
    }
  }

  /** Every record naming the participant is kept as often as it occurs, and
      no other record is: nothing is duplicated, dropped or invented. */
  lemma {:induction false} MatchingMultiset(rows: seq<seq<string>>, name: string, row: seq<string>)
    ensures multiset(Matching(rows, name))[row] == if name in row then multiset(rows)[row] else 0
  {
    if |rows| > 0 {
      MatchingMultiset(rows[1..], name, row);
      assert rows == [rows[0]] + rows[1..];
    }
  }

  /** `xs` occurs in `ys` in order, possibly with gaps. */
  predicate IsSubsequence<T(==)>(xs: seq<T>, ys: seq<T>)
    decreases |ys|
  {
    if |xs| == 0 then true
    else if |ys| == 0 then false
    else if xs[0] == ys[0] then IsSubsequence(xs[1..], ys[1..])
    else IsSubsequence(xs, ys[1..])
  }

  /** A subsequence stays one when an element is put in front of the sequence. */
  lemma {:induction false} SubsequenceCons<T>(x: T, xs: seq<T>, ys: seq<T>)
    requires IsSubsequence(xs, ys)
    ensures IsSubsequence(xs, [x] + ys)
    decreases |ys|, 1
  {
    assert ([x] + ys)[1..] == ys;
    if |xs| > 0 && xs[0] == x {
      SubsequenceDropHead(xs, ys);
    }
  }

  /** A subsequence stays one when its first element is removed. */
  lemma {:induction false} SubsequenceDropHead<T>(xs: seq<T>, ys: seq<T>)
    requires |xs| > 0 && IsSubsequence(xs, ys)
    ensures IsSubsequence(xs[1..], ys)
    decreases |ys|, 0
  {
    assert ys == [ys[0]] + ys[1..];
    if xs[0] == ys[0] {
      SubsequenceCons(ys[0], xs[1..], ys[1..]);
    } else {
      SubsequenceDropHead(xs, ys[1..]);
      SubsequenceCons(ys[0], xs[1..], ys[1..]);
    }
  }

  /** The kept records appear in the order of the input. */
  lemma {:induction false} MatchingInOrder(rows: seq<seq<string>>, name: string)
    ensures IsSubsequence(Matching(rows, name), rows)
  {
    if |rows| > 0 {
      MatchingInOrder(rows[1..], name);
      var rest := Matching(rows[1..], name);
      if name in rows[0] {
        assert Matching(rows, name) == [rows[0]] + rest;
        assert Matching(rows, name)[1..] == rest;
      } else {
        assert Matching(rows, name) == rest;
        SubsequenceCons(rows[0], rest, rows[1..]);
        assert [rows[0]] + rows[1..] == rows;
      }
    }
  }

  // ---------------------------------------------------------------------------
  // Line rendering

  /** Every selected column exists in the record. */
  predicate Fits(l: seq<string>, cc: seq<nat>)
  {
    forall k :: 0 <= k < |cc| ==> cc[k] < |l|
  }

  predicate AllFit(rows: seq<seq<string>>, cc: seq<nat>)
  {
    forall k :: 0 <= k < |rows| ==> Fits(rows[k], cc)
  }

  /** The fields of the selected columns, in selection order. */
  function Project(l: seq<string>, cc: seq<nat>): (fields: seq<string>)
    requires Fits(l, cc)
    ensures |fields| == |cc| && forall k :: 0 <= k < |cc| ==> fields[k] == l[cc[k]]
  {
    if |cc| == 0 then [] else [l[cc[0]]] + Project(l, cc[1..])
  }

  /** The first selected field as the report shows it: a date that parses is
      rendered as `Mon DD YYYY`, anything else (the header's `Datetime`) is
      kept as it is. */
  function RenderFirst(field: string): string
  {
    match ParseIso(field)
    case Some(d) => Format(d)
    case None => field
  }

  /** What `for c in cs: os += f', {l[c]}'` appends. */
  function Tail(l: seq<string>, cs: seq<nat>): string
    requires Fits(l, cs)
  {
    if |cs| == 0 then "" else ", " + l[cs[0]] + Tail(l, cs[1..])
  }

  /** The line `format_line(l, cc)` returns. */
  function Line(l: seq<string>, cc: seq<nat>): string
    requires |cc| > 0 && Fits(l, cc)
  {
    RenderFirst(l[cc[0]]) + Tail(l, cc[1..]) + "\n"
  }

  /** `format_line`: the rendered first field, then `, ` and each further
      selected field, then a line feed. */
  method FormatLine(l: seq<string>, cc: seq<nat>) returns (os: string)
    requires |cc| > 0 && Fits(l, cc)
    ensures os == Line(l, cc)
  {
    os := RenderFirst(l[cc[0]]);
    ghost var first := os;
    var rest := cc[1..];
    assert Fits(l, rest[..0]);
    for j := 0 to |rest|
      invariant Fits(l, rest[..j])
      invariant os == first + Tail(l, rest[..j])
    {
      assert rest[..j + 1] == rest[..j] + [rest[j]];
      TailSnoc(l, rest[..j], rest[j]);
      os := os + ", " + l[rest[j]];
    }
    assert rest[..|rest|] == rest;
    os := os + "\n";
  }

  lemma {:induction false} TailSnoc(l: seq<string>, cs: seq<nat>, c: nat)
    requires Fits(l, cs) && c < |l|
    ensures Fits(l, cs + [c]) && Tail(l, cs + [c]) == Tail(l, cs) + ", " + l[c]
  {
    assert forall k :: 0 <= k < |cs| + 1 ==> (cs + [c])[k] == if k < |cs| then cs[k] else c;
    if |cs| > 0 {
      assert (cs + [c])[1..] == cs[1..] + [c];
      TailSnoc(l, cs[1..], c);
    }
  }

  /** The appended part is the selected fields joined by `, `. */
  lemma {:induction false} TailAsJoin(l: seq<string>, head: string, cs: seq<nat>)
    requires Fits(l, cs)
    ensures head + Tail(l, cs) == Join([head] + Project(l, cs), ", ")
    decreases |cs|
  {
    if |cs| > 0 {
      var x := l[cs[0]];
      TailAsJoin(l, x, cs[1..]);
      var fields := [head] + Project(l, cs);
      assert Project(l, cs) == [x] + Project(l, cs[1..]);
      assert fields[1..] == [x] + Project(l, cs[1..]);
      assert Join(fields, ", ") == head + ", " + Join(fields[1..], ", ");
      assert Tail(l, cs) == ", " + x + Tail(l, cs[1..]);
    }
  }

  /** The rendered line is the rendered first field followed by the other
      selected fields, unaltered and in selection order, all joined by `, `,
      and then one line feed. */
  lemma LineAsJoin(l: seq<string>, cc: seq<nat>)
    requires |cc| > 0 && Fits(l, cc)
    ensures Line(l, cc) == Join([RenderFirst(l[cc[0]])] + Project(l, cc)[1..], ", ") + "\n"
  {
    TailAsJoin(l, RenderFirst(l[cc[0]]), cc[1..]);
    assert Project(l, cc)[1..] == Project(l, cc[1..]);
  }

  /** A first field that is not a date (the header row's `Datetime`) is
      emitted verbatim: the line is exactly the selected fields joined by `, `. */
  lemma LineVerbatim(l: seq<string>, cc: seq<nat>)
    requires |cc| > 0 && Fits(l, cc)
    requires ParseIso(l[cc[0]]).None?
    ensures Line(l, cc) == Join(Project(l, cc), ", ") + "\n"
  {
    LineAsJoin(l, cc);
    assert [l[cc[0]]] + Project(l, cc)[1..] == Project(l, cc);
  }

  /** A first field holding a date with a four-digit year becomes eleven
      characters: month abbreviation, day and year taken from the field, the
      time dropped; the rest of the line follows it. */
  lemma LineDate(l: seq<string>, cc: seq<nat>)
    requires |cc| > 0 && Fits(l, cc)
    requires ParseIso(l[cc[0]]).Some? && ParseIso(l[cc[0]]).value.year >= 1000
    ensures |Line(l, cc)| > 11
    ensures var s := l[cc[0]];
            Line(l, cc)[..11] == MonthAbbrev(DecimalValue(s[5..7])) + " " + s[8..10] + " " + s[..4]
    ensures Line(l, cc)[11..] == Tail(l, cc[1..]) + "\n"
  {
    var s := l[cc[0]];
    var d := ParseIso(s).value;
    FormatCopiesDigits(s);
    FormatShape(d);
    var f := Format(d);
    assert RenderFirst(s) == f;
    assert Line(l, cc) == f + (Tail(l, cc[1..]) + "\n");
  }

  lemma FormatHasNoLineFeed(d: Date)
    requires ValidDate(d)
    ensures Count(Format(d), '\n') == 0
  {
    NatToStringValue(d.year);
    FormatShape(d);
    var f := Format(d);
    assert forall k :: 0 <= k < |f| ==> f[k] != '\n' by {
      forall k | 0 <= k < |f| ensures f[k] != '\n' {
        if k >= 7 {
          assert f[k] == f[7..][k - 7];
        } else if 4 <= k < 6 {
          assert f[k] == f[4..6][k - 4];
        } else if k < 3 {
          assert f[k] == f[..3][k];
        }
      }
    }
    CountAbsent(f, '\n');
  }

  lemma {:induction false} TailNoLineFeed(l: seq<string>, cs: seq<nat>)
    requires Fits(l, cs)
    requires forall k :: 0 <= k < |cs| ==> '\n' !in l[cs[k]]
    ensures Count(Tail(l, cs), '\n') == 0
  {
    if |cs| > 0 {
      TailNoLineFeed(l, cs[1..]);
      CountAbsent(l[cs[0]], '\n');
      CountConcat(", ", l[cs[0]], '\n');
      CountConcat(", " + l[cs[0]], Tail(l, cs[1..]), '\n');
    }
  }

  /** When no selected field holds a line feed, the rendered line holds
      exactly one, the one appended at its end. */
  lemma LineSingleLineFeed(l: seq<string>, cc: seq<nat>)
    requires |cc| > 0 && Fits(l, cc)
    requires forall k :: 0 <= k < |cc| ==> '\n' !in l[cc[k]]
    ensures Count(Line(l, cc), '\n') == 1
    ensures Line(l, cc)[|Line(l, cc)| - 1] == '\n'
  {
    var first := RenderFirst(l[cc[0]]);
    match ParseIso(l[cc[0]]) {
      case Some(d) => FormatHasNoLineFeed(d);
      case None => CountAbsent(l[cc[0]], '\n');
    }
    TailNoLineFeed(l, cc[1..]);
    CountConcat(first, Tail(l, cc[1..]), '\n');
    CountConcat(first + Tail(l, cc[1..]), "\n", '\n');
  }

  // ---------------------------------------------------------------------------
  // Report assembly

  /** `format_line` as a function value over the records that fit `cc`. */
  function Renderer(cc: seq<nat>): seq<string> --> string
    requires |cc| > 0
  {
    l requires Fits(l, cc) => Line(l, cc)
  }

  /** The rendered kept records, one line each, in order. */
  function Body(rows: seq<seq<string>>, cc: seq<nat>): string
    requires |cc| > 0 && AllFit(rows, cc)
  {
    Concat(MapSeq(Renderer(cc), rows))
  }

  /** Rendering consecutive runs of records is rendering each in turn. */
  lemma BodyConcat(a: seq<seq<string>>, b: seq<seq<string>>, cc: seq<nat>)
    requires |cc| > 0 && AllFit(a, cc) && AllFit(b, cc)
    ensures AllFit(a + b, cc) && Body(a + b, cc) == Body(a, cc) + Body(b, cc)
  {
    AllFitConcat(a, b, cc);
    MapSeqAppend(Renderer(cc), a, b);
    ConcatAppend(MapSeq(Renderer(cc), a), MapSeq(Renderer(cc), b));
  }

  lemma AllFitConcat(a: seq<seq<string>>, b: seq<seq<string>>, cc: seq<nat>)
    requires AllFit(a, cc) && AllFit(b, cc)
    ensures AllFit(a + b, cc)
  {
    forall k | 0 <= k < |a + b|
      ensures Fits((a + b)[k], cc)
    {
      if k < |a| {
        assert (a + b)[k] == a[k];
      } else {
        assert (a + b)[k] == b[k - |a|];
      }
    }
  }

  lemma AllFitPrefix(rows: seq<seq<string>>, cc: seq<nat>, i: nat)
    requires AllFit(rows, cc) && i <= |rows|
    ensures AllFit(rows[..i], cc)
  {
    forall k | 0 <= k < i
      ensures Fits(rows[..i][k], cc)
    {
      assert rows[..i][k] == rows[k];
    }
  }

  lemma {:induction false} ConcatLineCount(lines: seq<string>)
    requires forall k :: 0 <= k < |lines| ==> Count(lines[k], '\n') == 1
    ensures Count(Concat(lines), '\n') == |lines|
  {
    if |lines| > 0 {
      assert forall k :: 0 <= k < |lines| - 1 ==> lines[1..][k] == lines[k + 1];
      ConcatLineCount(lines[1..]);
      CountConcat(lines[0], Concat(lines[1..]), '\n');
    }
  }

  /** When no selected field holds a line feed, the body has exactly one line
      per record. */
  lemma BodyLineCount(rows: seq<seq<string>>, cc: seq<nat>)
    requires |cc| > 0 && AllFit(rows, cc)
    requires forall i, k :: 0 <= i < |rows| && 0 <= k < |cc| ==> '\n' !in rows[i][cc[k]]
    ensures Count(Body(rows, cc), '\n') == |rows|
  {
    var lines := MapSeq(Renderer(cc), rows);
    forall i | 0 <= i < |rows|
      ensures Count(lines[i], '\n') == 1
    {
      MapSeqAt(Renderer(cc), rows, i);
      LineSingleLineFeed(rows[i], cc);
    }
    ConcatLineCount(lines);
  }

  /** The main block's assembly of `summary`: the banner, the rendered header,
      the rule, then one rendered line per kept record. */
  method BuildSummary(lines: seq<seq<string>>, cc: seq<nat>) returns (summary: string)
    requires |lines| > 0 && |cc| > 0 && AllFit(lines, cc)
    ensures summary == Banner + Line(lines[0], cc) + Rule + Body(lines[1..], cc)
  {
    var header := FormatLine(lines[0], cc);
    var rows := lines[1..];
    assert AllFit(rows, cc) by {
      assert forall k :: 0 <= k < |rows| ==> rows[k] == lines[k + 1];
    }
    summary := Banner + header + Rule;
    summary := AppendLines(summary, rows, cc);
  }

  /** `for line in lines[1:]: summary += format_line(line, columns)`. */
  method AppendLines(prefix: string, rows: seq<seq<string>>, cc: seq<nat>) returns (summary: string)
    requires |cc| > 0 && AllFit(rows, cc)
    ensures summary == prefix + Body(rows, cc)
  {
    summary := prefix;
    assert rows[..0] == [];
    assert MapSeq(Renderer(cc), rows[..0]) == [];
    for i := 0 to |rows|
      invariant AllFit(rows[..i], cc)
      invariant summary == prefix + Body(rows[..i], cc)
    {
      BodyStep(rows, cc, i);
      var line := FormatLine(rows[i], cc);
      summary := summary + line;
    }
    assert rows[..|rows|] == rows;
  }

  lemma BodyStep(rows: seq<seq<string>>, cc: seq<nat>, i: nat)
    requires |cc| > 0 && AllFit(rows, cc) && i < |rows|
    ensures AllFit(rows[..i], cc) && AllFit(rows[..i + 1], cc)
    ensures Body(rows[..i + 1], cc) == Body(rows[..i], cc) + Line(rows[i], cc)
  {
    AllFitPrefix(rows, cc, i);
    AllFitPrefix(rows, cc, i + 1);
    assert rows[..i + 1] == rows[..i] + [rows[i]];
    BodyConcat(rows[..i], [rows[i]], cc);
    assert MapSeq(Renderer(cc), [rows[i]]) == [Line(rows[i], cc)];
    assert Concat([Line(rows[i], cc)]) == Line(rows[i], cc) + Concat([]);
  }

  /** The rule is 64 dashes and a line feed. */
  lemma RuleShape()
    ensures |Rule| == 65 && Rule[64] == '\n'
    ensures forall k :: 0 <= k < 64 ==> Rule[k] == '-'
  {
    RepeatShape('-', 64);
  }

  // ---------------------------------------------------------------------------
  // The whole run

  /** The first kept record that lacks a selected column, where `l[c]` raises
      IndexError. */
  function FirstUnfit(rows: seq<seq<string>>, cc: seq<nat>): (r: Option<nat>)
    ensures r.None? <==> AllFit(rows, cc)
    ensures r.Some? ==> r.value < |rows| && !Fits(rows[r.value], cc)
                        && forall j :: 0 <= j < r.value ==> Fits(rows[j], cc)
  {
    if |rows| == 0 then None
    else if !Fits(rows[0], cc) then Some(0)
    else
      assert forall k :: 0 < k < |rows| ==> rows[k] == rows[1..][k - 1];
      if FirstUnfit(rows[1..], cc).None? then None
      else Some(FirstUnfit(rows[1..], cc).value + 1)
  }

  /** What a run of the script produces from its statement files: the report
      text, or the reason it stops before writing one. */
  function Report(files: seq<StatementFile>, name: string, wanted: seq<string>): Result<string, RunError>
  {
    if |files| == 0 then Failure(NoInputFiles)
    else if Columns(Split(ThirdLine(files[0].text), ','), wanted).Failure? then
      Failure(FieldMissing(Columns(Split(ThirdLine(files[0].text), ','), wanted).error))
    else
      Render(Split(ThirdLine(files[0].text), ','), Matching(Records(files), name),
             Columns(Split(ThirdLine(files[0].text), ','), wanted).value)
  }

  /** The report from the field names, the kept records and the selected
      columns, which all exist in the field names. */
  function Render(fieldnames: seq<string>, kept: seq<seq<string>>, cc: seq<nat>): Result<string, RunError>
    requires Fits(fieldnames, cc)
  {
    if |cc| == 0 then Failure(NoColumns)
    else if FirstUnfit(kept, cc).Some? then Failure(RowTooShort(FirstUnfit(kept, cc).value))
    else Success(Banner + Line(fieldnames, cc) + Rule + Body(kept, cc))
  }

  /** The main block, from the field names to the finished report. */
  method Run(files: seq<StatementFile>, name: string, wanted: seq<string>)
    returns (r: Result<string, RunError>)
    ensures r == Report(files, name, wanted)
  {
    if |files| == 0 {
      return Failure(NoInputFiles);
    }
    var fieldnames := GetFieldnames(files[0].text);
    var lines := CollectLines(fieldnames, files, name);
    match Columns(fieldnames, wanted) {
      case Failure(f) =>
        r := Failure(FieldMissing(f));
      case Success(cc) =>
        if |cc| == 0 {
          r := Failure(NoColumns);
        } else {
          match FirstUnfit(lines[1..], cc) {
            case Some(k) =>
              r := Failure(RowTooShort(k));
            case None =>
              assert AllFit(lines, cc) by {
                assert forall k :: 0 < k < |lines| ==> lines[k] == lines[1..][k - 1];
              }
              var summary := BuildSummary(lines, cc);
              r := Success(summary);
          }
        }
    }
  }

  /** A report is written exactly when there are statement files, every
      wanted name is a field name, at least one column is wanted and every kept
      record has all selected columns. */
  lemma ReportOutcome(files: seq<StatementFile>, name: string, wanted: seq<string>)
    ensures Report(files, name, wanted).Success? <==>
              && |files| > 0
              && |wanted| > 0
              && (forall k :: 0 <= k < |wanted| ==> wanted[k] in Split(ThirdLine(files[0].text), ','))
              && AllFit(Matching(Records(files), name), Columns(Split(ThirdLine(files[0].text), ','), wanted).value)
  {
  }

  /** The header line of the script's own run: the five wanted names joined by
      `, `, which the date parser leaves verbatim. The nesting follows `Join`'s
      recursion so that `JoinOutputFields` can unfold it. */
  const HeaderLine: string :=
    "Datetime" + ", " + ("From" + ", " + ("To" + ", " + ("Amount (total)" + ", " + "Note"))) + "\n"

  lemma JoinOutputFields()
    ensures Join(OutputFields, ", ") + "\n" == HeaderLine
  {
    var f4: seq<string> := ["Note"];
    var f3: seq<string> := ["Amount (total)"] + f4;
    var f2: seq<string> := ["To"] + f3;
    var f1: seq<string> := ["From"] + f2;
    assert f3[1..] == f4 && f2[1..] == f3 && f1[1..] == f2;
    assert Join(f4, ", ") == "Note";
    assert Join(f3, ", ") == "Amount (total)" + ", " + "Note";
    assert Join(f2, ", ") == "To" + ", " + ("Amount (total)" + ", " + "Note");
    assert Join(f1, ", ") == "From" + ", " + ("To" + ", " + ("Amount (total)" + ", " + "Note"));
    assert OutputFields == ["Datetime"] + f1;
    assert OutputFields[1..] == f1;
  }

  /** Rows whose selected fields are the wanted names render as the header line. */
  lemma HeaderLineOf(fieldnames: seq<string>, cc: seq<nat>)
    requires |cc| > 0 && Fits(fieldnames, cc) && Project(fieldnames, cc) == OutputFields
    ensures Line(fieldnames, cc) == HeaderLine
  {
    assert fieldnames[cc[0]] == Project(fieldnames, cc)[0] == "Datetime";
    LineVerbatim(fieldnames, cc);
    JoinOutputFields();
  }

  /** A report starts with the banner, the rendered header and the rule. */
  lemma RenderPrefix(fieldnames: seq<string>, kept: seq<seq<string>>, cc: seq<nat>)
    requires Fits(fieldnames, cc)
    ensures var r := Render(fieldnames, kept, cc);
            r.Success? ==>
              && |cc| > 0
              && |r.value| >= |Banner + Line(fieldnames, cc) + Rule|
              && r.value[..|Banner + Line(fieldnames, cc) + Rule|] == Banner + Line(fieldnames, cc) + Rule
  {
    if |cc| > 0 && FirstUnfit(kept, cc).None? {
      var head := Banner + Line(fieldnames, cc) + Rule;
      var out := head + Body(kept, cc);
      assert out[..|head|] == head;
    }
  }

  /** The script's columns, when all present, select exactly the wanted names. */
  lemma ScriptColumns(fieldnames: seq<string>)
    requires Columns(fieldnames, OutputFields).Success?
    ensures var cc := Columns(fieldnames, OutputFields).value;
            |cc| == 5 && Fits(fieldnames, cc) && Project(fieldnames, cc) == OutputFields
  {
    var cc := Columns(fieldnames, OutputFields).value;
    assert |cc| == |OutputFields|;
  }

  /** What the script's run renders from its field names and kept records. */
  lemma ScriptRender(fieldnames: seq<string>, kept: seq<seq<string>>)
    requires Columns(fieldnames, OutputFields).Success?
    ensures var cc := Columns(fieldnames, OutputFields).value;
            Fits(fieldnames, cc)
            && var r := Render(fieldnames, kept, cc);
               && r != Failure(NoColumns)
               && (r.Success? ==>
                     && |r.value| >= |Banner + HeaderLine + Rule|
                     && r.value[..|Banner + HeaderLine + Rule|] == Banner + HeaderLine + Rule)
  {
    var cc := Columns(fieldnames, OutputFields).value;
    ScriptColumns(fieldnames);
    HeaderLineOf(fieldnames, cc);
    RenderPrefix(fieldnames, kept, cc);
  }

  /** The script's own run, for participant `ParticipantName` and columns
      `OutputFields`, never fails for lack of columns, and a report it writes
      starts with the banner, the header line above and the rule. */
  lemma ScriptReport(files: seq<StatementFile>)
    ensures Report(files, ParticipantName, OutputFields) != Failure(NoColumns)
    ensures var r := Report(files, ParticipantName, OutputFields);
            r.Success? ==>
              && |r.value| >= |Banner + HeaderLine + Rule|
              && r.value[..|Banner + HeaderLine + Rule|] == Banner + HeaderLine + Rule
  {
    if |files| > 0 {
      var fieldnames := Split(ThirdLine(files[0].text), ',');
      if Columns(fieldnames, OutputFields).Success? {
        ScriptRender(fieldnames, Matching(Records(files), ParticipantName));
      }
    }
  }
}
