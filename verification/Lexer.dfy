/** What the script scanner does, said of the whole text: an automaton that reads one
    character at a time, and the theorems that tie the scanner to it. */
module Lexer {
  import opened Common
  import opened Scanner

  // ---------------------------------------------------------------- the automaton

  /** Dash and Slash remember a possible comment opener, Star a possible closer, and
      Escape a backslash inside a quote. */
  datatype Mode = Code | Dash | Slash | Quote(q: char) | Escape(q: char) | Block | Star | Comment

  predicate Top(m: Mode) { m.Code? || m.Dash? || m.Slash? }

  function StepCode(c: char, bs: bool): Mode {
    if c == '\'' || c == '"' || c == '`' then Quote(c)
    else if c == '-' then Dash
    else if c == '/' then Slash
    else if c == '#' && bs then Comment
    else Code
  }

  function Step(m: Mode, c: char, bs: bool): Mode {
    match m
    case Code => StepCode(c, bs)
    case Dash => if c == '-' then Comment else StepCode(c, bs)
    case Slash => if c == '*' then Block else StepCode(c, bs)
    case Quote(q) => if bs && c == '\\' && q != '`' then Escape(q) else if c == q then Code else m
    case Escape(q) => Quote(q)
    case Block => if c == '*' then Star else Block
    case Star => if c == '/' then Code else if c == '*' then Star else Block
    case Comment => if c == '\n' then Code else Comment
  }

  /** The mode after the first n characters of t. */
  function ModeAt(t: string, n: nat, m: Mode, bs: bool): Mode
    requires n <= |t|
  {
    if n == 0 then m else Step(ModeAt(t, n - 1, m, bs), t[n - 1], bs)
  }

  /** A top-level semicolon: c is one, read in mode m. */
  predicate Semi(m: Mode, c: char) { Top(m) && c == ';' }

  /** The automaton, started in m, reads a top-level semicolon at i. */
  predicate SemiAt(t: string, i: nat, m: Mode, bs: bool)
    requires i < |t|
  {
    Semi(ModeAt(t, i, m, bs), t[i])
  }

  ghost predicate NoSemis(t: string, m: Mode, bs: bool) {
    forall i :: 0 <= i < |t| ==> !SemiAt(t, i, m, bs)
  }

  /** No quote or block comment is open. */
  predicate Ended(m: Mode) { Top(m) || m.Comment? }

  /** One statement: no top-level semicolon inside, nothing left open. */
  ghost predicate Whole(t: string, bs: bool) {
    NoSemis(t, Code, bs) && Ended(ModeAt(t, |t|, Code, bs))
  }

  lemma {:induction false} ModeOfPrefix(t: string, u: string, n: nat, m: Mode, bs: bool)
    requires n <= |t|
    ensures ModeAt(t + u, n, m, bs) == ModeAt(t, n, m, bs)
  {
    if n == 0 {
    } else {
      ModeOfPrefix(t, u, n - 1, m, bs);
    }
  }

  lemma {:induction false} ModeOfSuffix(t: string, u: string, n: nat, m: Mode, bs: bool)
    requires n <= |u|
    ensures ModeAt(t + u, |t| + n, m, bs) == ModeAt(u, n, ModeAt(t, |t|, m, bs), bs)
  {
    if n == 0 {
      ModeOfPrefix(t, u, |t|, m, bs);
    } else {
      ModeOfSuffix(t, u, n - 1, m, bs);
    }
  }

  // ---------------------------------------------------------------- one line

  /** The automaton driving the scanner's buffer. */
  function Drive(out: Out, t: string, i: nat, m: Mode, region: bool, bs: bool): (Out, Mode)
    requires i <= |t|
    decreases |t| - i
  {
    if i == |t| then (out, m)
    else
      Drive(if Semi(m, t[i]) && !region then Flush(out, false) else Put(out, t[i]),
            t, i + 1, Step(m, t[i], bs), region, bs)
  }

  /** The mode a scan state stands for at the start of a line. */
  function Embed(st: ScanState): Mode {
    match st
    case Normal => Code
    case BlockComment => Block
    case _ => Quote(QuoteChar(st))
  }

  /** State st and mode m agree before line[i]: a half-read pair was not one. */
  ghost predicate Agrees(st: ScanState, m: Mode, line: string, i: nat)
    requires i <= |line|
  {
    match st
    case Normal => Top(m) && (i < |line| ==> !(m.Dash? && line[i] == '-') && !(m.Slash? && line[i] == '*'))
    case BlockComment => m.Block? || (m.Star? && (i < |line| ==> line[i] != '/'))
    case _ => m == Quote(QuoteChar(st)) || (i == |line| && m == Escape(QuoteChar(st)))
  }

  lemma {:induction false} CommentRunsOn(out: Out, line: string, i: nat, region: bool, bs: bool)
    requires i <= |line| && '\n' !in line
    ensures Drive(out, line + "\n", i, Comment, region, bs) == (Put(out.(buf := out.buf + line[i..]), '\n'), Code)
    decreases |line| - i
  {
    var t := line + "\n";
    if i == |line| {
      assert Drive(Put(out, '\n'), t, i + 1, Code, region, bs) == (Put(out, '\n'), Code);
      assert out.buf + line[i..] == out.buf;
    } else {
      assert t[i] == line[i] && line[i] in line;
      CommentRunsOn(Put(out, line[i]), line, i + 1, region, bs);
      assert out.buf + [line[i]] + line[i + 1..] == out.buf + line[i..];
    }
  }

  lemma DriveTwo(out: Out, t: string, i: nat, m: Mode, region: bool, bs: bool)
    requires i + 1 < |t| && t[i] != ';' && (t[i + 1] == ';' ==> !Top(Step(m, t[i], bs)))
    ensures Drive(out, t, i, m, region, bs) ==
            Drive(Put(Put(out, t[i]), t[i + 1]), t, i + 2, Step(Step(m, t[i], bs), t[i + 1], bs), region, bs)
  {
    assert Drive(out, t, i, m, region, bs) == Drive(Put(out, t[i]), t, i + 1, Step(m, t[i], bs), region, bs);
  }

  lemma {:induction false} ScanIsDrive(out: Out, line: string, i: nat, st: ScanState, m: Mode, region: bool, bs: bool)
    requires i <= |line| && '\n' !in line && Agrees(st, m, line, i)
    ensures var (o, st') := ScanFrom(out, line, i, st, region, bs);
      Drive(out, line + "\n", i, m, region, bs) == (o, Embed(st'))
    decreases |line| - i, 2
  {
    if i == |line| {
      var t := line + "\n";
      assert Drive(Put(out, '\n'), t, i + 1, Step(m, '\n', bs), region, bs) == (Put(out, '\n'), Step(m, '\n', bs));
    } else if st == Normal {
      NormalIsDrive(out, line, i, m, region, bs);
    } else if st == BlockComment {
      BlockIsDrive(out, line, i, m, region, bs);
    } else {
      QuoteIsDrive(out, line, i, st, m, region, bs);
    }
  }

  lemma {:induction false} QuoteIsDrive(out: Out, line: string, i: nat, st: ScanState, m: Mode, region: bool, bs: bool)
    requires i < |line| && '\n' !in line && IsQuote(st) && Agrees(st, m, line, i)
    ensures var (o, st') := ScanFrom(out, line, i, st, region, bs);
      Drive(out, line + "\n", i, m, region, bs) == (o, Embed(st'))
    decreases |line| - i, 0
  {
    var c, t := line[i], line + "\n";
    assert t[i] == c;
    if bs && c == '\\' && st != Backtick && i + 1 < |line| {
      assert t[i + 1] == line[i + 1];
      DriveTwo(out, t, i, m, region, bs);
      ScanIsDrive(Put(Put(out, c), line[i + 1]), line, i + 2, st, m, region, bs);
    } else {
      ScanIsDrive(Put(out, c), line, i + 1, if c == QuoteChar(st) then Normal else st, Step(m, c, bs), region, bs);
    }
  }

  lemma {:induction false} BlockIsDrive(out: Out, line: string, i: nat, m: Mode, region: bool, bs: bool)
    requires i < |line| && '\n' !in line && Agrees(BlockComment, m, line, i)
    ensures var (o, st') := ScanFrom(out, line, i, BlockComment, region, bs);
      Drive(out, line + "\n", i, m, region, bs) == (o, Embed(st'))
    decreases |line| - i, 0
  {
    var c, t := line[i], line + "\n";
    assert t[i] == c;
    if Pair(line, i, '*', '/') {
      assert t[i + 1] == '/';
      DriveTwo(out, t, i, m, region, bs);
      ScanIsDrive(Put(Put(out, '*'), '/'), line, i + 2, Normal, Code, region, bs);
    } else {
      ScanIsDrive(Put(out, c), line, i + 1, BlockComment, Step(m, c, bs), region, bs);
    }
  }

  lemma {:induction false} NormalIsDrive(out: Out, line: string, i: nat, m: Mode, region: bool, bs: bool)
    requires i < |line| && '\n' !in line && Agrees(Normal, m, line, i)
    ensures var (o, st') := ScanFrom(out, line, i, Normal, region, bs);
      Drive(out, line + "\n", i, m, region, bs) == (o, Embed(st'))
    decreases |line| - i, 1
  {
    var c, t := line[i], line + "\n";
    assert t[i] == c;
    if Pair(line, i, '-', '-') {
      assert t[i + 1] == '-';
      DriveTwo(out, t, i, m, region, bs);
      CommentRunsOn(Put(Put(out, '-'), '-'), line, i + 2, region, bs);
      assert out.buf + ['-'] + ['-'] + line[i + 2..] == out.buf + line[i..];
    } else if c == '#' && bs {
      assert Step(m, c, bs) == Comment;
      CommentRunsOn(Put(out, c), line, i + 1, region, bs);
      assert out.buf + [c] + line[i + 1..] == out.buf + line[i..];
    } else if Pair(line, i, '/', '*') {
      assert t[i + 1] == '*';
      DriveTwo(out, t, i, m, region, bs);
      ScanIsDrive(Put(Put(out, '/'), '*'), line, i + 2, BlockComment, Block, region, bs);
    } else if c == ';' && !region {
      ScanIsDrive(Flush(out, false), line, i + 1, Normal, Code, region, bs);
    } else {
      PlainIsDrive(out, line, i, m, region, bs);
    }
  }

  lemma {:induction false} PlainIsDrive(out: Out, line: string, i: nat, m: Mode, region: bool, bs: bool)
    requires i < |line| && '\n' !in line && Agrees(Normal, m, line, i)
    requires !Pair(line, i, '-', '-') && !(line[i] == '#' && bs) && !Pair(line, i, '/', '*')
    requires !(line[i] == ';' && !region)
    ensures var (o, st') := ScanFrom(out, line, i, Normal, region, bs);
      Drive(out, line + "\n", i, m, region, bs) == (o, Embed(st'))
    decreases |line| - i, 0
  {
    var c := line[i];
    assert (line + "\n")[i] == c;
    var st :=
      if c == '\'' then SingleQuote else if c == '"' then DoubleQuote else if c == '`' then Backtick else Normal;
    assert Step(m, c, bs) == StepCode(c, bs);
    ScanIsDrive(Put(out, c), line, i + 1, st, StepCode(c, bs), region, bs);
  }

  // ---------------------------------------------------------------- marks

  /** What becomes of one character of the source: kept in the buffer, kept inside a
      region, cut away as a splitting semicolon, dropped with an annotation line, or
      dropped as the end of an annotation line that flushes. */
  datatype Mark = Keep | Raw | Cut | Drop | Break(raw: bool)

  function Apply(out: Out, c: char, mark: Mark): Out {
    match mark
    case Keep => Put(out, c)
    case Raw => Put(out, c)
    case Cut => Flush(out, false)
    case Drop => out
    case Break(raw) => Flush(out, raw)
  }

  /** The buffers built from the first n characters of a marked text. */
  function Build(out: Out, t: string, marks: seq<Mark>, n: nat): Out
    requires n <= |t| == |marks|
  {
    if n == 0 then out else Apply(Build(out, t, marks, n - 1), t[n - 1], marks[n - 1])
  }

  lemma {:induction false} BuildOfPrefix(out: Out, t: string, a: seq<Mark>, u: string, b: seq<Mark>, n: nat)
    requires |t| == |a| && |u| == |b| && n <= |t|
    ensures Build(out, t + u, a + b, n) == Build(out, t, a, n)
  {
    if n == 0 {
    } else {
      BuildOfPrefix(out, t, a, u, b, n - 1);
    }
  }

  lemma {:induction false} BuildOfSuffix(out: Out, t: string, a: seq<Mark>, u: string, b: seq<Mark>, n: nat)
    requires |t| == |a| && |u| == |b| && n <= |u|
    ensures Build(out, t + u, a + b, |t| + n) == Build(Build(out, t, a, |t|), u, b, n)
  {
    if n == 0 {
      BuildOfPrefix(out, t, a, u, b, |t|);
    } else {
      BuildOfSuffix(out, t, a, u, b, n - 1);
    }
  }

  function MarkOf(m: Mode, c: char, region: bool): Mark {
    if region then Raw else if Semi(m, c) then Cut else Keep
  }

  function TextMarks(t: string, m: Mode, region: bool, bs: bool): (marks: seq<Mark>)
    ensures |marks| == |t|
  {
    seq(|t|, i requires 0 <= i < |t| => MarkOf(ModeAt(t, i, m, bs), t[i], region))
  }

  ghost predicate MarkedAt(t: string, marks: seq<Mark>, m: Mode, region: bool, bs: bool, i: nat)
    requires i < |t| == |marks|
  {
    marks[i] == MarkOf(ModeAt(t, i, m, bs), t[i], region)
  }

  lemma TextIsMarked(t: string, m: Mode, region: bool, bs: bool)
    ensures forall i :: 0 <= i < |t| ==> MarkedAt(t, TextMarks(t, m, region, bs), m, region, bs, i)
  {
  }

  lemma DriveBuildsOne(out: Out, t: string, marks: seq<Mark>, i: nat, m: Mode, m1: Mode, region: bool, bs: bool)
    requires i < |t| == |marks| && marks[i] == MarkOf(m, t[i], region) && m1 == Step(m, t[i], bs)
    ensures Drive(Build(out, t, marks, i), t, i, m, region, bs) ==
            Drive(Build(out, t, marks, i + 1), t, i + 1, m1, region, bs)
  {
  }

  lemma {:induction false} DriveBuilds(out: Out, t: string, i: nat, m: Mode, region: bool, bs: bool, marks: seq<Mark>)
    requires i <= |t| == |marks|
    requires forall k :: 0 <= k < |t| ==> MarkedAt(t, marks, m, region, bs, k)
    ensures Drive(Build(out, t, marks, i), t, i, ModeAt(t, i, m, bs), region, bs) ==
            (Build(out, t, marks, |t|), ModeAt(t, |t|, m, bs))
    decreases |t| - i
  {
    if i >= |t| {
    } else {
      DriveBuilds(out, t, i + 1, m, region, bs, marks);
      assert MarkedAt(t, marks, m, region, bs, i);
      DriveBuildsOne(out, t, marks, i, ModeAt(t, i, m, bs), ModeAt(t, i + 1, m, bs), region, bs);
    }
  }

  function Noted(m: Mode, line: string): Note {
    if m == Code then Annotation(line) else NoNote
  }

  function NoteMarks(line: string, note: Note): (marks: seq<Mark>)
    ensures |marks| == |line| + 1
  {
    seq(|line|, _ => Drop) +
    [match note case Begin => Break(false) case End => Break(true) case _ => Drop]
  }

  function LineMarks(line: string, m: Mode, region: bool, bs: bool): (marks: seq<Mark>)
    ensures |marks| == |line| + 1
  {
    var note := Noted(m, line);
    if note == NoNote then TextMarks(line + "\n", m, region, bs) else NoteMarks(line, note)
  }

  function RegionAfter(line: string, m: Mode, region: bool): bool {
    match Noted(m, line) case Begin => true case End => false case _ => region
  }

  function Text(lines: seq<string>): string {
    if lines == [] then "" else lines[0] + "\n" + Text(lines[1..])
  }

  /** The marks of a whole file: annotation lines are those the automaton starts in
      Code, and every other line is marked by the automaton alone. */
  function FileMarks(lines: seq<string>, m: Mode, region: bool, bs: bool): (marks: seq<Mark>)
    ensures |marks| == |Text(lines)|
  {
    if lines == [] then []
    else
      var line := lines[0];
      LineMarks(line, m, region, bs) +
      FileMarks(lines[1..], ModeAt(line + "\n", |line| + 1, m, bs), RegionAfter(line, m, region), bs)
  }

  // ---------------------------------------------------------------- annotation lines

  lemma {:induction false} SpacesStayCode(t: string, n: nat, bs: bool)
    requires n <= |t| && forall k :: 0 <= k < n ==> IsSpace(t[k])
    ensures ModeAt(t, n, Code, bs) == Code
  {
    if n == 0 {
    } else {
      SpacesStayCode(t, n - 1, bs);
    }
  }

  lemma {:induction false} CommentStays(t: string, a: nat, n: nat, bs: bool)
    requires a <= n <= |t| && ModeAt(t, a, Code, bs) == Comment && forall k :: a <= k < n ==> t[k] != '\n'
    ensures ModeAt(t, n, Code, bs) == Comment
  {
    if a >= n {
    } else {
      CommentStays(t, a, n - 1, bs);
    }
  }

  lemma TrimShape(s: string) returns (a: nat, b: nat)
    requires Trim(s) != ""
    ensures a < b <= |s| && Trim(s) == s[a..b]
    ensures (forall k :: 0 <= k < a ==> IsSpace(s[k])) && (forall k :: b <= k < |s| ==> IsSpace(s[k]))
    ensures !IsSpace(s[a]) && !IsSpace(s[b - 1])
  {
    a, b := SkipSpace(s, 0), DropSpace(s, |s|);
  }

  lemma OpensComment(t: string, a: nat, bs: bool)
    requires a + 1 < |t| && t[a] == '-' && t[a + 1] == '-' && forall k :: 0 <= k < a ==> IsSpace(t[k])
    ensures ModeAt(t, a, Code, bs) == Code && ModeAt(t, a + 1, Code, bs) == Dash
    ensures ModeAt(t, a + 2, Code, bs) == Comment
  {
    SpacesStayCode(t, a, bs);
    assert ModeAt(t, a + 1, Code, bs) == Step(Code, '-', bs);
    assert ModeAt(t, a + 2, Code, bs) == Step(Dash, '-', bs);
  }

  /** An annotation line is white space and a line comment to the automaton: it holds
      no top-level semicolon and leaves the mode where it was. */
  lemma AnnotationIsComment(line: string, bs: bool)
    requires '\n' !in line && "--" <= Trim(line)
    ensures NoSemis(line + "\n", Code, bs) && ModeAt(line + "\n", |line| + 1, Code, bs) == Code
  {
    var t := line + "\n";
    var a, b := TrimShape(line);
    assert line[a..b][0] == '-' && line[a..b][1] == '-';
    CommentLine(t, a, |line|, bs);
  }

  lemma CommentLine(t: string, a: nat, n: nat, bs: bool)
    requires |t| == n + 1 && t[n] == '\n' && (forall k :: 0 <= k < n ==> t[k] != '\n')
    requires a + 1 < n && t[a] == '-' && t[a + 1] == '-' && forall k :: 0 <= k < a ==> IsSpace(t[k])
    ensures NoSemis(t, Code, bs) && ModeAt(t, n + 1, Code, bs) == Code
  {
    OpensComment(t, a, bs);
    forall i | 0 <= i < |t| ensures !SemiAt(t, i, Code, bs) {
      if i < a {
        assert IsSpace(t[i]);
      } else if i >= a + 2 {
        CommentStays(t, a + 2, i, bs);
      }
    }
    CommentStays(t, a + 2, n, bs);
  }

  // ---------------------------------------------------------------- the file

  ghost predicate Unbroken(lines: seq<string>) { forall k :: 0 <= k < |lines| ==> '\n' !in lines[k] }

  lemma {:induction false} BuildDrops(out: Out, line: string, note: Note, n: nat)
    requires n <= |line|
    ensures Build(out, line + "\n", NoteMarks(line, note), n) == out
  {
    if n == 0 {
    } else {
      BuildDrops(out, line, note, n - 1);
    }
  }

  lemma PlainLineBuilds(p: Loop, line: string, bs: bool)
    requires '\n' !in line
    ensures var (out, st) := ScanFrom(p.out, line, 0, p.st, p.region, bs);
      var m := Embed(p.st);
      && out == Build(p.out, line + "\n", TextMarks(line + "\n", m, p.region, bs), |line| + 1)
      && Embed(st) == ModeAt(line + "\n", |line| + 1, m, bs)
  {
    var m := Embed(p.st);
    ScanIsDrive(p.out, line, 0, p.st, m, p.region, bs);
    TextIsMarked(line + "\n", m, p.region, bs);
    DriveBuilds(p.out, line + "\n", 0, m, p.region, bs, TextMarks(line + "\n", m, p.region, bs));
  }

  lemma NoteLineBuilds(out: Out, line: string, note: Note, bs: bool)
    requires '\n' !in line && note == Annotation(line) && note != NoNote
    ensures Build(out, line + "\n", NoteMarks(line, note), |line| + 1) ==
            (match note case Begin => Flush(out, false) case End => Flush(out, true) case _ => out)
    ensures note != Unknown ==>
              NoSemis(line + "\n", Code, bs) && ModeAt(line + "\n", |line| + 1, Code, bs) == Code
  {
    BuildDrops(out, line, note, |line|);
    if note != Unknown {
      assert PREFIX[..2] == "--";
      AnnotationIsComment(line, bs);
    }
  }

  /** One line: the scanner builds what the marks say and follows the automaton. */
  lemma LineBuilds(p: Loop, line: string, bs: bool)
    requires '\n' !in line && LineStep(p, line, bs).Ok?
    ensures var p' := LineStep(p, line, bs).value;
      var m := Embed(p.st);
      && p'.out == Build(p.out, line + "\n", LineMarks(line, m, p.region, bs), |line| + 1)
      && Embed(p'.st) == ModeAt(line + "\n", |line| + 1, m, bs)
      && p'.region == RegionAfter(line, m, p.region)
  {
    if Noted(Embed(p.st), line) == NoNote {
      PlainLineBuilds(p, line, bs);
    } else {
      NoteLineBuilds(p.out, line, Annotation(line), bs);
    }
  }

  lemma BuildJoins(out: Out, t: string, a: seq<Mark>, u: string, b: seq<Mark>, mid: Out)
    requires |t| == |a| && |u| == |b| && mid == Build(out, t, a, |t|)
    ensures Build(out, t + u, a + b, |t + u|) == Build(mid, u, b, |u|)
  {
    BuildOfSuffix(out, t, a, u, b, |u|);
  }

  /** The marks of a file after its first line. */
  function RestMarks(lines: seq<string>, m: Mode, region: bool, bs: bool): (marks: seq<Mark>)
    requires lines != []
    ensures |marks| == |Text(lines[1..])|
  {
    var line := lines[0];
    FileMarks(lines[1..], ModeAt(line + "\n", |line| + 1, m, bs), RegionAfter(line, m, region), bs)
  }

  lemma {:induction false} FileBuilds(lines: seq<string>, p: Loop, bs: bool)
    requires Unbroken(lines) && ParseLines(lines, p, bs).Ok?
    ensures ParseLines(lines, p, bs).value.out ==
            Flush(Build(p.out, Text(lines), FileMarks(lines, Embed(p.st), p.region, bs), |Text(lines)|), false)
    decreases |lines|
  {
    if lines == [] {
    } else {
      var p' := LineStep(p, lines[0], bs).value;
      LineBuilds(p, lines[0], bs);
      FileBuilds(lines[1..], p', bs);
      BuildJoins(p.out, lines[0] + "\n", LineMarks(lines[0], Embed(p.st), p.region, bs),
                 Text(lines[1..]), RestMarks(lines, Embed(p.st), p.region, bs), p'.out);
    }
  }

  /** A mark cuts exactly at the top-level semicolons outside a region. */
  ghost predicate Exact(t: string, marks: seq<Mark>, m: Mode, bs: bool)
    requires |t| == |marks|
  {
    forall i :: 0 <= i < |t| ==>
      (marks[i] == Cut <==> marks[i] != Raw && SemiAt(t, i, m, bs))
  }

  lemma ExactJoins(t: string, a: seq<Mark>, u: string, b: seq<Mark>, m: Mode, bs: bool)
    requires |t| == |a| && |u| == |b| && Exact(t, a, m, bs) && Exact(u, b, ModeAt(t, |t|, m, bs), bs)
    ensures Exact(t + u, a + b, m, bs)
  {
    forall i | 0 <= i < |t + u|
      ensures (a + b)[i] == Cut <==> (a + b)[i] != Raw && SemiAt(t + u, i, m, bs)
    {
      if i < |t| {
        ModeOfPrefix(t, u, i, m, bs);
        assert a[i] == Cut <==> a[i] != Raw && SemiAt(t, i, m, bs);
      } else {
        ModeOfSuffix(t, u, i - |t|, m, bs);
        assert b[i - |t|] == Cut <==> b[i - |t|] != Raw && SemiAt(u, i - |t|, ModeAt(t, |t|, m, bs), bs);
      }
    }
  }

  lemma LineExact(p: Loop, line: string, bs: bool)
    requires '\n' !in line && LineStep(p, line, bs).Ok?
    ensures Exact(line + "\n", LineMarks(line, Embed(p.st), p.region, bs), Embed(p.st), bs)
  {
    if Noted(Embed(p.st), line) != NoNote {
      NoteLineBuilds(p.out, line, Annotation(line), bs);
    }
  }

  lemma {:induction false} FileExact(lines: seq<string>, p: Loop, bs: bool)
    requires Unbroken(lines) && ParseLines(lines, p, bs).Ok?
    ensures Exact(Text(lines), FileMarks(lines, Embed(p.st), p.region, bs), Embed(p.st), bs)
    decreases |lines|
  {
    if lines == [] {
    } else {
      var line, rest := lines[0], lines[1..];
      var p' := LineStep(p, line, bs).value;
      LineBuilds(p, line, bs);
      LineExact(p, line, bs);
      FileExact(rest, p', bs);
      ExactJoins(line + "\n", LineMarks(line, Embed(p.st), p.region, bs),
                 Text(rest), FileMarks(rest, Embed(p'.st), p'.region, bs), Embed(p.st), bs);
    }
  }

  lemma {:induction false} LinesRejoin(src: string, from: nat, i: nat)
    requires from <= i <= |src| && '\n' !in src[from..i]
    ensures Text(LinesFrom(src, from, i)) == src[from..] + "\n"
    ensures Unbroken(LinesFrom(src, from, i))
    decreases |src| - i
  {
    if i == |src| {
      assert Text([src[from..]]) == src[from..] + "\n" + Text([]);
      assert src[from..i] == src[from..];
    } else if src[i] == '\n' {
      LinesRejoin(src, i + 1, i + 1);
      var rest := LinesFrom(src, i + 1, i + 1);
      assert ([src[from..i]] + rest)[1..] == rest;
      assert src[from..i] + "\n" + src[i + 1..] == src[from..];
    } else {
      assert src[from..i + 1] == src[from..i] + [src[i]];
      LinesRejoin(src, from, i + 1);
    }
  }

  /** The characters that reach a buffer. */
  function Kept(t: string, marks: seq<Mark>, n: nat): string
    requires n <= |t| == |marks|
  {
    if n == 0 then ""
    else Kept(t, marks, n - 1) + (if marks[n - 1].Keep? || marks[n - 1].Raw? then [t[n - 1]] else "")
  }

  function Concat(chunks: seq<Chunk>): string {
    if chunks == [] then "" else Concat(chunks[..|chunks| - 1]) + chunks[|chunks| - 1].text
  }

  lemma ApplyConserves(out: Out, c: char, mark: Mark)
    ensures var out' := Apply(out, c, mark);
      Concat(out'.chunks) + out'.buf ==
        Concat(out.chunks) + out.buf + (if mark.Keep? || mark.Raw? then [c] else "")
  {
    var out' := Apply(out, c, mark);
    if |out'.chunks| > |out.chunks| {
      assert out'.chunks[..|out.chunks|] == out.chunks;
    }
  }

  lemma {:induction false} BuildConserves(t: string, marks: seq<Mark>, n: nat)
    requires n <= |t| == |marks|
    ensures var out := Build(Out("", []), t, marks, n);
      Concat(out.chunks) + out.buf == Kept(t, marks, n)
  {
    if n == 0 {
    } else {
      BuildConserves(t, marks, n - 1);
      ApplyConserves(Build(Out("", []), t, marks, n - 1), t[n - 1], marks[n - 1]);
    }
  }

  /** For every file that parses, the line scanner cuts exactly where the one-pass
      automaton over the whole text reads a top-level semicolon outside a region; its
      flushed buffers are the pieces between the cuts and the region boundaries; and
      together they are the source minus those semicolons and the annotation lines. */
  lemma SplitsAtTopLevelSemicolons(src: string, bs: bool) returns (marks: seq<Mark>)
    requires Parse(src, bs).Ok?
    ensures var t := src + "\n";
      && |marks| == |t| && marks == FileMarks(Lines(src), Code, false, bs)
      && (forall i :: 0 <= i < |t| ==>
            (marks[i] == Cut <==> marks[i] != Raw && SemiAt(t, i, Code, bs)))
      && Parse(src, bs).value.out == Flush(Build(Out("", []), t, marks, |t|), false)
      && Concat(Parse(src, bs).value.out.chunks) == Kept(t, marks, |t|)
  {
    LinesRejoin(src, 0, 0);
    assert src[0..] == src;
    FileExact(Lines(src), FIRST, bs);
    marks := FileMarks(Lines(src), Code, false, bs);
    var t := src + "\n";
    assert Text(Lines(src)) == t;
    FileBuilds(Lines(src), FIRST, bs);
    BuildConserves(t, marks, |t|);
    var out := Build(Out("", []), t, marks, |t|);
    assert Flush(out, false).chunks[..|out.chunks|] == out.chunks;
  }

  // ---------------------------------------------------------------- what a file says of itself

  /** Some line that starts outside quotes and comments is this annotation. */
  predicate Says(lines: seq<string>, m: Mode, note: Note, bs: bool) {
    lines != [] &&
    (Noted(m, lines[0]) == note || Says(lines[1..], ModeAt(lines[0] + "\n", |lines[0]| + 1, m, bs), note, bs))
  }

  /** What is wrong with an annotation where it stands. */
  function TroubleAt(note: Note, region: bool): Option<Error> {
    if note == Unknown then Some(UnknownAnnotation)
    else if note == Begin && region then Some(NestedRegion)
    else if note == End && !region then Some(StrayEnd)
    else None
  }

  /** What is wrong with a file, from a line on: an annotation nobody knows, a region begun
      in a region or ended outside one, or a region, quote or comment never ended. */
  function Trouble(lines: seq<string>, m: Mode, region: bool, bs: bool): Option<Error> {
    if lines == [] then
      if region then Some(UnclosedRegion) else if m != Code then Some(Unterminated) else None
    else
      var here := TroubleAt(Noted(m, lines[0]), region);
      if here.Some? then here
      else Trouble(lines[1..], ModeAt(lines[0] + "\n", |lines[0]| + 1, m, bs), RegionAfter(lines[0], m, region), bs)
  }

  lemma LineDecides(p: Loop, line: string, bs: bool)
    ensures var step, note := LineStep(p, line, bs), Noted(Embed(p.st), line);
      && (step.Err? <==> TroubleAt(note, p.region).Some?)
      && (step.Err? ==> TroubleAt(note, p.region).value == step.error)
      && (step.Ok? ==> (step.value.noTx <==> p.noTx || note == NoTransaction))
  {
  }

  lemma {:induction false} LinesDecide(lines: seq<string>, p: Loop, bs: bool)
    requires Unbroken(lines)
    ensures var parsed, trouble := ParseLines(lines, p, bs), Trouble(lines, Embed(p.st), p.region, bs);
      && (parsed.Err? <==> trouble.Some?)
      && (parsed.Err? ==> trouble.value == parsed.error)
      && (parsed.Ok? ==> (parsed.value.noTx <==> p.noTx || Says(lines, Embed(p.st), NoTransaction, bs)))
    decreases |lines|
  {
    if lines == [] {
    } else {
      LineDecides(p, lines[0], bs);
      if LineStep(p, lines[0], bs).Ok? {
        LineBuilds(p, lines[0], bs);
        LinesDecide(lines[1..], LineStep(p, lines[0], bs).value, bs);
      }
    }
  }

  /** A script parses exactly if there is no trouble in it, and otherwise the error is the
      first trouble; it is to run without a transaction exactly if some line outside quotes
      and comments says so. */
  lemma ParsesExactlyWithoutTrouble(src: string, bs: bool)
    ensures var parsed, trouble := ParseScript(src, bs), Trouble(Lines(src), Code, false, bs);
      && (parsed.Err? <==> trouble.Some?)
      && (parsed.Err? ==> trouble.value == parsed.error)
      && (parsed.Ok? ==> (parsed.value.noTx <==> Says(Lines(src), Code, NoTransaction, bs)))
  {
    LinesRejoin(src, 0, 0);
    LinesDecide(Lines(src), FIRST, bs);
  }
}
