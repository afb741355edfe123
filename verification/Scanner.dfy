/** The SQL script scanner of cli/migrationx/scanner.go: a line-at-a-time lexer with
    carried state, statement regions and annotations (`Parser`).

    The reference is an automaton over the whole text that reads one character at a
    time, with no lines, no lookahead and no annotations (`Step`, `ModeAt`).  Text is a
    sequence of Unicode characters. */
module Scanner {

  // ---------------------------------------------------------------- strings

  /** unicode.IsSpace. */
  predicate IsSpace(c: char) {
    '\t' <= c <= '\r' || c == ' ' || c == '\U{85}' || c == '\U{A0}' || c == '\U{1680}' ||
    '\U{2000}' <= c <= '\U{200A}' || c == '\U{2028}' || c == '\U{2029}' || c == '\U{202F}' ||
    c == '\U{205F}' || c == '\U{3000}'
  }

  function SkipSpace(s: string, i: nat): (j: nat)
    requires i <= |s|
    ensures i <= j <= |s| && (j < |s| ==> !IsSpace(s[j])) && forall k :: i <= k < j ==> IsSpace(s[k])
    decreases |s| - i
  {
    if i < |s| && IsSpace(s[i]) then SkipSpace(s, i + 1) else i
  }

  function DropSpace(s: string, n: nat): (j: nat)
    requires n <= |s|
    ensures j <= n && (j > 0 ==> !IsSpace(s[j - 1])) && forall k :: j <= k < n ==> IsSpace(s[k])
  {
    if n > 0 && IsSpace(s[n - 1]) then DropSpace(s, n - 1) else n
  }

  /** strings.TrimSpace.  A carriage return is a space, so trimming it first, as the
      scanner does, changes nothing. */
  function Trim(s: string): string {
    var a, b := SkipSpace(s, 0), DropSpace(s, |s|);
    if a >= b then "" else s[a..b]
  }

  predicate OccursAt(s: string, sub: string, i: nat) {
    i + |sub| <= |s| && s[i..i + |sub|] == sub
  }

  predicate Contains(s: string, sub: string) {
    exists i :: 0 <= i <= |s| && OccursAt(s, sub, i)
  }

  /** strings.Split(src, "\n"). */
  function Lines(src: string): (lines: seq<string>)
    ensures |lines| >= 1
  {
    LinesFrom(src, 0, 0)
  }

  function LinesFrom(src: string, from: nat, i: nat): (lines: seq<string>)
    requires from <= i <= |src|
    ensures |lines| >= 1
    decreases |src| - i
  {
    if i == |src| then [src[from..]]
    else if src[i] == '\n' then [src[from..i]] + LinesFrom(src, i + 1, i + 1)
    else LinesFrom(src, from, i + 1)
  }

  // ---------------------------------------------------------------- the line scanner

  datatype ScanState = Normal | SingleQuote | DoubleQuote | Backtick | BlockComment

  /** A buffer handed to flush; raw when it is the inside of a region. */
  datatype Chunk = Chunk(text: string, raw: bool)

  /** The buffer, and every buffer flushed so far. */
  datatype Out = Out(buf: string, chunks: seq<Chunk>)

  function Put(out: Out, c: char): Out { out.(buf := out.buf + [c]) }

  function Flush(out: Out, raw: bool): Out { Out("", out.chunks + [Chunk(out.buf, raw)]) }

  predicate IsQuote(st: ScanState) { st.SingleQuote? || st.DoubleQuote? || st.Backtick? }

  function QuoteChar(st: ScanState): char {
    match st case SingleQuote => '\'' case DoubleQuote => '"' case _ => '`'
  }

  /** scanLine from index i on. */
  function ScanFrom(out: Out, line: string, i: nat, st: ScanState, region: bool, bs: bool): (Out, ScanState)
    requires i <= |line|
    decreases |line| - i
  {
    if i == |line| then (Put(out, '\n'), st)
    else
      match st
      case SingleQuote => ScanQuote(out, line, i, st, region, bs)
      case DoubleQuote => ScanQuote(out, line, i, st, region, bs)
      case Backtick => ScanQuote(out, line, i, st, region, bs)
      case BlockComment =>
        if Pair(line, i, '*', '/') then ScanFrom(Put(Put(out, '*'), '/'), line, i + 2, Normal, region, bs)
        else ScanFrom(Put(out, line[i]), line, i + 1, st, region, bs)
      case Normal => ScanNormal(out, line, i, region, bs)
  }

  /** The two characters a, b stand at i. */
  predicate Pair(line: string, i: nat, a: char, b: char) {
    i + 1 < |line| && line[i] == a && line[i + 1] == b
  }

  function ScanNormal(out: Out, line: string, i: nat, region: bool, bs: bool): (Out, ScanState)
    requires i < |line|
    decreases |line| - i, 0
  {
    var c := line[i];
    if Pair(line, i, '-', '-') || (c == '#' && bs) then
      (Put(out.(buf := out.buf + line[i..]), '\n'), Normal)
    else if Pair(line, i, '/', '*') then
      ScanFrom(Put(Put(out, '/'), '*'), line, i + 2, BlockComment, region, bs)
    else if c == '\'' then ScanFrom(Put(out, c), line, i + 1, SingleQuote, region, bs)
    else if c == '"' then ScanFrom(Put(out, c), line, i + 1, DoubleQuote, region, bs)
    else if c == '`' then ScanFrom(Put(out, c), line, i + 1, Backtick, region, bs)
    else if c == ';' && !region then ScanFrom(Flush(out, false), line, i + 1, Normal, region, bs)
    else ScanFrom(Put(out, c), line, i + 1, Normal, region, bs)
  }

  function ScanQuote(out: Out, line: string, i: nat, st: ScanState, region: bool, bs: bool): (Out, ScanState)
    requires i < |line| && IsQuote(st)
    decreases |line| - i, 0
  {
    var c := line[i];
    if bs && c == '\\' && st != Backtick && i + 1 < |line| then
      ScanFrom(Put(Put(out, c), line[i + 1]), line, i + 2, st, region, bs)
    else ScanFrom(Put(out, c), line, i + 1, if c == QuoteChar(st) then Normal else st, region, bs)
  }

  // ---------------------------------------------------------------- executable text

  /** isExecutable from index i on. */
  function ExecutableFrom(s: string, i: nat, inBlock: bool, hash: bool): bool
    requires i <= |s|
    decreases |s| - i
  {
    if i == |s| then false
    else if inBlock then
      if s[i] == '*' && i + 1 < |s| && s[i + 1] == '/' then ExecutableFrom(s, i + 2, false, hash)
      else ExecutableFrom(s, i + 1, true, hash)
    else if (s[i] == '-' && i + 1 < |s| && s[i + 1] == '-') || (s[i] == '#' && hash) then
      var j := LineEnd(s, i);
      if j == |s| then false else ExecutableFrom(s, j + 1, false, hash)
    else if s[i] == '/' && i + 1 < |s| && s[i + 1] == '*' then ExecutableFrom(s, i + 2, true, hash)
    else if IsSpace(s[i]) then ExecutableFrom(s, i + 1, false, hash)
    else true
  }

  function LineEnd(s: string, i: nat): (j: nat)
    requires i <= |s|
    ensures i <= j <= |s|
    decreases |s| - i
  {
    if i == |s| || s[i] == '\n' then i else LineEnd(s, i + 1)
  }

  predicate IsExecutable(s: string, hash: bool) { ExecutableFrom(s, 0, false, hash) }

  /** The statements of the flushed buffers. */
  function Statements(chunks: seq<Chunk>, bs: bool): seq<string> {
    if chunks == [] then []
    else
      var stmt := Trim(chunks[|chunks| - 1].text);
      Statements(chunks[..|chunks| - 1], bs) + if IsExecutable(stmt, bs) then [stmt] else []
  }

  // ---------------------------------------------------------------- annotations

  const MARKER := "migrationx:"
  const PREFIX := "-- migrationx:"

  datatype Note = NoNote | Unknown | NoTransaction | Begin | End

  /** What a line that starts in the normal state says to the scanner. */
  function Annotation(line: string): Note {
    var t := Trim(line);
    if Contains(t, MARKER) && !(PREFIX <= t) && ("--" <= t || "#" <= t) then Unknown
    else if PREFIX <= t then
      var word := t[|PREFIX|..];
      if word == "no-transaction" then NoTransaction
      else if word == "statement begin" then Begin
      else if word == "statement end" then End
      else Unknown
    else NoNote
  }

  /** Exactly these three texts, white space around them aside, are annotations that mean
      something; any other comment that holds the marker is an error. */
  lemma AnnotationTexts(line: string)
    ensures Annotation(line) == NoTransaction <==> Trim(line) == "-- migrationx:no-transaction"
    ensures Annotation(line) == Begin <==> Trim(line) == "-- migrationx:statement begin"
    ensures Annotation(line) == End <==> Trim(line) == "-- migrationx:statement end"
    ensures Annotation(line) == NoNote <==>
            !("--" <= Trim(line) || "#" <= Trim(line)) || !Contains(Trim(line), "migrationx:")
  {
    var t := Trim(line);
    if PREFIX <= t {
      assert t == PREFIX + t[|PREFIX|..];
      assert t[..3] == "-- " && t[3..14] == MARKER;
      assert OccursAt(t, MARKER, 3) && "--" <= t;
    }
    assert PREFIX + "no-transaction" == "-- migrationx:no-transaction";
    assert PREFIX + "statement begin" == "-- migrationx:statement begin";
    assert PREFIX + "statement end" == "-- migrationx:statement end";
  }

  datatype Error = UnknownAnnotation | NestedRegion | UnclosedRegion | StrayEnd | Unterminated

  datatype Result<+T> = Ok(value: T) | Err(error: Error)

  /** The variables of parseScript's line loop. */
  datatype Loop = Loop(st: ScanState, region: bool, noTx: bool, out: Out)

  function NoteStep(p: Loop, note: Note): Result<Loop> {
    match note
    case Unknown => Err(UnknownAnnotation)
    case NoTransaction => Ok(p.(noTx := true))
    case Begin => if p.region then Err(NestedRegion) else Ok(p.(out := Flush(p.out, false), region := true))
    case End => if !p.region then Err(StrayEnd) else Ok(p.(out := Flush(p.out, true), region := false))
    case NoNote => Ok(p)
  }

  /** A line is an annotation, outside quotes and comments, or is scanned. */
  function LineStep(p: Loop, line: string, bs: bool): Result<Loop> {
    var note := if p.st == Normal then Annotation(line) else NoNote;
    if note != NoNote then NoteStep(p, note)
    else
      var (out, st) := ScanFrom(p.out, line, 0, p.st, p.region, bs);
      Ok(p.(out := out, st := st))
  }

  function Finish(p: Loop): Result<Loop> {
    if p.region then Err(UnclosedRegion)
    else if p.st != Normal then Err(Unterminated)
    else Ok(p.(out := Flush(p.out, false)))
  }

  function ParseLines(lines: seq<string>, p: Loop, bs: bool): Result<Loop>
    decreases |lines|
  {
    if lines == [] then Finish(p)
    else
      match LineStep(p, lines[0], bs)
      case Err(e) => Err(e)
      case Ok(p') => ParseLines(lines[1..], p', bs)
  }

  const FIRST := Loop(Normal, false, false, Out("", []))

  function Parse(src: string, bs: bool): Result<Loop> { ParseLines(Lines(src), FIRST, bs) }

  datatype Script = Script(statements: seq<string>, noTx: bool)

  /** parseScript. */
  function ParseScript(src: string, bs: bool): Result<Script> {
    match Parse(src, bs)
    case Ok(p) => Ok(Script(Statements(p.out.chunks, bs), p.noTx))
    case Err(e) => Err(e)
  }

  // ---------------------------------------------------------------- the class

  class Parser {
    const bs: bool
    var buf: string
    var statements: seq<string>
    var state: ScanState
    var inRegion: bool
    var noTx: bool
    ghost var chunks: seq<Chunk>

    ghost predicate Valid()
      reads this
    {
      statements == Statements(chunks, bs)
    }

    ghost function View(): Out
      reads this
    {
      Out(buf, chunks)
    }

    constructor (bs: bool)
      ensures Valid() && this.bs == bs && View() == Out("", []) && state == Normal && !inRegion && !noTx
    {
      this.bs, buf, statements, state, inRegion, noTx, chunks := bs, "", [], Normal, false, false, [];
    }

    method FlushBuffer(raw: bool)
      requires Valid()
      modifies this`buf, this`statements, this`chunks
      ensures Valid() && View() == Flush(old(View()), raw)
    {
      var stmt := Trim(buf);
      var executable := Executable(stmt, bs);
      if executable {
        statements := statements + [stmt];
      }
      ghost var chunk := Chunk(buf, raw);
      assert (chunks + [chunk])[..|chunks|] == chunks;
      chunks := chunks + [chunk];
      buf := "";
    }

    method ScanLine(line: string)
      requires Valid()
      modifies this`buf, this`statements, this`chunks, this`state
      ensures Valid() && (View(), state) == ScanFrom(old(View()), line, 0, old(state), inRegion, bs)
    {
      var i := 0;
      while i < |line|
        invariant 0 <= i <= |line| && Valid()
        invariant ScanFrom(View(), line, i, state, inRegion, bs) ==
                  ScanFrom(old(View()), line, 0, old(state), inRegion, bs)
      {
        match state {
          case BlockComment => i := InBlock(line, i);
          case Normal => i := InCode(line, i);
          case _ => i := InQuote(line, i);
        }
      }
      buf := buf + ['\n'];
    }

    method InQuote(line: string, i: nat) returns (next: nat)
      requires Valid() && i < |line| && IsQuote(state)
      modifies this`buf, this`state
      ensures Valid() && i < next <= |line|
      ensures ScanFrom(View(), line, next, state, inRegion, bs) ==
              ScanFrom(old(View()), line, i, old(state), inRegion, bs)
    {
      var c := line[i];
      buf := buf + [c];
      if bs && c == '\\' && state != Backtick && i + 1 < |line| {
        buf := buf + [line[i + 1]];
        return i + 2;
      }
      if c == QuoteChar(state) {
        state := Normal;
      }
      return i + 1;
    }

    method InBlock(line: string, i: nat) returns (next: nat)
      requires Valid() && i < |line| && state.BlockComment?
      modifies this`buf, this`state
      ensures Valid() && i < next <= |line|
      ensures ScanFrom(View(), line, next, state, inRegion, bs) ==
              ScanFrom(old(View()), line, i, old(state), inRegion, bs)
    {
      next := i;
      buf := buf + [line[i]];
      if Pair(line, i, '*', '/') {
        buf := buf + ['/'];
        state := Normal;
        next := next + 1;
      }
      next := next + 1;
    }

    method InCode(line: string, i: nat) returns (next: nat)
      requires Valid() && i < |line| && state.Normal?
      modifies this`buf, this`statements, this`chunks, this`state
      ensures Valid() && i < next <= |line|
      ensures ScanFrom(View(), line, next, state, inRegion, bs) ==
              ScanFrom(old(View()), line, i, old(state), inRegion, bs)
    {
      var c := line[i];
      if Pair(line, i, '-', '-') || (c == '#' && bs) {
        buf := buf + line[i..];
        return |line|;
      }
      if Pair(line, i, '/', '*') {
        buf := buf + ['/'] + ['*'];
        state := BlockComment;
        return i + 2;
      }
      if c == ';' && !inRegion {
        FlushBuffer(false);
        return i + 1;
      }
      buf := buf + [c];
      assert View() == Put(old(View()), c);
      if c == '\'' {
        state := SingleQuote;
      } else if c == '"' {
        state := DoubleQuote;
      } else if c == '`' {
        state := Backtick;
      }
      return i + 1;
    }

    ghost function Vars(): Loop
      reads this
    {
      Loop(state, inRegion, noTx, View())
    }

    /** One turn of parseScript's loop. */
    method TakeLine(line: string) returns (r: Result<()>)
      requires Valid()
      modifies this
      ensures Valid()
      ensures r.Ok? <==> LineStep(old(Vars()), line, bs).Ok?
      ensures r.Ok? ==> LineStep(old(Vars()), line, bs) == Ok(Vars())
      ensures r.Err? ==> LineStep(old(Vars()), line, bs) == Err(r.error)
    {
      var note := if state == Normal then Annotation(line) else NoNote;
      if note == NoNote {
        ScanLine(line);
        return Ok(());
      }
      r := TakeNote(note);
    }

    method TakeNote(note: Note) returns (r: Result<()>)
      requires Valid()
      modifies this
      ensures Valid()
      ensures r.Ok? <==> NoteStep(old(Vars()), note).Ok?
      ensures r.Ok? ==> NoteStep(old(Vars()), note) == Ok(Vars())
      ensures r.Err? ==> NoteStep(old(Vars()), note) == Err(r.error)
    {
      match note {
        case Unknown => return Err(UnknownAnnotation);
        case NoTransaction => noTx := true;
        case Begin =>
          if inRegion {
            return Err(NestedRegion);
          }
          FlushBuffer(false);
          inRegion := true;
        case End =>
          if !inRegion {
            return Err(StrayEnd);
          }
          inRegion := false;
          FlushBuffer(true);
        case NoNote =>
      }
      return Ok(());
    }

    method Run(src: string) returns (r: Result<Script>)
      requires Valid() && Vars() == FIRST
      modifies this
      ensures r == ParseScript(src, bs)
    {
      var lines := Lines(src);
      for n := 0 to |lines|
        invariant Valid()
        invariant ParseLines(lines[n..], Vars(), bs) == Parse(src, bs)
      {
        assert lines[n..][0] == lines[n] && lines[n..][1..] == lines[n + 1..];
        var taken := TakeLine(lines[n]);
        if taken.Err? {
          return Err(taken.error);
        }
      }
      if inRegion {
        return Err(UnclosedRegion);
      }
      if state != Normal {
        return Err(Unterminated);
      }
      FlushBuffer(false);
      return Ok(Script(statements, noTx));
    }
  }

  method Executable(s: string, hash: bool) returns (yes: bool)
    ensures yes == IsExecutable(s, hash)
  {
    var i, inBlock := 0, false;
    while i < |s|
      invariant 0 <= i <= |s|
      invariant ExecutableFrom(s, i, inBlock, hash) == IsExecutable(s, hash)
    {
      var r := s[i];
      if inBlock {
        if r == '*' && i + 1 < |s| && s[i + 1] == '/' {
          inBlock := false;
          i := i + 1;
        }
      } else if (r == '-' && i + 1 < |s| && s[i + 1] == '-') || (r == '#' && hash) {
        ghost var start := i;
        while i < |s| && s[i] != '\n'
          invariant start <= i <= |s|
          invariant LineEnd(s, i) == LineEnd(s, start)
        {
          i := i + 1;
        }
        if i == |s| {
          return false;
        }
      } else if r == '/' && i + 1 < |s| && s[i + 1] == '*' {
        inBlock := true;
        i := i + 1;
      } else if !IsSpace(r) {
        return true;
      }
      i := i + 1;
    }
    return false;
  }
}
