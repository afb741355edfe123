/** Every statement the scanner emits from outside a region parses again to exactly
    itself: trimming, line splitting and quote or comment state are all stable. */
module Reparse {
  import opened Scanner
  import opened Lexer

  // ---------------------------------------------------------------- buffers are whole

  lemma ModePut(s: string, c: char, bs: bool)
    ensures ModeAt(s + [c], |s| + 1, Code, bs) == Step(ModeAt(s, |s|, Code, bs), c, bs)
    ensures NoSemis(s, Code, bs) && !Semi(ModeAt(s, |s|, Code, bs), c) ==> NoSemis(s + [c], Code, bs)
  {
    ModeOfPrefix(s, [c], |s|, Code, bs);
    if NoSemis(s, Code, bs) && !Semi(ModeAt(s, |s|, Code, bs), c) {
      forall i | 0 <= i < |s| + 1 ensures !SemiAt(s + [c], i, Code, bs) {
        ModeOfPrefix(s, [c], i, Code, bs);
        assert i < |s| ==> !SemiAt(s, i, Code, bs);
      }
    }
  }

  /** Every flushed buffer from outside a region is whole. */
  ghost predicate ChunksWhole(chunks: seq<Chunk>, bs: bool) {
    forall k :: 0 <= k < |chunks| && !chunks[k].raw ==> Whole(chunks[k].text, bs)
  }

  /** The buffer read from the start leaves the automaton in mode m, no split missed. */
  ghost predicate InStep(out: Out, m: Mode, bs: bool) {
    ChunksWhole(out.chunks, bs) && NoSemis(out.buf, Code, bs) && ModeAt(out.buf, |out.buf|, Code, bs) == m
  }

  lemma FlushKeepsWhole(out: Out, m: Mode, bs: bool)
    requires InStep(out, m, bs) && Ended(m)
    ensures InStep(Flush(out, false), Code, bs)
  {
    forall k | 0 <= k < |out.chunks| + 1 && !Flush(out, false).chunks[k].raw
      ensures Whole(Flush(out, false).chunks[k].text, bs)
    {
    }
  }

  lemma {:induction false} DriveInStep(out: Out, t: string, i: nat, m: Mode, bs: bool)
    requires i <= |t| && InStep(out, m, bs)
    ensures var (out', m') := Drive(out, t, i, m, false, bs); InStep(out', m', bs)
    decreases |t| - i
  {
    if i >= |t| {
    } else {
      var c := t[i];
      if Semi(m, c) {
        FlushKeepsWhole(out, m, bs);
        DriveInStep(Flush(out, false), t, i + 1, Code, bs);
      } else {
        ModePut(out.buf, c, bs);
        DriveInStep(Put(out, c), t, i + 1, Step(m, c, bs), bs);
      }
    }
  }

  lemma {:induction false} DriveRegionKeeps(out: Out, t: string, i: nat, m: Mode, bs: bool)
    requires i <= |t|
    ensures Drive(out, t, i, m, true, bs).0.chunks == out.chunks
    decreases |t| - i
  {
    if i >= |t| {
    } else {
      DriveRegionKeeps(Put(out, t[i]), t, i + 1, Step(m, t[i], bs), bs);
    }
  }

  ghost predicate LoopWhole(p: Loop, bs: bool) {
    ChunksWhole(p.out.chunks, bs) && (!p.region ==> InStep(p.out, Embed(p.st), bs))
  }

  lemma PlainLineKeepsWhole(p: Loop, line: string, bs: bool)
    requires '\n' !in line && LoopWhole(p, bs)
    ensures var (out, st) := ScanFrom(p.out, line, 0, p.st, p.region, bs);
      LoopWhole(p.(out := out, st := st), bs)
  {
    ScanIsDrive(p.out, line, 0, p.st, Embed(p.st), p.region, bs);
    if p.region {
      DriveRegionKeeps(p.out, line + "\n", 0, Embed(p.st), bs);
    } else {
      DriveInStep(p.out, line + "\n", 0, Embed(p.st), bs);
    }
  }

  lemma RegionEndKeepsWhole(out: Out, bs: bool)
    requires ChunksWhole(out.chunks, bs)
    ensures InStep(Flush(out, true), Code, bs)
  {
  }

  lemma LineKeepsWhole(p: Loop, line: string, bs: bool)
    requires '\n' !in line && LoopWhole(p, bs) && LineStep(p, line, bs).Ok?
    ensures LoopWhole(LineStep(p, line, bs).value, bs)
  {
    if p.st == Normal && Annotation(line) != NoNote {
      if Annotation(line) == Begin {
        FlushKeepsWhole(p.out, Code, bs);
      } else if Annotation(line) == End {
        RegionEndKeepsWhole(p.out, bs);
      }
    } else {
      PlainLineKeepsWhole(p, line, bs);
    }
  }

  lemma {:induction false} FileKeepsWhole(lines: seq<string>, p: Loop, bs: bool)
    requires Unbroken(lines) && LoopWhole(p, bs) && ParseLines(lines, p, bs).Ok?
    ensures ChunksWhole(ParseLines(lines, p, bs).value.out.chunks, bs)
    decreases |lines|
  {
    if lines == [] {
      FlushKeepsWhole(p.out, Code, bs);
    } else {
      LineKeepsWhole(p, lines[0], bs);
      FileKeepsWhole(lines[1..], LineStep(p, lines[0], bs).value, bs);
    }
  }

  // ---------------------------------------------------------------- trimming

  lemma {:induction false} ModeOfSlice(s: string, a: nat, b: nat, n: nat, bs: bool)
    requires a + n <= b <= |s| && ModeAt(s, a, Code, bs) == Code
    ensures ModeAt(s[a..b], n, Code, bs) == ModeAt(s, a + n, Code, bs)
  {
    if n == 0 {
    } else {
      ModeOfSlice(s, a, b, n - 1, bs);
    }
  }

  /** White space never closes a quote or a block comment. */
  lemma {:induction false} SpacesKeepOpen(s: string, b: nat, n: nat, bs: bool)
    requires b <= n <= |s| && (forall k :: b <= k < n ==> IsSpace(s[k])) && !Ended(ModeAt(s, b, Code, bs))
    requires QuotesOnly(ModeAt(s, b, Code, bs))
    ensures !Ended(ModeAt(s, n, Code, bs)) && QuotesOnly(ModeAt(s, n, Code, bs))
  {
    if b >= n {
    } else {
      SpacesKeepOpen(s, b, n - 1, bs);
    }
  }

  predicate QuotesOnly(m: Mode) {
    (m.Quote? ==> !IsSpace(m.q)) && (m.Escape? ==> !IsSpace(m.q))
  }

  lemma {:induction false} OnlyQuotes(s: string, n: nat, bs: bool)
    requires n <= |s|
    ensures QuotesOnly(ModeAt(s, n, Code, bs))
  {
    if n == 0 {
    } else {
      OnlyQuotes(s, n - 1, bs);
    }
  }

  lemma TrimKeepsWhole(s: string, bs: bool)
    requires Whole(s, bs) && Trim(s) != ""
    ensures Whole(Trim(s), bs)
  {
    var a, b := TrimShape(s);
    SpacesStayCode(s, a, bs);
    var t := s[a..b];
    forall i | 0 <= i < |t| ensures !SemiAt(t, i, Code, bs) {
      ModeOfSlice(s, a, b, i, bs);
      assert !SemiAt(s, a + i, Code, bs);
    }
    ModeOfSlice(s, a, b, b - a, bs);
    if !Ended(ModeAt(s, b, Code, bs)) {
      OnlyQuotes(s, b, bs);
      SpacesKeepOpen(s, b, |s|, bs);
    }
  }

  lemma TrimOfTight(t: string)
    requires t != "" && !IsSpace(t[0]) && !IsSpace(t[|t| - 1])
    ensures Trim(t) == t && Trim(t + "\n") == t
  {
    var u := t + "\n";
    assert SkipSpace(u, 0) == 0;
    assert DropSpace(u, |u|) == DropSpace(u, |t|) == |t|;
    assert u[0..|t|] == t && t[0..|t|] == t;
  }

  lemma TrimIsTight(s: string)
    requires Trim(s) != ""
    ensures var t := Trim(s); !IsSpace(t[0]) && !IsSpace(t[|t| - 1])
  {
    var a, b := TrimShape(s);
  }

  // ---------------------------------------------------------------- lines of a statement

  ghost predicate Plain(lines: seq<string>) {
    forall k :: 0 <= k < |lines| ==> !Contains(lines[k], MARKER)
  }

  lemma SliceOfSlice(s: string, a: nat, b: nat, i: nat, j: nat)
    requires a <= b <= |s| && i <= j <= b - a
    ensures s[a..b][i..j] == s[a + i..a + j]
  {
    var x, y := s[a..b][i..j], s[a + i..a + j];
    assert |x| == |y| && forall k :: 0 <= k < |x| ==> x[k] == y[k];
  }

  lemma ContainsInside(s: string, a: nat, b: nat, sub: string)
    requires a <= b <= |s|
    ensures Contains(s[a..b], sub) ==> Contains(s, sub)
  {
    if Contains(s[a..b], sub) {
      var i :| 0 <= i <= |s[a..b]| && OccursAt(s[a..b], sub, i);
      SliceOfSlice(s, a, b, i, i + |sub|);
      assert OccursAt(s, sub, a + i);
    }
  }

  lemma PrefixHoldsMarker(t: string)
    ensures PREFIX <= t ==> Contains(t, MARKER)
  {
    if PREFIX <= t {
      assert PREFIX[3..14] == MARKER && |PREFIX| == 14;
      assert t[0..14] == PREFIX;
      SliceOfSlice(t, 0, 14, 3, 14);
      assert t[3..14] == MARKER;
      assert OccursAt(t, MARKER, 3);
    }
  }

  lemma PlainLineHasNoNote(line: string)
    requires !Contains(line, MARKER)
    ensures Annotation(line) == NoNote
  {
    var t := Trim(line);
    PrefixHoldsMarker(t);
    if t != "" {
      var a, b := TrimShape(line);
      ContainsInside(line, a, b, MARKER);
    } else {
      assert !OccursAt(t, MARKER, 0);
    }
  }

  lemma {:induction false} LinesArePlain(src: string, from: nat, i: nat)
    requires from <= i <= |src| && !Contains(src, MARKER)
    ensures Plain(LinesFrom(src, from, i))
    decreases |src| - i
  {
    if i == |src| {
      ContainsInside(src, from, |src|, MARKER);
      assert src[from..|src|] == src[from..];
    } else if src[i] == '\n' {
      ContainsInside(src, from, i, MARKER);
      LinesArePlain(src, i + 1, i + 1);
      var rest := LinesFrom(src, i + 1, i + 1);
      forall k | 0 <= k < |rest| + 1 ensures !Contains(([src[from..i]] + rest)[k], MARKER) {
        assert k > 0 ==> ([src[from..i]] + rest)[k] == rest[k - 1];
      }
    } else {
      LinesArePlain(src, from, i + 1);
    }
  }

  // ---------------------------------------------------------------- parsing one statement

  lemma {:induction false} DriveKeeps(out: Out, t: string, i: nat, m: Mode, bs: bool)
    requires i <= |t| && NoSemis(t, m, bs)
    ensures Drive(out, t, i, ModeAt(t, i, m, bs), false, bs) ==
            (out.(buf := out.buf + t[i..]), ModeAt(t, |t|, m, bs))
    decreases |t| - i
  {
    if i == |t| {
      assert out.buf + t[i..] == out.buf;
    } else {
      assert !SemiAt(t, i, m, bs);
      DriveKeeps(Put(out, t[i]), t, i + 1, m, bs);
      assert out.buf + [t[i]] + t[i + 1..] == out.buf + t[i..];
    }
  }

  lemma NoSemisBefore(t: string, u: string, m: Mode, bs: bool)
    requires NoSemis(t + u, m, bs)
    ensures NoSemis(t, m, bs)
  {
    forall i | 0 <= i < |t| ensures !SemiAt(t, i, m, bs) {
      ModeOfPrefix(t, u, i, m, bs);
      assert !SemiAt(t + u, i, m, bs);
    }
  }

  lemma NoSemisAfter(t: string, u: string, m: Mode, bs: bool)
    requires NoSemis(t + u, m, bs)
    ensures NoSemis(u, ModeAt(t, |t|, m, bs), bs)
  {
    forall i | 0 <= i < |u| ensures !SemiAt(u, i, ModeAt(t, |t|, m, bs), bs) {
      ModeOfSuffix(t, u, i, m, bs);
      assert !SemiAt(t + u, |t| + i, m, bs);
    }
  }

  lemma ModeJoins(t: string, u: string, n: nat, m: Mode, bs: bool)
    requires n == |t| + |u|
    ensures ModeAt(t + u, n, m, bs) == ModeAt(u, |u|, ModeAt(t, |t|, m, bs), bs)
  {
    ModeOfSuffix(t, u, |u|, m, bs);
  }

  lemma PlainLineStep(p: Loop, line: string, bs: bool)
    requires !p.region && '\n' !in line && !Contains(line, MARKER) && NoSemis(line + "\n", Embed(p.st), bs)
    ensures LineStep(p, line, bs).Ok?
    ensures var p' := LineStep(p, line, bs).value;
      && Embed(p'.st) == ModeAt(line + "\n", |line| + 1, Embed(p.st), bs)
      && p' == Loop(p'.st, false, p.noTx, Append(p.out, line + "\n"))
  {
    PlainLineHasNoNote(line);
    var t := line + "\n";
    ScanIsDrive(p.out, line, 0, p.st, Embed(p.st), false, bs);
    DriveKeeps(p.out, t, 0, Embed(p.st), bs);
    assert t[0..] == t;
  }

  function Append(out: Out, t: string): Out { out.(buf := out.buf + t) }

  lemma AppendTwice(out: Out, t: string, u: string)
    ensures Append(Append(out, t), u) == Append(out, t + u)
  {
    assert out.buf + t + u == out.buf + (t + u);
  }

  lemma {:induction false} PlainParse(lines: seq<string>, p: Loop, bs: bool)
    requires Unbroken(lines) && Plain(lines) && !p.region && NoSemis(Text(lines), Embed(p.st), bs)
    requires ModeAt(Text(lines), |Text(lines)|, Embed(p.st), bs) == Code
    ensures ParseLines(lines, p, bs) ==
            Ok(Loop(Normal, false, p.noTx, Flush(Append(p.out, Text(lines)), false)))
    decreases |lines|
  {
    if lines == [] {
      assert Append(p.out, "") == p.out;
    } else {
      var line, rest := lines[0], lines[1..];
      NoSemisBefore(line + "\n", Text(rest), Embed(p.st), bs);
      NoSemisAfter(line + "\n", Text(rest), Embed(p.st), bs);
      ModeJoins(line + "\n", Text(rest), |Text(lines)|, Embed(p.st), bs);
      PlainLineStep(p, line, bs);
      var p' := LineStep(p, line, bs).value;
      PlainParse(rest, p', bs);
      AppendTwice(p.out, line + "\n", Text(rest));
    }
  }

  lemma WholeTextParses(t: string, bs: bool)
    requires Whole(t, bs) && !Contains(t, MARKER)
    ensures Parse(t, bs) == Ok(Loop(Normal, false, false, Out("", [Chunk(t + "\n", false)])))
  {
    LinesRejoin(t, 0, 0);
    assert t[0..] == t;
    LinesArePlain(t, 0, 0);
    ModePut(t, '\n', bs);
    PlainParse(Lines(t), FIRST, bs);
    assert "" + Text(Lines(t)) == t + "\n";
    assert [] + [Chunk(t + "\n", false)] == [Chunk(t + "\n", false)];
  }

  lemma OneStatement(chunk: Chunk, bs: bool)
    requires IsExecutable(Trim(chunk.text), bs)
    ensures Statements([chunk], bs) == [Trim(chunk.text)]
  {
    assert [chunk][..0] == [];
  }

  /** A whole, trimmed, executable text without annotation words is one statement. */
  lemma WholeParsesToItself(t: string, bs: bool)
    requires Whole(t, bs) && t != "" && !IsSpace(t[0]) && !IsSpace(t[|t| - 1])
    requires !Contains(t, MARKER) && IsExecutable(t, bs)
    ensures ParseScript(t, bs) == Ok(Script([t], false))
  {
    WholeTextParses(t, bs);
    TrimOfTight(t);
    OneStatement(Chunk(t + "\n", false), bs);
  }

  // ---------------------------------------------------------------- the theorem

  /** The k-th flushed buffer of a script yields a statement. */
  predicate Emitted(chunks: seq<Chunk>, k: nat, bs: bool) {
    k < |chunks| && IsExecutable(Trim(chunks[k].text), bs)
  }

  lemma StatementsOfSnoc(rest: seq<Chunk>, chunk: Chunk, bs: bool)
    ensures Statements(rest + [chunk], bs) ==
            Statements(rest, bs) + if IsExecutable(Trim(chunk.text), bs) then [Trim(chunk.text)] else []
  {
    assert (rest + [chunk])[..|rest|] == rest;
  }

  lemma {:induction false} EmittedAreTheStatements(chunks: seq<Chunk>, k: nat, bs: bool)
    requires Emitted(chunks, k, bs)
    ensures Trim(chunks[k].text) in Statements(chunks, bs)
  {
    var rest, last := chunks[..|chunks| - 1], chunks[|chunks| - 1];
    assert chunks == rest + [last];
    StatementsOfSnoc(rest, last, bs);
    if k >= |rest| {
    } else {
      EmittedAreTheStatements(rest, k, bs);
    }
  }

  /** Conversely every statement is some emitted buffer, trimmed. */
  lemma {:induction false} StatementComesFromABuffer(chunks: seq<Chunk>, stmt: string, bs: bool) returns (k: nat)
    requires stmt in Statements(chunks, bs)
    ensures Emitted(chunks, k, bs) && Trim(chunks[k].text) == stmt
  {
    var rest, last := chunks[..|chunks| - 1], chunks[|chunks| - 1];
    assert chunks == rest + [last];
    StatementsOfSnoc(rest, last, bs);
    if stmt in Statements(rest, bs) {
      k := StatementComesFromABuffer(rest, stmt, bs);
    } else {
      k := |rest|;
    }
  }

  lemma WholeBufferReparses(text: string, bs: bool)
    requires Whole(text, bs) && IsExecutable(Trim(text), bs) && !Contains(Trim(text), MARKER)
    ensures ParseScript(Trim(text), bs) == Ok(Script([Trim(text)], false))
  {
    TrimKeepsWhole(text, bs);
    TrimIsTight(text);
    WholeParsesToItself(Trim(text), bs);
  }

  lemma ParsedBuffersAreWhole(src: string, bs: bool)
    requires Parse(src, bs).Ok?
    ensures ChunksWhole(Parse(src, bs).value.out.chunks, bs)
  {
    LinesRejoin(src, 0, 0);
    FileKeepsWhole(Lines(src), FIRST, bs);
  }

  /** Every statement emitted from outside a region that contains no annotation word
      parses again, under the same dialect, to exactly itself as a single statement. */
  lemma StatementsParseToThemselves(src: string, bs: bool, k: nat)
    requires Parse(src, bs).Ok? && Emitted(Parse(src, bs).value.out.chunks, k, bs)
    requires var chunk := Parse(src, bs).value.out.chunks[k];
      !chunk.raw && !Contains(Trim(chunk.text), MARKER)
    ensures var stmt := Trim(Parse(src, bs).value.out.chunks[k].text);
      && stmt in ParseScript(src, bs).value.statements
      && ParseScript(stmt, bs) == Ok(Script([stmt], false))
  {
    var chunks := Parse(src, bs).value.out.chunks;
    EmittedAreTheStatements(chunks, k, bs);
    ParsedBuffersAreWhole(src, bs);
    WholeBufferReparses(chunks[k].text, bs);
  }

  // ---------------------------------------------------------------- what is executable

  /** Reading c in mode m shows text that is neither white space nor comment; in Dash
      and Slash the character before it turns out to be such text. */
  predicate Reveals(m: Mode, c: char, bs: bool) {
    match m
    case Code => !IsSpace(c) && !Step(m, c, bs).Dash? && !Step(m, c, bs).Slash? && !Step(m, c, bs).Comment?
    case Dash => c != '-'
    case Slash => c != '*'
    case Quote(_) => true
    case Escape(_) => true
    case _ => false
  }

  /** The automaton, reading on from i in mode m, meets something to execute. */
  function Shows(s: string, i: nat, m: Mode, bs: bool): bool
    requires i <= |s|
    decreases |s| - i
  {
    if i == |s| then m.Dash? || m.Slash?
    else Reveals(m, s[i], bs) || Shows(s, i + 1, Step(m, s[i], bs), bs)
  }

  lemma {:induction false} CommentShowsNothing(s: string, i: nat, bs: bool)
    requires i <= |s|
    ensures var j := LineEnd(s, i);
      Shows(s, i, Comment, bs) == (j < |s| && Shows(s, j + 1, Code, bs))
    decreases |s| - i
  {
    if i == |s| || s[i] == '\n' {
    } else {
      CommentShowsNothing(s, i + 1, bs);
    }
  }

  lemma {:induction false} BlockShows(s: string, i: nat, m: Mode, bs: bool)
    requires i <= |s| && (m.Block? || (m.Star? && (i < |s| ==> s[i] != '/')))
    ensures ExecutableFrom(s, i, true, bs) == Shows(s, i, m, bs)
    decreases |s| - i
  {
    if i >= |s| {
    } else {
      if s[i] == '*' && i + 1 < |s| && s[i + 1] == '/' {
        assert Shows(s, i, m, bs) == Shows(s, i + 1, Star, bs) == Shows(s, i + 2, Code, bs);
        CodeShows(s, i + 2, bs);
      } else {
        BlockShows(s, i + 1, Step(m, s[i], bs), bs);
      }
    }
  }

  lemma {:induction false} CodeShows(s: string, i: nat, bs: bool)
    requires i <= |s|
    ensures ExecutableFrom(s, i, false, bs) == Shows(s, i, Code, bs)
    decreases |s| - i
  {
    if i >= |s| {
    } else {
      if s[i] == '-' && i + 1 < |s| && s[i + 1] == '-' {
        DashesShow(s, i, bs);
      } else if s[i] == '#' && bs {
        assert Shows(s, i, Code, bs) == Shows(s, i + 1, Comment, bs);
        CommentShowsNothing(s, i + 1, bs);
        assert LineEnd(s, i) == LineEnd(s, i + 1);
        RestShows(s, LineEnd(s, i), bs);
      } else if s[i] == '/' && i + 1 < |s| && s[i + 1] == '*' {
        assert Shows(s, i, Code, bs) == Shows(s, i + 1, Slash, bs) == Shows(s, i + 2, Block, bs);
        BlockShows(s, i + 2, Block, bs);
      } else if IsSpace(s[i]) {
        CodeShows(s, i + 1, bs);
      } else {
        assert i + 1 < |s| ==> Reveals(Code, s[i], bs) || Reveals(Step(Code, s[i], bs), s[i + 1], bs);
      }
    }
  }

  lemma {:induction false} DashesShow(s: string, i: nat, bs: bool)
    requires i + 1 < |s| && s[i] == s[i + 1] == '-'
    ensures ExecutableFrom(s, i, false, bs) == Shows(s, i, Code, bs)
    decreases |s| - i, 0
  {
    assert Shows(s, i, Code, bs) == Shows(s, i + 1, Dash, bs) == Shows(s, i + 2, Comment, bs);
    CommentShowsNothing(s, i + 2, bs);
    assert LineEnd(s, i) == LineEnd(s, i + 1) == LineEnd(s, i + 2);
    RestShows(s, LineEnd(s, i), bs);
  }

  lemma {:induction false} RestShows(s: string, j: nat, bs: bool)
    requires j <= |s|
    ensures j < |s| ==> ExecutableFrom(s, j + 1, false, bs) == Shows(s, j + 1, Code, bs)
    decreases |s| - j, 0
  {
    if j < |s| {
      CodeShows(s, j + 1, bs);
    }
  }

  /** The two hand-written lexers agree: a statement is executable exactly when the
      splitting automaton reads something in it besides comments and white space. */
  lemma ExecutableIsWhatTheLexerShows(s: string, bs: bool)
    ensures IsExecutable(s, bs) <==> Shows(s, 0, Code, bs)
  {
    CodeShows(s, 0, bs);
  }
}
