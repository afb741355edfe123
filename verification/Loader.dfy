/** Migration filenames and the loader of cli/migrationx/load.go. */
module Loader {
  import opened Common
  import Scanner

  datatype Error =
    | StrayFile | BadName | BadVersion | DuplicateVersion | DownWithoutUp | Unreadable
    | BadScript(error: Scanner.Error)

  datatype Result<+T> = Ok(value: T) | Err(error: Error)

  const MAX_INT64 := 0x7FFF_FFFF_FFFF_FFFF

  // ---------------------------------------------------------------- decimal numbers

  predicate IsDigit(c: char) { '0' <= c <= '9' }

  function DigitOf(d: nat): char
    requires d < 10
  {
    '0' + d as char
  }

  function DigitValue(c: char): nat
    requires IsDigit(c)
  {
    (c - '0') as nat
  }

  /** strconv.FormatInt(n, 10) of a natural number. */
  function Decimal(n: nat): (s: string)
    ensures s != "" && AllDigits(s)
  {
    if n < 10 then [DigitOf(n)] else Decimal(n / 10) + [DigitOf(n % 10)]
  }

  predicate AllDigits(s: string) { forall i :: 0 <= i < |s| ==> IsDigit(s[i]) }

  function ValueOf(s: string): nat
    requires AllDigits(s)
  {
    if s == "" then 0 else ValueOf(s[..|s| - 1]) * 10 + DigitValue(s[|s| - 1])
  }

  /** strconv.ParseInt(s, 10, 64): an optional sign, then digits, within 64 bits. */
  function ParseInt64(s: string): Option<int> {
    var negative := "-" <= s;
    var digits := if negative || "+" <= s then s[1..] else s;
    if digits == "" || !AllDigits(digits) then None
    else if negative then
      var v: int := ValueOf(digits);
      if v > MAX_INT64 + 1 then None else Some(-v)
    else if ValueOf(digits) > MAX_INT64 then None
    else Some(ValueOf(digits))
  }

  lemma {:induction false} DecimalValue(n: nat)
    ensures ValueOf(Decimal(n)) == n
  {
    var s := Decimal(n);
    if n < 10 {
      assert s[..0] == "";
    } else {
      DecimalValue(n / 10);
      assert s[..|s| - 1] == Decimal(n / 10);
    }
  }

  lemma ParseDecimal(n: nat)
    requires n <= MAX_INT64
    ensures ParseInt64(Decimal(n)) == Some(n)
  {
    var s := Decimal(n);
    assert IsDigit(s[0]);
    DecimalValue(n);
  }

  // ---------------------------------------------------------------- filenames

  datatype Half = Half(version: int, name: string, down: bool)

  predicate NameChar(c: char) { 'a' <= c <= 'z' || '0' <= c <= '9' || c == '_' }

  predicate ValidName(name: string) {
    name != "" && forall i :: 0 <= i < |name| ==> NameChar(name[i])
  }

  /** strings.CutSuffix. */
  function CutSuffix(s: string, suffix: string): Option<string> {
    if |suffix| <= |s| && s[|s| - |suffix|..] == suffix then Some(s[..|s| - |suffix|]) else None
  }

  /** strings.Cut(s, "_"): what stands before and after the first underscore. */
  function CutUnderscore(s: string, i: nat := 0): Option<(string, string)>
    requires i <= |s|
    decreases |s| - i
  {
    if i == |s| then None
    else if s[i] == '_' then Some((s[..i], s[i + 1..]))
    else CutUnderscore(s, i + 1)
  }

  function ParseStem(rest: string, down: bool): Result<Half> {
    match CutUnderscore(rest)
    case None => Err(StrayFile)
    case Some((versionText, name)) =>
      if name == "" then Err(StrayFile)
      else
        match ParseInt64(versionText)
        case None => Err(BadVersion)
        case Some(version) =>
          if version <= 0 || versionText != Decimal(version) then Err(BadVersion)
          else if !ValidName(name) then Err(BadName)
          else Ok(Half(version, name, down))
  }

  /** parseFilename. */
  function ParseFilename(filename: string): Result<Half> {
    match CutSuffix(filename, ".sql")
    case None => Err(StrayFile)
    case Some(rest) =>
      match CutSuffix(rest, ".down")
      case Some(stem) => ParseStem(stem, true)
      case None =>
        match CutSuffix(rest, ".up")
        case Some(stem) => ParseStem(stem, false)
        case None => Err(StrayFile)
  }

  /** The name the loader re-opens a half under. */
  function Filename(h: Half): string
    requires h.version >= 0
  {
    Decimal(h.version) + "_" + h.name + (if h.down then ".down" else ".up") + ".sql"
  }

  predicate ValidHalf(h: Half) { 0 < h.version <= MAX_INT64 && ValidName(h.name) }

  lemma CutSuffixOf(s: string, suffix: string)
    ensures CutSuffix(s + suffix, suffix) == Some(s)
  {
    assert (s + suffix)[|s|..] == suffix;
    assert (s + suffix)[..|s|] == s;
  }

  lemma CutSuffixJoins(s: string, suffix: string)
    ensures CutSuffix(s, suffix).Some? ==> s == CutSuffix(s, suffix).value + suffix
  {
  }

  lemma {:induction false} CutUnderscoreOf(a: string, b: string, i: nat)
    requires i <= |a| && AllDigits(a)
    ensures CutUnderscore(a + "_" + b, i) == Some((a, b))
    decreases |a| - i
  {
    var s := a + "_" + b;
    if i < |a| {
      assert s[i] == a[i] && IsDigit(a[i]);
      CutUnderscoreOf(a, b, i + 1);
    } else {
      assert s[..i] == a && s[i + 1..] == b;
    }
  }

  lemma {:induction false} CutUnderscoreJoins(s: string, i: nat)
    requires i <= |s|
    ensures CutUnderscore(s, i).Some? ==>
              s == CutUnderscore(s, i).value.0 + "_" + CutUnderscore(s, i).value.1
    decreases |s| - i
  {
    if i == |s| || s[i] == '_' {
    } else {
      CutUnderscoreJoins(s, i + 1);
    }
  }

  lemma StemRoundTrip(h: Half)
    requires ValidHalf(h)
    ensures ParseStem(Decimal(h.version) + "_" + h.name, h.down) == Ok(h)
  {
    CutUnderscoreOf(Decimal(h.version), h.name, 0);
    ParseDecimal(h.version);
  }

  /** Parsing undoes printing. */
  lemma ParseOfFilename(h: Half)
    requires ValidHalf(h)
    ensures ParseFilename(Filename(h)) == Ok(h)
  {
    var stem := Decimal(h.version) + "_" + h.name;
    var rest := stem + (if h.down then ".down" else ".up");
    assert Filename(h) == rest + ".sql";
    CutSuffixOf(rest, ".sql");
    CutSuffixOf(stem, if h.down then ".down" else ".up");
    if !h.down {
      assert rest[|rest| - 1] == 'p';
      CutSuffixJoins(rest, ".down");
      assert CutSuffix(rest, ".down").None?;
    }
    StemRoundTrip(h);
  }

  /** Printing undoes parsing, so the file the loader re-opens is the one listed. */
  lemma FilenameOfParse(filename: string)
    requires ParseFilename(filename).Ok?
    ensures var h := ParseFilename(filename).value; ValidHalf(h) && Filename(h) == filename
  {
    var h := ParseFilename(filename).value;
    CutSuffixJoins(filename, ".sql");
    var rest := CutSuffix(filename, ".sql").value;
    CutSuffixJoins(rest, ".down");
    CutSuffixJoins(rest, ".up");
    var stem := if h.down then CutSuffix(rest, ".down").value else CutSuffix(rest, ".up").value;
    CutUnderscoreJoins(stem, 0);
    assert stem == Decimal(h.version) + "_" + h.name;
    assert filename == stem + (if h.down then ".down" else ".up") + ".sql";
  }

  // ---------------------------------------------------------------- loading

  /** checksum is the digest of the raw up file. */
  datatype Migration = Migration(
    version: int, name: string, checksum: string, up: Scanner.Script, down: Option<Scanner.Script>)

  datatype Entry = Entry(name: string, isDir: bool)

  /** The file name of a positive version within 64 bits and a name of small letters, digits
      and underscores. */
  ghost predicate Names(filename: string, h: Half) {
    && 0 < h.version <= 9_223_372_036_854_775_807
    && h.name != ""
    && (forall i :: 0 <= i < |h.name| ==>
          var c := h.name[i]; 'a' <= c <= 'z' || '0' <= c <= '9' || c == '_')
    && filename == Decimal(h.version) + "_" + h.name + (if h.down then ".down.sql" else ".up.sql")
  }

  /** Exactly the names of that form are accepted, each for the half it names. */
  lemma AcceptsExactly(filename: string, h: Half)
    ensures ParseFilename(filename) == Ok(h) <==> Names(filename, h)
  {
    if ParseFilename(filename) == Ok(h) {
      FilenameOfParse(filename);
      assert Filename(h) == Decimal(h.version) + "_" + h.name + (if h.down then ".down.sql" else ".up.sql");
    }
    if Names(filename, h) {
      ParseOfFilename(h);
      assert Filename(h) == filename;
    }
  }

  /** What the loader reads: a directory listing, the contents of its files, the
      dialect's escape rule and the digest. */
  datatype Source = Source(files: map<string, string>, bs: bool, digest: string -> string)

  predicate Readable(src: Source, h: Half)
    requires h.version >= 0
  {
    Filename(h) in src.files && Scanner.ParseScript(src.files[Filename(h)], src.bs).Ok?
  }

  function ScriptOf(src: Source, h: Half): Scanner.Script
    requires h.version >= 0 && Readable(src, h)
  {
    Scanner.ParseScript(src.files[Filename(h)], src.bs).value
  }

  ghost predicate AllParse(listing: seq<Entry>) {
    forall i :: 0 <= i < |listing| ==> !listing[i].isDir && ParseFilename(listing[i].name).Ok?
  }

  /** The half named by a filename is on the list. */
  ghost predicate Listed(listing: seq<Entry>, h: Half) {
    exists i :: 0 <= i < |listing| && !listing[i].isDir && ParseFilename(listing[i].name) == Ok(h)
  }

  ghost function HalvesOf(listing: seq<Entry>): (halves: seq<Half>)
    requires AllParse(listing)
    ensures |halves| == |listing|
    ensures forall i :: 0 <= i < |listing| ==> Ok(halves[i]) == ParseFilename(listing[i].name)
  {
    seq(|listing|, i requires 0 <= i < |listing| => ParseFilename(listing[i].name).value)
  }

  /** When a directory loads, said of which files it holds and not of their order. */
  ghost predicate Loadable(src: Source, listing: seq<Entry>) {
    && AllParse(listing)
    && (forall h :: Listed(listing, h) ==> h.version >= 0 && Readable(src, h))
    && (forall g, h :: Listed(listing, g) && Listed(listing, h) && !g.down && !h.down && g.version == h.version ==>
        g == h)
    && (forall h :: Listed(listing, h) && h.down ==> Listed(listing, h.(down := false)))
  }

  /** Entry n is the first of the listing that is no migration file, for this reason. */
  ghost predicate FirstBad(listing: seq<Entry>, n: nat, error: Error) {
    && n < |listing| && AllParse(listing[..n])
    && if listing[n].isDir then error == StrayFile else ParseFilename(listing[n].name) == Err(error)
  }

  /** The half cannot be read, for this reason. */
  ghost predicate Spoils(src: Source, h: Half, error: Error) {
    && h.version >= 0
    && if Filename(h) !in src.files then error == Unreadable
       else
         var parsed := Scanner.ParseScript(src.files[Filename(h)], src.bs);
         parsed.Err? && error == BadScript(parsed.error)
  }

  predicate Before(g: Half, h: Half) {
    if g.down != h.down then !g.down else g.version <= h.version
  }

  /** The loader's order: ups first, then by version, and as listed within a version. */
  ghost predicate Earlier(halves: seq<Half>, g: Half, h: Half) {
    && Before(g, h)
    && (Before(h, g) ==> exists i, j :: 0 <= i < j < |halves| && halves[i] == g && halves[j] == h)
  }

  /** What the loader has against a half when its turn comes: it cannot be read; it is a
      second up of its version; it is a down without its up. */
  ghost predicate Fault(src: Source, halves: seq<Half>, h: Half, error: Error) {
    || Spoils(src, h, error)
    || (h.version >= 0 && Readable(src, h) &&
        if h.down then error == DownWithoutUp && h.(down := false) !in halves
        else
          error == DuplicateVersion &&
          exists g :: g in halves && !g.down && g.version == h.version && Earlier(halves, g, h))
  }

  ghost predicate FirstFault(src: Source, halves: seq<Half>, h: Half, error: Error) {
    && h in halves && Fault(src, halves, h, error)
    && forall g, e :: g in halves && Earlier(halves, g, h) ==> !Fault(src, halves, g, e)
  }

  /** The error is that of the first bad entry if one is bad, and otherwise that of the
      first file at fault. */
  ghost predicate Blames(src: Source, listing: seq<Entry>, error: Error) {
    if !AllParse(listing) then exists n :: FirstBad(listing, n, error)
    else exists h :: FirstFault(src, HalvesOf(listing), h, error)
  }

  ghost predicate Ascending(ms: seq<Migration>) {
    forall i, j :: 0 <= i < j < |ms| ==> ms[i].version < ms[j].version
  }

  function UpOf(m: Migration): Half { Half(m.version, m.name, false) }
  function DownOf(m: Migration): Half { Half(m.version, m.name, true) }

  /** A migration is exactly its listed files. */
  ghost predicate Faithful(src: Source, listing: seq<Entry>, m: Migration) {
    && Listed(listing, UpOf(m)) && m.version >= 0 && Readable(src, UpOf(m))
    && m.up == ScriptOf(src, UpOf(m))
    && m.checksum == src.digest(src.files[Filename(UpOf(m))])
    && (m.down.Some? <==> Listed(listing, DownOf(m)))
    && (m.down.Some? ==> Readable(src, DownOf(m)) && m.down.value == ScriptOf(src, DownOf(m)))
  }

  /** The migrations are the listed files: in strictly ascending order, each with the
      down script of the same version and name, none dropped. */
  ghost predicate Loaded(src: Source, listing: seq<Entry>, ms: seq<Migration>) {
    && Ascending(ms)
    && (forall i :: 0 <= i < |ms| ==> Faithful(src, listing, ms[i]))
    && (forall h :: Listed(listing, h) && !h.down ==> exists i :: 0 <= i < |ms| && UpOf(ms[i]) == h)
  }

  /** A directory listing names each file once. */
  ghost predicate Distinct(listing: seq<Entry>) {
    forall i, j :: 0 <= i < j < |listing| ==> listing[i].name != listing[j].name
  }

  ghost predicate DistinctHalves(s: seq<Half>) {
    forall i, j :: 0 <= i < j < |s| ==> s[i] != s[j]
  }

  /** s is in order as far as the first n of the given halves go. */
  ghost predicate Arranged(halves: seq<Half>, n: nat, s: seq<Half>)
    requires n <= |halves|
  {
    && DistinctHalves(s)
    && (forall h :: h in s <==> h in halves[..n])
    && forall i, j :: 0 <= i < j < |s| ==> Earlier(halves, s[i], s[j])
  }

  lemma InsertHalf(halves: seq<Half>, n: nat, s: seq<Half>, i: nat)
    requires DistinctHalves(halves) && n < |halves| && Arranged(halves, n, s) && i <= |s|
    requires forall j :: 0 <= j < i ==> Before(s[j], halves[n])
    requires i < |s| ==> !Before(s[i], halves[n])
    ensures Arranged(halves, n + 1, Inserted(s, i, halves[n]))
  {
    var h := halves[n];
    InsertedAt(s, i, h);
    assert h !in halves[..n] && halves[..n + 1] == halves[..n] + [h];
    forall j | 0 <= j < i ensures Earlier(halves, s[j], h) {
      assert s[j] in halves[..n];
    }
    forall j | i <= j < |s| ensures Earlier(halves, h, s[j]) {
      assert i < j ==> Earlier(halves, s[i], s[j]);
    }
  }

  /** sort.SliceStable: up halves first, then by version. */
  method SortHalves(halves: seq<Half>) returns (s: seq<Half>)
    requires DistinctHalves(halves)
    ensures Arranged(halves, |halves|, s)
  {
    s := [];
    for n := 0 to |halves|
      invariant Arranged(halves, n, s)
    {
      var i := 0;
      while i < |s| && Before(s[i], halves[n])
        invariant 0 <= i <= |s| && forall j :: 0 <= j < i ==> Before(s[j], halves[n])
      {
        i := i + 1;
      }
      InsertHalf(halves, n, s, i);
      s := Inserted(s, i, halves[n]);
    }
  }

  /** The first loop: every filename parses. */
  method ParseListing(listing: seq<Entry>) returns (r: Result<seq<Half>>)
    requires Distinct(listing)
    ensures r.Ok? <==> AllParse(listing)
    ensures r.Ok? ==> r.value == HalvesOf(listing) && DistinctHalves(r.value)
    ensures r.Ok? ==> forall h :: h in r.value ==> ValidHalf(h)
    ensures r.Err? ==> exists n :: FirstBad(listing, n, r.error)
  {
    var halves: seq<Half> := [];
    for n := 0 to |listing|
      invariant |halves| == n
      invariant forall i :: 0 <= i < n ==> !listing[i].isDir && ParseFilename(listing[i].name) == Ok(halves[i])
    {
      if listing[n].isDir {
        assert FirstBad(listing, n, StrayFile);
        return Err(StrayFile);
      }
      var parsed := ParseFilename(listing[n].name);
      if parsed.Err? {
        assert FirstBad(listing, n, parsed.error);
        return Err(parsed.error);
      }
      halves := halves + [parsed.value];
    }
    forall i, j | 0 <= i < j < |halves| ensures halves[i] != halves[j] {
      FilenameOfParse(listing[i].name);
      FilenameOfParse(listing[j].name);
    }
    forall h | h in halves ensures ValidHalf(h) {
      var i :| 0 <= i < |halves| && halves[i] == h;
      FilenameOfParse(listing[i].name);
    }
    return Ok(halves);
  }

  /** A migration made from the halves processed so far. */
  ghost predicate Made(src: Source, done: seq<Half>, m: Migration) {
    && UpOf(m) in done && m.version >= 0 && Readable(src, UpOf(m))
    && m.up == ScriptOf(src, UpOf(m))
    && m.checksum == src.digest(src.files[Filename(UpOf(m))])
    && (m.down.Some? <==> DownOf(m) in done)
    && (m.down.Some? ==> Readable(src, DownOf(m)) && m.down.value == ScriptOf(src, DownOf(m)))
  }

  ghost predicate MapMade(src: Source, done: seq<Half>, byVersion: map<int, Migration>) {
    && (forall v :: v in byVersion ==> byVersion[v].version == v && Made(src, done, byVersion[v]))
    && (forall h :: h in done ==> h.version in byVersion && byVersion[h.version].name == h.name && Readable(src, h))
  }

  /** One half of the second loop. */
  method AddHalf(src: Source, given: seq<Half>, halves: seq<Half>, n: nat, byVersion: map<int, Migration>)
    returns (r: Result<map<int, Migration>>)
    requires DistinctHalves(given) && Arranged(given, |given|, halves) && forall h :: h in given ==> ValidHalf(h)
    requires n < |halves| && (forall h :: h in halves[..n] ==> h.version >= 0)
    requires MapMade(src, halves[..n], byVersion)
    ensures r.Ok? ==> MapMade(src, halves[..n + 1], r.value)
    ensures r.Err? ==> FirstFault(src, given, halves[n], r.error)
  {
    var h := halves[n];
    assert h in given[..|given|] && given[..|given|] == given && halves[..n + 1] == halves[..n] + [h];
    var filename := Filename(h);
    if filename !in src.files {
      IsFirstFault(src, given, halves, n, byVersion, Unreadable);
      return Err(Unreadable);
    }
    var parsed := Scanner.ParseScript(src.files[filename], src.bs);
    if parsed.Err? {
      IsFirstFault(src, given, halves, n, byVersion, BadScript(parsed.error));
      return Err(BadScript(parsed.error));
    }
    if h.down {
      if h.version !in byVersion || byVersion[h.version].name != h.name {
        UpComesFirst(given, halves, n);
        IsFirstFault(src, given, halves, n, byVersion, DownWithoutUp);
        return Err(DownWithoutUp);
      }
      var m := byVersion[h.version];
      r := Ok(byVersion[h.version := m.(down := Some(parsed.value))]);
      AddedDown(src, halves[..n], h, byVersion, r.value);
    } else {
      if h.version in byVersion {
        SecondUp(src, given, halves, n, byVersion);
        IsFirstFault(src, given, halves, n, byVersion, DuplicateVersion);
        return Err(DuplicateVersion);
      }
      NoDownYet(given, halves, n);
      var m := Migration(h.version, h.name, src.digest(src.files[filename]), parsed.value, None);
      r := Ok(byVersion[h.version := m]);
      AddedUp(src, halves[..n], h, byVersion, r.value);
    }
  }

  lemma GivenAre(given: seq<Half>, halves: seq<Half>, h: Half)
    requires Arranged(given, |given|, halves)
    ensures h in halves <==> h in given
  {
    assert given[..|given|] == given;
  }

  lemma EarlierIsStrict(halves: seq<Half>, g: Half, h: Half)
    requires DistinctHalves(halves) && Earlier(halves, g, h)
    ensures !Earlier(halves, h, g)
  {
  }

  /** Whatever is earlier than a half stands before it. */
  lemma EarlierIsBefore(given: seq<Half>, halves: seq<Half>, n: nat, g: Half)
    requires DistinctHalves(given) && Arranged(given, |given|, halves) && n < |halves|
    requires g in given && Earlier(given, g, halves[n])
    ensures g in halves[..n]
  {
    GivenAre(given, halves, g);
    var k :| 0 <= k < |halves| && halves[k] == g;
    EarlierIsStrict(given, g, halves[n]);
  }

  lemma UpComesFirst(given: seq<Half>, halves: seq<Half>, n: nat)
    requires DistinctHalves(given) && Arranged(given, |given|, halves) && n < |halves| && halves[n].down
    ensures halves[n].(down := false) in given ==> halves[n].(down := false) in halves[..n]
  {
    if halves[n].(down := false) in given {
      EarlierIsBefore(given, halves, n, halves[n].(down := false));
    }
  }

  lemma NoDownYet(given: seq<Half>, halves: seq<Half>, n: nat)
    requires Arranged(given, |given|, halves) && n < |halves| && !halves[n].down
    ensures forall h :: h in halves[..n] ==> !h.down
  {
    forall h | h in halves[..n] ensures !h.down {
      var i :| 0 <= i < n && halves[i] == h;
      assert Earlier(given, halves[i], halves[n]);
    }
  }

  lemma SecondUp(src: Source, given: seq<Half>, halves: seq<Half>, n: nat, byVersion: map<int, Migration>)
    requires Arranged(given, |given|, halves) && n < |halves| && (forall h :: h in halves[..n] ==> h.version >= 0)
    requires MapMade(src, halves[..n], byVersion) && halves[n].version in byVersion && !halves[n].down
    ensures exists g :: g in given && !g.down && g.version == halves[n].version && Earlier(given, g, halves[n])
  {
    var g := UpOf(byVersion[halves[n].version]);
    assert Made(src, halves[..n], byVersion[halves[n].version]);
    var i :| 0 <= i < n && halves[i] == g;
    GivenAre(given, halves, g);
    assert Earlier(given, halves[i], halves[n]);
  }

  /** The halves on the map had no fault, so a fault now is the first. */
  lemma IsFirstFault(src: Source, given: seq<Half>, halves: seq<Half>, n: nat, byVersion: map<int, Migration>,
      error: Error)
    requires DistinctHalves(given) && Arranged(given, |given|, halves) && n < |halves|
    requires (forall h :: h in halves[..n] ==> h.version >= 0) && MapMade(src, halves[..n], byVersion)
    requires Fault(src, given, halves[n], error)
    ensures FirstFault(src, given, halves[n], error)
  {
    GivenAre(given, halves, halves[n]);
    forall g, e | g in given && Earlier(given, g, halves[n]) ensures !Fault(src, given, g, e) {
      EarlierIsBefore(given, halves, n, g);
      MadeHasNoFault(src, given, halves, n, byVersion, g, e);
    }
  }

  lemma EarlierThanMade(given: seq<Half>, halves: seq<Half>, n: nat, g: Half)
    requires DistinctHalves(given) && Arranged(given, |given|, halves) && n < |halves| && g in halves[..n]
    ensures forall f :: f in given && Earlier(given, f, g) ==> f in halves[..n] && f != g
  {
    var i :| 0 <= i < n && halves[i] == g;
    forall f | f in given && Earlier(given, f, g) ensures f in halves[..n] && f != g {
      EarlierIsBefore(given, halves, i, f);
      EarlierIsStrict(given, f, g);
    }
  }

  lemma MadeHasNoFault(src: Source, given: seq<Half>, halves: seq<Half>, n: nat, byVersion: map<int, Migration>,
      g: Half, e: Error)
    requires DistinctHalves(given) && Arranged(given, |given|, halves) && n < |halves| && g in halves[..n]
    requires (forall h :: h in halves[..n] ==> h.version >= 0) && MapMade(src, halves[..n], byVersion)
    ensures !Fault(src, given, g, e)
  {
    var m := byVersion[g.version];
    assert Made(src, halves[..n], m) && UpOf(m) in halves;
    GivenAre(given, halves, UpOf(m));
    EarlierThanMade(given, halves, n, g);
  }

  /** A further half leaves a migration alone unless it is its down. */
  lemma MadeStays(src: Source, done: seq<Half>, h: Half, m: Migration)
    requires Made(src, done, m) && h != DownOf(m)
    ensures Made(src, done + [h], m)
  {
  }

  lemma DownMade(src: Source, done: seq<Half>, h: Half, m: Migration)
    requires Made(src, done, m) && h == DownOf(m) && Readable(src, h)
    ensures Made(src, done + [h], m.(down := Some(ScriptOf(src, h))))
  {
    var n := m.(down := Some(ScriptOf(src, h)));
    assert UpOf(n) == UpOf(m) && DownOf(n) == h;
  }

  lemma AddedDown(src: Source, done: seq<Half>, h: Half, a: map<int, Migration>, b: map<int, Migration>)
    requires h.version >= 0 && (forall g :: g in done ==> g.version >= 0)
    requires MapMade(src, done, a) && h.down && h.version in a && a[h.version].name == h.name && Readable(src, h)
    requires b == a[h.version := a[h.version].(down := Some(ScriptOf(src, h)))]
    ensures MapMade(src, done + [h], b)
  {
    forall v | v in b ensures b[v].version == v && Made(src, done + [h], b[v]) {
      if v == h.version {
        DownMade(src, done, h, a[v]);
      } else {
        MadeStays(src, done, h, a[v]);
      }
    }
  }

  lemma AddedUp(src: Source, done: seq<Half>, h: Half, a: map<int, Migration>, b: map<int, Migration>)
    requires h.version >= 0 && (forall g :: g in done ==> g.version >= 0 && !g.down)
    requires MapMade(src, done, a) && !h.down && h.version !in a && Readable(src, h)
    requires b == a[h.version := Migration(h.version, h.name, src.digest(src.files[Filename(h)]), ScriptOf(src, h),
        None)]
    ensures MapMade(src, done + [h], b)
  {
    assert UpOf(b[h.version]) == h;
    forall v | v in b ensures b[v].version == v && Made(src, done + [h], b[v]) {
      if v != h.version {
        MadeStays(src, done, h, a[v]);
      }
    }
  }

  /** The migrations of the map, ordered by version. */
  method InOrder(byVersion: map<int, Migration>) returns (ms: seq<Migration>)
    requires forall v :: v in byVersion ==> byVersion[v].version == v
    ensures Ascending(ms)
    ensures forall m :: m in ms <==> m.version in byVersion && byVersion[m.version] == m
  {
    ms := [];
    var rest := byVersion.Keys;
    while rest != {}
      invariant rest <= byVersion.Keys && Ascending(ms)
      invariant forall m :: m in ms <==> m.version in byVersion && m.version !in rest && byVersion[m.version] == m
      decreases rest
    {
      var v := AnyOf(rest);
      var i := 0;
      while i < |ms| && ms[i].version < v
        invariant 0 <= i <= |ms| && forall j :: 0 <= j < i ==> ms[j].version < v
      {
        i := i + 1;
      }
      assert forall j :: 0 <= j < |ms| ==> ms[j] in ms;
      InsertMigration(ms, i, byVersion[v]);
      ms := Inserted(ms, i, byVersion[v]);
      rest := rest - {v};
    }
  }

  lemma InsertMigration(ms: seq<Migration>, i: nat, m: Migration)
    requires i <= |ms| && Ascending(ms)
    requires forall j :: 0 <= j < i ==> ms[j].version < m.version
    requires i < |ms| ==> m.version < ms[i].version
    ensures var more := Inserted(ms, i, m);
      Ascending(more) && forall x :: x in more <==> x in ms || x == m
  {
    InsertedAt(ms, i, m);
  }

  /** loadMigrations: it succeeds exactly on a loadable directory, and then returns
      its migrations. */
  method Load(src: Source, listing: seq<Entry>) returns (r: Result<seq<Migration>>)
    requires Distinct(listing)
    ensures r.Ok? <==> Loadable(src, listing)
    ensures r.Ok? ==> Loaded(src, listing, r.value)
    ensures r.Err? ==> Blames(src, listing, r.error)
  {
    var parsed := ParseListing(listing);
    if parsed.Err? {
      return Err(parsed.error);
    }
    var halves := SortHalves(parsed.value);
    var byVersion := map[];
    for n := 0 to |halves|
      invariant forall h :: h in halves[..n] ==> h.version >= 0
      invariant MapMade(src, halves[..n], byVersion)
    {
      GivenAre(parsed.value, halves, halves[n]);
      var added := AddHalf(src, parsed.value, halves, n, byVersion);
      if added.Err? {
        FaultySpoils(src, listing, halves[n], added.error);
        return Err(added.error);
      }
      byVersion := added.value;
    }
    assert halves[..|halves|] == halves;
    var ms := InOrder(byVersion);
    forall h ensures h in halves <==> Listed(listing, h) {
      GivenAre(parsed.value, halves, h);
      ListedIsAHalf(listing, h);
    }
    MadeIsLoaded(src, listing, halves, byVersion, ms);
    return Ok(ms);
  }

  lemma ListedIsAHalf(listing: seq<Entry>, h: Half)
    requires AllParse(listing)
    ensures Listed(listing, h) <==> h in HalvesOf(listing)
  {
    if h in HalvesOf(listing) {
      var i :| 0 <= i < |listing| && HalvesOf(listing)[i] == h;
      assert ParseFilename(listing[i].name) == Ok(h);
    }
  }

  /** A file at fault keeps the directory from loading. */
  lemma FaultySpoils(src: Source, listing: seq<Entry>, h: Half, error: Error)
    requires AllParse(listing) && DistinctHalves(HalvesOf(listing)) && h in HalvesOf(listing)
    requires Fault(src, HalvesOf(listing), h, error)
    ensures !Loadable(src, listing)
  {
    ListedIsAHalf(listing, h);
    ListedIsAHalf(listing, h.(down := false));
    if Readable(src, h) && !h.down {
      var g :| g in HalvesOf(listing) && !g.down && g.version == h.version && Earlier(HalvesOf(listing), g, h);
      ListedIsAHalf(listing, g);
    }
  }

  lemma EarlierIsTotal(halves: seq<Half>, g: Half, h: Half)
    requires g in halves && h in halves && g != h
    ensures Earlier(halves, g, h) || Earlier(halves, h, g)
  {
    var i :| 0 <= i < |halves| && halves[i] == g;
    var j :| 0 <= j < |halves| && halves[j] == h;
  }

  lemma PrefixParses(listing: seq<Entry>, n: nat, m: nat)
    requires m < n <= |listing| && AllParse(listing[..n])
    ensures !listing[m].isDir && ParseFilename(listing[m].name).Ok?
  {
    assert listing[..n][m] == listing[m];
  }

  lemma OneIsFirst(listing: seq<Entry>, m: nat, a: Error, n: nat, b: Error)
    requires FirstBad(listing, m, a) && FirstBad(listing, n, b)
    ensures m >= n
  {
    if m < n {
      PrefixParses(listing, n, m);
    }
  }

  lemma OneFaultEach(src: Source, halves: seq<Half>, h: Half, a: Error, b: Error)
    requires Fault(src, halves, h, a) && Fault(src, halves, h, b)
    ensures a == b
  {
  }

  /** The error is determined by the directory: no two satisfy Load's contract. */
  lemma OneErrorIsToBlame(src: Source, listing: seq<Entry>, a: Error, b: Error)
    requires Distinct(listing) && Blames(src, listing, a) && Blames(src, listing, b)
    ensures a == b
  {
    if AllParse(listing) {
      var halves := HalvesOf(listing);
      var g: Half :| FirstFault(src, halves, g, a);
      var h: Half :| FirstFault(src, halves, h, b);
      if g == h {
        OneFaultEach(src, halves, h, a, b);
      } else {
        EarlierIsTotal(halves, g, h);
      }
    } else {
      var m: nat :| FirstBad(listing, m, a);
      var n: nat :| FirstBad(listing, n, b);
      OneIsFirst(listing, m, a, n, b);
      OneIsFirst(listing, n, b, m, a);
    }
  }

  lemma MadeIsLoaded(src: Source, listing: seq<Entry>, halves: seq<Half>, byVersion: map<int, Migration>,
      ms: seq<Migration>)
    requires AllParse(listing) && (forall h :: h in halves <==> Listed(listing, h))
    requires forall h :: h in halves ==> ValidHalf(h)
    requires MapMade(src, halves, byVersion) && Ascending(ms)
    requires forall m :: m in ms <==> m.version in byVersion && byVersion[m.version] == m
    ensures Loadable(src, listing) && Loaded(src, listing, ms)
  {
    forall h | Listed(listing, h) ensures Listed(listing, h.(down := false)) {
      assert h in halves;
      assert UpOf(byVersion[h.version]) == h.(down := false);
    }
    forall g, h | Listed(listing, g) && Listed(listing, h) && !g.down && !h.down && g.version == h.version
      ensures g == h
    {
      assert g in halves && h in halves;
    }
    forall i | 0 <= i < |ms| ensures Faithful(src, listing, ms[i]) {
      assert ms[i] in ms;
      assert Made(src, halves, byVersion[ms[i].version]);
    }
    forall h | Listed(listing, h) && !h.down ensures exists i :: 0 <= i < |ms| && UpOf(ms[i]) == h {
      assert h in halves;
      var m := byVersion[h.version];
      assert m in ms;
      var i :| 0 <= i < |ms| && ms[i] == m;
      assert UpOf(ms[i]) == h;
    }
  }

  // ---------------------------------------------------------------- order of the listing

  ghost predicate SameFiles(a: seq<Entry>, b: seq<Entry>) {
    forall e :: e in a <==> e in b
  }

  lemma ListedIsOrderFree(a: seq<Entry>, b: seq<Entry>, h: Half)
    requires SameFiles(a, b)
    ensures Listed(a, h) ==> Listed(b, h)
  {
    if Listed(a, h) {
      var i :| 0 <= i < |a| && !a[i].isDir && ParseFilename(a[i].name) == Ok(h);
      assert a[i] in b;
      var j :| 0 <= j < |b| && b[j] == a[i];
      assert ParseFilename(b[j].name) == Ok(h);
    }
  }

  lemma NothingMore(a: seq<Migration>, b: seq<Migration>)
    requires Ascending(b) && |a| <= |b| && (forall m :: m in b ==> m in a)
    requires forall k :: 0 <= k < |a| ==> a[k] == b[k]
    ensures |a| == |b|
  {
    if |b| != 0 {
      var last := b[|b| - 1];
      assert last in b;
      var i :| 0 <= i < |a| && a[i] == last;
      assert b[i] == last;
    }
  }

  lemma {:induction false} AscendingPosition(a: seq<Migration>, b: seq<Migration>, n: nat)
    requires Ascending(a) && Ascending(b) && n <= |a| && n <= |b|
    requires (forall m :: m in a <==> m in b) && forall k :: 0 <= k < n ==> a[k] == b[k]
    ensures a == b
    decreases |a| - n
  {
    if n < |a| {
      assert a[n] in b;
      var j :| 0 <= j < |b| && b[j] == a[n];
      assert j >= n;
      assert b[n] in a;
      var i :| 0 <= i < |a| && a[i] == b[n];
      assert i >= n;
      AscendingPosition(a, b, n + 1);
    } else {
      NothingMore(a, b);
      assert a == b[..n];
    }
  }

  lemma LoadedMember(src: Source, a: seq<Entry>, b: seq<Entry>, ms: seq<Migration>, ns: seq<Migration>, m: Migration)
    requires SameFiles(a, b) && Loaded(src, a, ms) && Loaded(src, b, ns) && m in ms
    ensures m in ns
  {
    var i :| 0 <= i < |ms| && ms[i] == m;
    assert Faithful(src, a, m);
    ListedIsOrderFree(a, b, UpOf(m));
    var j :| 0 <= j < |ns| && UpOf(ns[j]) == UpOf(m);
    assert Faithful(src, b, ns[j]);
    ListedIsOrderFree(a, b, DownOf(m));
    ListedIsOrderFree(b, a, DownOf(m));
    assert ns[j] == m;
  }

  /** A successful load does not depend on the order of the listing: with Load's
      contract, two listings of the same files load alike. */
  lemma LoadIsOrderFree(src: Source, a: seq<Entry>, b: seq<Entry>, ms: seq<Migration>, ns: seq<Migration>)
    requires SameFiles(a, b) && Loaded(src, a, ms) && Loaded(src, b, ns)
    ensures ms == ns
  {
    forall m ensures m in ms <==> m in ns {
      if m in ms {
        LoadedMember(src, a, b, ms, ns, m);
      }
      if m in ns {
        LoadedMember(src, b, a, ns, ms, m);
      }
    }
    AscendingPosition(ms, ns, 0);
  }

  lemma LoadableIsOrderFree(src: Source, a: seq<Entry>, b: seq<Entry>)
    requires SameFiles(a, b) && Loadable(src, a)
    ensures Loadable(src, b)
  {
    forall h ensures Listed(a, h) <==> Listed(b, h) {
      ListedIsOrderFree(a, b, h);
      ListedIsOrderFree(b, a, h);
    }
    forall i | 0 <= i < |b| ensures !b[i].isDir && ParseFilename(b[i].name).Ok? {
      assert b[i] in a;
    }
  }
}
