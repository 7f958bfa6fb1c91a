/** What the pure parse means: where headers end, how lines tile the buffer, which request lines
  * are accepted, and that rendering a request and parsing it gives the request back. */
module MessageTheorems {
  import opened Common
  import opened CText
  import opened HttpMessage
  import opened NumberTheorems

  // ---- Where the headers end ----

  /** `j` completes an LF CR* LF. */
  ghost predicate EndsAt(b: string, j: nat) {
    exists i: nat :: i < j < |b| && b[i] == LF && b[j] == LF && forall k :: i < k < j ==> b[k] == CR
  }

  lemma {:induction false} EndIsFirst(b: string, p: nat)
    requires 0 < p <= |b| && b[p - 1] == LF
    ensures match Lines(b, p).end
      case None => forall j: nat :: p <= j ==> !EndsAt(b, j)
      case Some(e) => p <= e && EndsAt(b, e) && forall j: nat :: p <= j < e ==> !EndsAt(b, j)
    decreases |b| - p
  {
    var q := FindFrom(b, LF, p);
    FindFromFirst(b, LF, p);
    forall j: nat | p <= j < |b| && (j < q || (j == q && CRStart(b, p, q) > p)) ensures !EndsAt(b, j) {
      if EndsAt(b, j) {
        var i: nat :| i < j && b[i] == LF && b[j] == LF && forall k :: i < k < j ==> b[k] == CR;
        CRStartRun(b, p, q);
      }
    }
    if q == |b| {
    } else {
      CRStartRun(b, p, q);
      if CRStart(b, p, q) == p {
        assert b[p - 1] == LF && b[q] == LF;
      } else {
        EndIsFirst(b, q + 1);
      }
    }
  }

  /** The request is served iff its request line is complete and accepted and the bytes hold
    * LF CR* LF; it is rejected iff its request line is complete and not accepted. */
  lemma ServedIff(b: string, r: Request)
    ensures ParseMessage(b, r).served.Some? <==>
      FirstLF(b) < |b| && ParseLogline(FirstLine(b)).Accepted? && exists j: nat :: EndsAt(b, j)
    ensures ParseMessage(b, r).ret == -1 <==>
      FirstLF(b) < |b| && !ParseLogline(FirstLine(b)).Accepted?
    ensures ParseMessage(b, r).ret == 0 || ParseMessage(b, r).ret == -1
  {
    hide ParseLogline, FirstLine, Lines;
    if FirstLF(b) < |b| {
      EndIsFirst(b, FirstLF(b) + 1);
      FindFromFirst(b, LF, 0);
      assert forall j: nat :: j <= FirstLF(b) ==> !EndsAt(b, j);
    }
  }

  // ---- Lines tile the buffer ----

  function Repeat(c: char, n: nat): string { seq(n, _ => c) }

  /** The bytes of `lines`, each followed by its run of CRs and an LF. */
  function Unlines(lines: seq<string>, runs: seq<nat>): string
    requires |lines| == |runs|
  {
    if lines == [] then []
    else lines[0] + Repeat(CR, runs[0]) + [LF] + Unlines(lines[1..], runs[1..])
  }

  predicate IsLine(line: string) { line != [] && LF !in line && line[|line| - 1] != CR }

  lemma {:induction false} LinesClean(b: string, p: nat)
    requires p <= |b|
    ensures forall line :: line in Lines(b, p).lines ==> IsLine(line)
    decreases |b| - p
  {
    var q := FindFrom(b, LF, p);
    FindFromFirst(b, LF, p);
    if q == |b| || CRStart(b, p, q) == p {
    } else {
      LinesStep(b, p);
      CRStartRun(b, p, q);
      LinesClean(b, q + 1);
      assert IsLine(b[p..CRStart(b, p, q)]);
    }
  }

  /** Nothing is lost or invented: the lines with their CR runs are the bytes from `p` up to a
    * tail that is either unfinished or the blank line that ends the headers. */
  lemma {:induction false} LinesTile(b: string, p: nat) returns (runs: seq<nat>, tail: nat)
    requires p <= |b|
    ensures p <= tail <= |b| && |runs| == |Lines(b, p).lines|
    ensures b[p..tail] == Unlines(Lines(b, p).lines, runs)
    ensures IsTail(b, tail, Lines(b, p).end)
    decreases |b| - p, 1
  {
    var q := FindFrom(b, LF, p);
    FindFromFirst(b, LF, p);
    if q == |b| {
      runs, tail := [], p;
    } else {
      CRStartRun(b, p, q);
      if CRStart(b, p, q) == p {
        runs, tail := [], p;
      } else {
        runs, tail := TileMore(b, p, q);
      }
    }
  }

  predicate IsTail(b: string, tail: nat, end: Option<nat>)
    requires tail <= |b|
  {
    match end
    case None => LF !in b[tail..]
    case Some(e) => tail <= e < |b| && b[e] == LF && forall i :: tail <= i < e ==> b[i] == CR
  }

  lemma {:induction false} TileMore(b: string, p: nat, q: nat)
    returns (runs: seq<nat>, tail: nat)
    requires p <= q < |b| && q == FindFrom(b, LF, p) && CRStart(b, p, q) > p
    ensures p <= tail <= |b| && |runs| == |Lines(b, p).lines|
    ensures b[p..tail] == Unlines(Lines(b, p).lines, runs)
    ensures IsTail(b, tail, Lines(b, p).end)
    decreases |b| - p, 0
  {
    hide Lines, Unlines, CRStart, FindFrom;
    var rest;
    rest, tail := LinesTile(b, q + 1);
    LinesStep(b, p);
    CRStartRun(b, p, q);
    runs := [q - CRStart(b, p, q)] + rest;
    TileOne(b, p, CRStart(b, p, q), q, tail, Lines(b, q + 1).lines, rest);
  }

  lemma UnlinesCons(line: string, lines: seq<string>, n: nat, rest: seq<nat>)
    requires |lines| == |rest|
    ensures Unlines([line] + lines, [n] + rest)
         == line + Repeat(CR, n) + [LF] + Unlines(lines, rest)
  {
    assert ([line] + lines)[1..] == lines && ([n] + rest)[1..] == rest;
  }

  lemma FourSlices(b: string, p: nat, k: nat, q: nat, tail: nat)
    requires p <= k <= q < tail <= |b|
    ensures b[p..tail] == b[p..k] + b[k..q] + [b[q]] + b[q + 1..tail]
  {
  }

  lemma TileOne(b: string, p: nat, k: nat, q: nat, tail: nat, lines: seq<string>, rest: seq<nat>)
    requires p <= k <= q < tail <= |b| && b[q] == LF
    requires forall i :: k <= i < q ==> b[i] == CR
    requires |lines| == |rest| && b[q + 1..tail] == Unlines(lines, rest)
    ensures b[p..tail] == Unlines([b[p..k]] + lines, [q - k] + rest)
  {
    hide Unlines;
    UnlinesCons(b[p..k], lines, q - k, rest);
    assert b[k..q] == Repeat(CR, q - k);
    FourSlices(b, p, k, q, tail);
  }

  // ---- Which request lines are accepted ----

  /** The method, blanks, a URI at `stop..stop2` without blanks, and then nothing or a blank. */
  predicate Shaped(line: string, verb: Verb, stop: nat, stop2: nat) {
    var name := |VerbName(verb)|;
    && name < stop <= stop2 <= |line| && line[..name] == VerbName(verb)
    && (forall i :: name <= i < stop ==> line[i] == ' ')
    && (forall i :: stop <= i < stop2 ==> line[i] != ' ')
    && (stop2 < |line| ==> stop < stop2 && line[stop2] == ' ')
  }

  lemma ShapedParts(line: string, verb: Verb, stop: nat, stop2: nat)
    requires Shaped(line, verb, stop, stop2)
    ensures VerbOf(line) == Some(verb)
    ensures SkipFrom(line, Space, |VerbName(verb)|) == stop && FindFrom(line, ' ', stop) == stop2
  {
    var name := |VerbName(verb)|;
    assert line[..name + 1] == VerbName(verb) + " ";
    assert line[..name + 1][0] == line[0] && line[..name][0] == line[0];
    SkipFromIs(line, Space, name, stop);
    FindFromIs(line, ' ', stop, stop2);
  }

  lemma PartsShaped(line: string, verb: Verb)
    requires VerbOf(line) == Some(verb)
    ensures var stop := SkipFrom(line, Space, |VerbName(verb)|);
      Shaped(line, verb, stop, FindFrom(line, ' ', stop))
  {
    var name := |VerbName(verb)|;
    assert line[0..name + 1] == VerbName(verb) + " ";
    assert line[..name] == line[0..name + 1][..name];
    SkipFromAll(line, Space, name);
    FindFromFirst(line, ' ', SkipFrom(line, Space, name));
  }

  /** A request line is accepted iff it has that shape, its URI has at most 1024 bytes, and no
    * version or an acceptable version follows. */
  lemma AcceptedIff(line: string, verb: Verb, uri: string, version: Version)
    ensures ParseLogline(line) == Accepted(verb, uri, version) <==>
      exists stop: nat, stop2: nat :: Shaped(line, verb, stop, stop2)
        && uri == line[stop..stop2] && |uri| <= 1024
        && VersionAt(line, stop2) == Some(version)
  {
    hide VersionAt;
    if ParseLogline(line) == Accepted(verb, uri, version) {
      PartsShaped(line, verb);
    }
    forall stop: nat, stop2: nat | Shaped(line, verb, stop, stop2)
      ensures VerbOf(line) == Some(verb)
      ensures SkipFrom(line, Space, |VerbName(verb)|) == stop && FindFrom(line, ' ', stop) == stop2
    {
      ShapedParts(line, verb, stop, stop2);
    }
  }

  /** The accepted URI is empty exactly when nothing but blanks follows the method. */
  lemma EmptyUriIff(line: string, verb: Verb)
    ensures (exists version :: ParseLogline(line) == Accepted(verb, "", version)) <==>
      var name := |VerbName(verb)|;
      && StartsWith(line, 0, VerbName(verb) + " ")
      && forall i :: name <= i < |line| ==> line[i] == ' '
  {
    hide ParseLogline, VerbOf, Judged, ScanVersion;
    var name := |VerbName(verb)|;
    forall version | ParseLogline(line) == Accepted(verb, "", version)
      ensures Shaped(line, verb, |line|, |line|)
    {
      AcceptedIff(line, verb, "", version);
    }
    if Shaped(line, verb, |line|, |line|) {
      assert line[0..name + 1] == VerbName(verb) + " ";
    }
    if StartsWith(line, 0, VerbName(verb) + " ") && forall i :: name <= i < |line| ==> line[i] == ' ' {
      assert line[..name] == line[0..name + 1][..name];
      assert Shaped(line, verb, |line|, |line|);
      assert VersionAt(line, |line|) == Some(Simple);
      AcceptedIff(line, verb, "", Simple);
      assert line[|line|..|line|] == "";
    }
  }

  // ---- Which request lines are rejected ----

  lemma MethodIff(line: string)
    ensures VerbOf(line) == Some(Get) <==> "GET " <= line
    ensures VerbOf(line) == Some(Head) <==> "HEAD " <= line
    ensures VerbOf(line) == Some(Post) <==> "POST " <= line
  {
    assert StartsWith(line, 0, "GET ") ==> line[0..4][0] == line[0];
    assert StartsWith(line, 0, "HEAD ") ==> line[0..5][0] == line[0];
    assert StartsWith(line, 0, "POST ") ==> line[0..5][0] == line[0];
    assert "GET " <= line ==> line[0..4] == "GET ";
    assert "HEAD " <= line ==> line[0..5] == "HEAD ";
    assert "POST " <= line ==> line[0..5] == "POST ";
  }

  /** Without a known method the request is rejected with nothing set but the version 0.9. */
  lemma UnknownMethodRejected(b: string, r: Request)
    requires FirstLF(b) < |b|
    ensures var line := FirstLine(b);
      !("GET " <= line) && !("HEAD " <= line) && !("POST " <= line) <==>
        ParseLogline(line) == UnknownMethod
    ensures ParseLogline(FirstLine(b)) == UnknownMethod ==>
      ParseMessage(b, r) == Outcome(-1, r.(version := Simple), [], None)
  {
    hide FirstLine, VersionAt;
    MethodIff(FirstLine(b));
  }

  /** With a method, a URI of more than 1024 bytes is rejected before it is stored, and a version
    * that is not accepted after that. */
  lemma ShapedRejected(b: string, r: Request, verb: Verb, stop: nat, stop2: nat)
    requires FirstLF(b) < |b| && Shaped(FirstLine(b), verb, stop, stop2)
    ensures stop2 - stop > 1024 ==>
      ParseMessage(b, r) == Outcome(-1, Request(Some(verb), r.uri, Simple, true), [], None)
    ensures stop2 - stop <= 1024 && VersionAt(FirstLine(b), stop2) == None ==>
      ParseMessage(b, r)
        == Outcome(-1, Request(Some(verb), FirstLine(b)[stop..stop2], Simple, true), [], None)
  {
    hide FirstLine, VersionAt, VerbOf;
    ShapedParts(FirstLine(b), verb, stop, stop2);
  }

  // ---- Which versions are accepted ----

  /** After the URI: blanks, "HTTP/", digits, a dot, digits, and anything but a digit. */
  predicate PlainVersion(line: string, stop2: nat, at: nat, dot: nat, end: nat) {
    && stop2 < at && at + 5 < dot < |line| && (forall i :: stop2 <= i < at ==> line[i] == ' ')
    && StartsWith(line, at, "HTTP/") && DigitRun(line, at + 5, dot)
    && line[dot] == '.' && DigitRun(line, dot + 1, end)
  }

  /** What an unsigned int gets from `n`: at most what fits 64 bits, then the low 32 bits. */
  function Low(n: nat): nat {
    if n <= 0xffff_ffff_ffff_ffff then n % 0x1_0000_0000 else 0xffff_ffff
  }

  /** A version is refused iff its numbers, as far as they fit, are above 1.1; the text is kept for
    * 1.0 and 1.1, and any 0.x counts as HTTP/0.9.  What follows the number is not looked at. */
  lemma PlainVersionIff(line: string, stop2: nat, at: nat, dot: nat, end: nat)
    requires PlainVersion(line, stop2, at, dot, end)
    ensures var major, minor := Low(Decimal(line, at + 5, dot)), Low(Decimal(line, dot + 1, end));
      VersionAt(line, stop2) ==
        if major == 0 then Some(Simple)
        else if major == 1 && minor <= 1 then Some(InBuffer(at))
        else None
  {
    hide ScanNumber, Decimal;
    assert line[at] == line[at..at + 5][0] == 'H';
    SkipFromIs(line, Space, stop2, at);
    NumberScanned(line, at + 5, dot);
    NumberScanned(line, dot + 1, end);
  }

  /** No number can be read at `i`: nothing is left, or no digit, sign or white space is there. */
  predicate NoNumberAt(s: string, i: nat) {
    i < |s| ==> !Digit.Has(s[i]) && !White.Has(s[i]) && s[i] != '+' && s[i] != '-'
  }

  lemma NothingScanned(s: string, i: nat)
    requires i <= |s| && NoNumberAt(s, i)
    ensures ScanNumber(s, i) == Nothing
  {
  }

  /** Blanks after the URI call for a version: none at all, or one without "HTTP/", a number, a dot
    * or a second number, is refused. */
  lemma VersionMalformed(line: string, stop2: nat, at: nat, dot: nat)
    requires stop2 < at <= |line| && (forall i :: stop2 <= i < at ==> line[i] == ' ')
    requires at < |line| ==> line[at] != ' '
    requires dot <= |line|
    requires var version := StartsWith(line, at, "HTTP/");
      || !version
      || (version && NoNumberAt(line, at + 5))
      || (version && DigitRun(line, at + 5, dot) && !(dot < |line| && line[dot] == '.'))
      || (version && DigitRun(line, at + 5, dot) && dot < |line| && line[dot] == '.'
          && NoNumberAt(line, dot + 1))
    ensures VersionAt(line, stop2) == None
  {
    hide ScanNumber, Decimal, NoNumberAt;
    SkipFromIs(line, Space, stop2, at);
    if StartsWith(line, at, "HTTP/") {
      if NoNumberAt(line, at + 5) {
        NothingScanned(line, at + 5);
      } else {
        NumberScanned(line, at + 5, dot);
        if dot < |line| && line[dot] == '.' {
          NothingScanned(line, dot + 1);
        }
      }
    }
  }

  // ---- Rendering and parsing ----

  datatype HttpVersion = NoVersion | Http10 | Http11

  function VersionSuffix(v: HttpVersion): string {
    match v case NoVersion => "" case Http10 => " HTTP/1.0" case Http11 => " HTTP/1.1"
  }

  /** What the request handler is told about the version. */
  function ServedAs(v: HttpVersion): string {
    match v case NoVersion => "HTTP/0.9" case Http10 => "HTTP/1.0" case Http11 => "HTTP/1.1"
  }

  lemma SuffixRest(v: HttpVersion)
    requires v != NoVersion
    ensures VersionSuffix(v)[1..] == ServedAs(v) && VersionSuffix(v)[0] == ' '
  {
  }

  predicate StatesVersion(line: string, at: nat, v: HttpVersion) {
    at + 8 == |line| && v != NoVersion && line[at..] == ServedAs(v)
  }

  lemma VersionScanned(line: string, at: nat, v: HttpVersion)
    requires StatesVersion(line, at, v)
    ensures ScanVersion(line, at) == Some((1, if v == Http10 then 0 else 1))
  {
    var t := line[at..];
    assert forall i :: 0 <= i < 8 ==> line[at + i] == t[i];
    assert line[at..at + 5] == t[..5];
    NumberScanned(line, at + 5, at + 6);
    NumberScanned(line, at + 7, at + 8);
    assert Decimal(line, at + 5, at + 5) == 0 && Decimal(line, at + 7, at + 7) == 0;
  }

  predicate WellFormedUri(uri: string) {
    && 0 < |uri| <= 1024
    && forall i :: 0 <= i < |uri| ==> uri[i] != ' ' && uri[i] != CR && uri[i] != LF && uri[i] != NUL
  }

  function RequestLine(verb: Verb, uri: string, v: HttpVersion): string {
    (VerbName(verb) + " ") + uri + VersionSuffix(v)
  }

  lemma ThreeParts(a: string, b: string, c: string)
    ensures var s := a + b + c;
      && s[..|a|] == a && s[|a|..|a| + |b|] == b && s[|a| + |b|..] == c
      && (forall i :: 0 <= i < |a| ==> s[i] == a[i])
      && (forall i :: 0 <= i < |b| ==> s[|a| + i] == b[i])
      && (forall i :: 0 <= i < |c| ==> s[|a| + |b| + i] == c[i])
  {
  }

  lemma RequestLineShape(verb: Verb, uri: string, v: HttpVersion)
    requires WellFormedUri(uri)
    ensures var line, stop := RequestLine(verb, uri, v), |VerbName(verb)| + 1;
      && Shaped(line, verb, stop, stop + |uri|) && line[stop..stop + |uri|] == uri
      && (if v == NoVersion then stop + |uri| == |line|
          else StatesVersion(line, stop + |uri| + 1, v))
  {
    var line, stop := RequestLine(verb, uri, v), |VerbName(verb)| + 1;
    ThreeParts(VerbName(verb) + " ", uri, VersionSuffix(v));
    FrontShape(line, verb);
    if v != NoVersion {
      SuffixRest(v);
      assert line[stop + |uri| + 1..] == line[stop + |uri|..][1..] == ServedAs(v);
    }
  }

  lemma FrontShape(line: string, verb: Verb)
    requires |VerbName(verb)| + 1 <= |line|
    requires line[..|VerbName(verb)| + 1] == VerbName(verb) + " "
    ensures line[..|VerbName(verb)|] == VerbName(verb) && line[|VerbName(verb)|] == ' '
  {
    var name := |VerbName(verb)|;
    assert line[..name] == line[..name + 1][..name];
    assert line[name] == line[..name + 1][name];
  }

  lemma VersionStated(line: string, stop2: nat, v: HttpVersion)
    requires stop2 < |line| && line[stop2] == ' ' && StatesVersion(line, stop2 + 1, v)
    ensures VersionAt(line, stop2) == Some(InBuffer(stop2 + 1))
  {
    hide ScanVersion;
    assert line[stop2 + 1] == line[stop2 + 1..][0] == 'H';
    SkipFromIs(line, Space, stop2, stop2 + 1);
    VersionScanned(line, stop2 + 1, v);
  }

  /** Where the version of a rendered request line is found. */
  function VersionPlace(verb: Verb, uri: string, v: HttpVersion): Version {
    if v == NoVersion then Simple else InBuffer(|VerbName(verb)| + |uri| + 2)
  }

  lemma RequestLineAccepted(verb: Verb, uri: string, v: HttpVersion)
    requires WellFormedUri(uri)
    ensures var line, version := RequestLine(verb, uri, v), VersionPlace(verb, uri, v);
      ParseLogline(line) == Accepted(verb, uri, version) && VersionText(version, line) == ServedAs(v)
  {
    hide ScanVersion, ParseLogline, RequestLine, Shaped;
    var line, stop := RequestLine(verb, uri, v), |VerbName(verb)| + 1;
    RequestLineShape(verb, uri, v);
    if v != NoVersion {
      ShapedBlank(line, verb, stop, stop + |uri|);
      VersionStated(line, stop + |uri|, v);
    }
    AcceptedIff(line, verb, uri, VersionPlace(verb, uri, v));
  }

  lemma ShapedBlank(line: string, verb: Verb, stop: nat, stop2: nat)
    requires Shaped(line, verb, stop, stop2) && stop2 < |line|
    ensures line[stop2] == ' '
  {
  }

  // ---- Rendered headers ----

  /** A header as it is written: a name, a colon, any blanks or none, a value, any CRs or none. */
  datatype HeaderLine = HeaderLine(name: string, gap: string, value: string, crs: nat)

  predicate WellFormedHeader(h: HeaderLine) {
    && (forall i :: 0 <= i < |h.name| ==> h.name[i] != ':' && h.name[i] != LF && h.name[i] != NUL)
    && (forall i :: 0 <= i < |h.gap| ==> h.gap[i] == ' ' || h.gap[i] == '\t')
    && (forall i :: 0 <= i < |h.value| ==> h.value[i] != LF && h.value[i] != NUL)
    && (h.value != [] ==>
         h.value[0] != ' ' && h.value[0] != '\t' && h.value[|h.value| - 1] != CR)
  }

  function HeaderText(h: HeaderLine): string { h.name + ":" + h.gap + h.value }

  function HeaderTexts(hs: seq<HeaderLine>): seq<string> {
    if hs == [] then [] else [HeaderText(hs[0])] + HeaderTexts(hs[1..])
  }

  function Eol(crs: nat): string { Repeat(CR, crs) + [LF] }

  function RenderHeaders(hs: seq<HeaderLine>, crs: nat): string {
    if hs == [] then Eol(crs)
    else HeaderText(hs[0]) + Eol(hs[0].crs) + RenderHeaders(hs[1..], crs)
  }

  /** The field a header stands for: its name in canonical form, and its value. */
  function Meaning(h: HeaderLine): Field { Field(Canonical(h.name), h.value) }

  function Meanings(hs: seq<HeaderLine>): seq<Field> {
    if hs == [] then [] else [Meaning(hs[0])] + Meanings(hs[1..])
  }

  /** `t` is the text of `h`, byte by byte. */
  predicate Lays(t: string, h: HeaderLine) {
    var n := |h.name| + 1;
    var g := n + |h.gap|;
    && |t| == g + |h.value| && t[n - 1] == ':'
    && (forall i :: 0 <= i < n - 1 ==> t[i] == h.name[i])
    && (forall i :: n <= i < g ==> t[i] == h.gap[i - n])
    && (forall i :: g <= i < |t| ==> t[i] == h.value[i - g])
  }

  lemma HeaderTextLays(h: HeaderLine)
    ensures Lays(HeaderText(h), h)
  {
    var t, n, g := HeaderText(h), |h.name| + 1, |h.name| + 1 + |h.gap|;
    var front := h.name + ":";
    assert front[n - 1] == ':' && forall i :: 0 <= i < n - 1 ==> front[i] == h.name[i];
    ThreeParts(front, h.gap, h.value);
    hide HeaderText;
    forall i | n <= i < g ensures t[i] == h.gap[i - n] { assert t[|front| + (i - n)] == h.gap[i - n]; }
    forall i | g <= i < |t| ensures t[i] == h.value[i - g] {
      assert t[|front| + |h.gap| + (i - g)] == h.value[i - g];
    }
  }

  lemma HeaderClean(t: string, h: HeaderLine)
    requires WellFormedHeader(h) && Lays(t, h)
    ensures t != [] && t[|t| - 1] != CR && forall i :: 0 <= i < |t| ==> t[i] != LF && t[i] != NUL
  {
  }

  lemma HeaderOption(t: string, h: HeaderLine)
    requires WellFormedHeader(h) && Lays(t, h)
    ensures OptionOf(t) == Some(Meaning(h))
  {
    var n, g := |h.name| + 1, |h.name| + 1 + |h.gap|;
    FindFromIs(t, ':', 0, n - 1);
    assert t[..n - 1] == h.name;
    SkipFromIs(t, Blank, n, g);
    assert t[g..] == h.value;
  }

  /** A header line gives its canonical name and its value, whatever blanks follow the colon. */
  lemma HeaderTextField(h: HeaderLine)
    requires WellFormedHeader(h)
    ensures FieldOf(HeaderText(h)) == [Field(Canonical(h.name), h.value)]
  {
    hide OptionOf;
    hide HeaderText;
    var t := HeaderText(h);
    HeaderTextLays(h);
    HeaderClean(t, h);
    StringAtIs(t, 0, |t|);
    assert CString(t) == t;
    HeaderOption(t, h);
  }

  /** A line gives no field iff it has no colon before its end. */
  lemma NoField(line: string)
    requires NUL !in line
    ensures FieldOf(line) == [] <==> ':' !in line
  {
    StringAtIs(line, 0, |line|);
    assert CString(line) == line;
    FindFromFirst(line, ':', 0);
  }

  lemma {:induction false} HeaderFields(hs: seq<HeaderLine>)
    requires forall h :: h in hs ==> WellFormedHeader(h)
    ensures FieldsOf(HeaderTexts(hs)) == Meanings(hs)
  {
    if hs == [] {
    } else {
      HeaderTextField(hs[0]);
      HeaderFields(hs[1..]);
      assert HeaderTexts(hs)[1..] == HeaderTexts(hs[1..]);
    }
  }

  /** The line `t` with its CRs and LF stands at `p`. */
  predicate LineIn(b: string, p: nat, t: string, crs: nat) {
    && p + |t| + crs < |b| && b[p + |t| + crs] == LF
    && (forall i :: p <= i < p + |t| ==> b[i] == t[i - p])
    && (forall i :: p + |t| <= i < p + |t| + crs ==> b[i] == CR)
  }

  lemma LineCut(b: string, p: nat, t: string, crs: nat)
    requires LineIn(b, p, t, crs) && LF !in t && (t != [] ==> t[|t| - 1] != CR)
    ensures FindFrom(b, LF, p) == p + |t| + crs
    ensures CRStart(b, p, p + |t| + crs) == p + |t| && b[p..p + |t|] == t
  {
    FindFromIs(b, LF, p, p + |t| + crs);
    CRStartIs(b, p, p + |t| + crs, p + |t|);
  }

  lemma LinePlaced(b: string, p: nat, t: string, crs: nat, rest: string)
    requires p <= |b| && b[p..] == t + Eol(crs) + rest
    ensures LineIn(b, p, t, crs) && b[p + |t| + crs + 1..] == rest
  {
    var u, e := b[p..], Eol(crs);
    ThreeParts(t, e, rest);
    assert b[p + |t| + crs + 1..] == u[|t| + |e|..];
    forall i | p <= i < p + |t| ensures b[i] == t[i - p] { assert u[i - p] == t[i - p]; }
    forall i | p + |t| <= i <= p + |t| + crs ensures b[i] == e[i - p - |t|] {
      assert u[|t| + (i - p - |t|)] == e[i - p - |t|];
    }
  }

  /** The line stands at `p`, and `rest` behind it. */
  lemma LineAt(b: string, p: nat, t: string, crs: nat, rest: string)
    requires p <= |b| && b[p..] == t + Eol(crs) + rest
    requires LF !in t && (t != [] ==> t[|t| - 1] != CR)
    ensures var q := p + |t| + crs;
      && q < |b| && b[q + 1..] == rest && b[p..p + |t|] == t
      && FindFrom(b, LF, p) == q && CRStart(b, p, q) == p + |t|
  {
    hide FindFrom, CRStart, Eol;
    LinePlaced(b, p, t, crs, rest);
    LineCut(b, p, t, crs);
  }

  /** The lines of a buffer that holds rendered headers from `p` to its end. */
  lemma {:induction false} HeaderLines(b: string, p: nat, hs: seq<HeaderLine>, crs: nat)
    requires p <= |b| && b[p..] == RenderHeaders(hs, crs)
    requires forall h :: h in hs ==> WellFormedHeader(h)
    ensures Lines(b, p) == Cut(HeaderTexts(hs), Some(|b| - 1))
    decreases |hs|
  {
    hide FindFrom, CRStart, Eol, HeaderText;
    if hs == [] {
      assert [] + Eol(crs) + [] == Eol(crs);
      LineAt(b, p, [], crs, []);
    } else {
      var h, t := hs[0], HeaderText(hs[0]);
      HeaderTextClean(h);
      LineAt(b, p, t, h.crs, RenderHeaders(hs[1..], crs));
      LinesStep(b, p);
      HeaderLines(b, p + |t| + h.crs + 1, hs[1..], crs);
    }
  }

  lemma HeaderTextClean(h: HeaderLine)
    requires WellFormedHeader(h)
    ensures var t := HeaderText(h); t != [] && t[|t| - 1] != CR && LF !in t
  {
    HeaderTextLays(h);
    HeaderClean(HeaderText(h), h);
  }

  /** A request line, any number of headers and the blank line, each with its CRs and LF. */
  function Render(verb: Verb, uri: string, v: HttpVersion, crs: nat, hs: seq<HeaderLine>, last: nat)
    : string
  {
    RequestLine(verb, uri, v) + Eol(crs) + RenderHeaders(hs, last)
  }

  lemma RequestLineClean(verb: Verb, uri: string, v: HttpVersion)
    requires WellFormedUri(uri)
    ensures var line := RequestLine(verb, uri, v);
      line != [] && line[|line| - 1] != CR
      && forall i :: 0 <= i < |line| ==> line[i] != LF && line[i] != NUL
  {
    var front, back := VerbName(verb) + " ", VersionSuffix(v);
    ThreeParts(front, uri, back);
    EndsClean(verb, v);
    var line := RequestLine(verb, uri, v);
    assert line[|line| - 1] == if back == "" then uri[|uri| - 1] else back[|back| - 1];
    assert forall i :: 0 <= i < |line| ==>
      line[i] == if i < |front| then front[i] else if i < |front| + |uri| then uri[i - |front|]
                 else back[i - |front| - |uri|];
  }

  lemma EndsClean(verb: Verb, v: HttpVersion)
    ensures var front := VerbName(verb) + " ";
      forall i :: 0 <= i < |front| ==> front[i] != LF && front[i] != NUL
    ensures var back := VersionSuffix(v);
      && (back != "" ==> back[|back| - 1] != CR)
      && forall i :: 0 <= i < |back| ==> back[i] != LF && back[i] != NUL
  {
  }

  lemma RenderedFirstLine(verb: Verb, uri: string, v: HttpVersion, crs: nat, rest: string)
    requires WellFormedUri(uri)
    ensures var line := RequestLine(verb, uri, v);
      var b := line + Eol(crs) + rest;
      && FirstLF(b) == |line| + crs < |b| && FirstLine(b) == line && b[|line| + crs + 1..] == rest
  {
    hide RequestLine, Eol;
    var line := RequestLine(verb, uri, v);
    var b := line + Eol(crs) + rest;
    RequestLineClean(verb, uri, v);
    assert b[0..] == b;
    LineAt(b, 0, line, crs, rest);
    StringAtIs(line, 0, |line|);
    assert b[..|line|] == b[0..|line|] == line == line[0..|line|];
  }

  // ---- Bytes after the blank line ----

  lemma FindAppend(b: string, x: string, c: char, from: nat)
    requires from <= |b| && FindFrom(b, c, from) < |b|
    ensures FindFrom(b + x, c, from) == FindFrom(b, c, from)
  {
    FindFromFirst(b, c, from);
    FindFromIs(b + x, c, from, FindFrom(b, c, from));
  }

  lemma CRStartAppend(b: string, x: string, from: nat, to: nat)
    requires from <= to <= |b|
    ensures CRStart(b + x, from, to) == CRStart(b, from, to)
  {
    CRStartRun(b, from, to);
    CRStartIs(b + x, from, to, CRStart(b, from, to));
  }

  lemma {:induction false} LinesAppend(b: string, x: string, p: nat)
    requires p <= |b| && Lines(b, p).end.Some?
    ensures Lines(b + x, p) == Lines(b, p)
    decreases |b| - p
  {
    hide CRStart, FindFrom;
    var q := FindFrom(b, LF, p);
    FindAppend(b, x, LF, p);
    CRStartAppend(b, x, p, q);
    if CRStart(b, p, q) == p {
    } else {
      LinesAppend(b, x, q + 1);
      assert (b + x)[p..CRStart(b, p, q)] == b[p..CRStart(b, p, q)];
    }
  }

  lemma FirstLineAppend(b: string, x: string)
    requires FirstLF(b) < |b|
    ensures FirstLF(b + x) == FirstLF(b) && FirstLine(b + x) == FirstLine(b)
  {
    FindAppend(b, x, LF, 0);
    CRStartAppend(b, x, 0, FirstLF(b));
    assert (b + x)[..CRStart(b, 0, FirstLF(b))] == b[..CRStart(b, 0, FirstLF(b))];
  }

  /** Once the headers have ended, or the request line is rejected, whatever follows in the buffer
    * changes nothing. */
  lemma TailIgnored(b: string, x: string, r: Request)
    requires ParseMessage(b, r).served.Some? || ParseMessage(b, r).ret == -1
    ensures ParseMessage(b + x, r) == ParseMessage(b, r)
  {
    hide ParseLogline, FindFrom, FirstLine, Lines, FieldsOf;
    FirstLineAppend(b, x);
    if ParseMessage(b, r).served.Some? {
      LinesAppend(b, x, FirstLF(b) + 1);
    }
  }

  lemma {:induction false} LinesGrow(b: string, x: string, p: nat)
    requires p <= |b|
    ensures Lines(b, p).lines <= Lines(b + x, p).lines
    decreases |b| - p
  {
    hide CRStart, FindFrom;
    var q := FindFrom(b, LF, p);
    if q == |b| || CRStart(b, p, q) == p {
    } else {
      FindAppend(b, x, LF, p);
      CRStartAppend(b, x, p, q);
      LinesGrow(b, x, q + 1);
      assert (b + x)[p..CRStart(b, p, q)] == b[p..CRStart(b, p, q)];
    }
  }

  lemma {:induction false} FieldsPrefix(lines: seq<string>, more: seq<string>)
    requires lines <= more
    ensures FieldsOf(lines) <= FieldsOf(more)
  {
    if lines == [] {
    } else {
      FieldsPrefix(lines[1..], more[1..]);
    }
  }

  /** More bytes never take back what was parsed: the header fields only grow, and once the request
    * line is complete, what it said stays. */
  lemma MoreBytes(b: string, x: string, r: Request)
    ensures ParseMessage(b, r).fields <= ParseMessage(b + x, r).fields
    ensures FirstLF(b) < |b| ==>
      var now, next := ParseMessage(b, r), ParseMessage(b + x, r);
      && now.ret == next.ret && now.request.verb == next.request.verb
      && now.request.uri == next.request.uri && now.request.version == next.request.version
  {
    hide ParseLogline, FindFrom, FirstLine, Lines, FieldsOf;
    if FirstLF(b) < |b| {
      FirstLineAppend(b, x);
      LinesGrow(b, x, FirstLF(b) + 1);
      FieldsPrefix(Lines(b, FirstLF(b) + 1).lines, Lines(b + x, FirstLF(b) + 1).lines);
    }
  }

  lemma RenderedParse(verb: Verb, uri: string, v: HttpVersion, crs: nat, hs: seq<HeaderLine>,
                      last: nat, r: Request)
    requires WellFormedUri(uri) && forall h :: h in hs ==> WellFormedHeader(h)
    ensures ParseMessage(Render(verb, uri, v, crs, hs, last), r) ==
      Outcome(0, Request(Some(verb), uri, VersionPlace(verb, uri, v), false),
              Meanings(hs), Some(Served(Some(verb), uri, ServedAs(v))))
  {
    hide ParseLogline, RequestLine, RenderHeaders, Eol, FirstLine, FirstLF, Lines, FieldsOf, Meanings;
    hide VersionText;
    var b, line := Render(verb, uri, v, crs, hs, last), RequestLine(verb, uri, v);
    RenderedFirstLine(verb, uri, v, crs, RenderHeaders(hs, last));
    RequestLineAccepted(verb, uri, v);
    HeaderLines(b, |line| + crs + 1, hs, last);
    HeaderFields(hs);
  }

  /** Rendering a request and parsing the bytes, with any body after them, gives the request back:
    * with or without a version, with any blanks after the colons and any CRs before the LFs. */
  lemma RoundTrip(verb: Verb, uri: string, v: HttpVersion, crs: nat, hs: seq<HeaderLine>, last: nat,
                  body: string, r: Request)
    requires WellFormedUri(uri) && forall h :: h in hs ==> WellFormedHeader(h)
    ensures ParseMessage(Render(verb, uri, v, crs, hs, last) + body, r) ==
      Outcome(0, Request(Some(verb), uri, VersionPlace(verb, uri, v), false),
              Meanings(hs), Some(Served(Some(verb), uri, ServedAs(v))))
  {
    hide ParseMessage, Render;
    RenderedParse(verb, uri, v, crs, hs, last, r);
    TailIgnored(Render(verb, uri, v, crs, hs, last), body, r);
  }

  // ---- Header names ----

  /** The same letter in either case, or '-' and '_' in either direction. */
  predicate SameByte(c: char, d: char) {
    || c == d
    || (c == '-' && d == '_') || (c == '_' && d == '-')
    || ('a' <= c <= 'z' && 'A' <= d <= 'Z' && c as int - d as int == 32)
    || ('A' <= c <= 'Z' && 'a' <= d <= 'z' && d as int - c as int == 32)
  }

  predicate SameName(m: string, n: string) {
    |m| == |n| && forall i :: 0 <= i < |m| ==> SameByte(m[i], n[i])
  }

  lemma UpperIff(c: char, d: char)
    ensures Upper(c) == Upper(d) <==> SameByte(c, d)
    ensures Upper(Upper(c)) == Upper(c)
  {
  }

  /** Two names get the same canonical form iff they differ only in letter case and '-'/'_';
    * canonicalising again changes nothing. */
  lemma CanonicalIff(m: string, n: string)
    ensures Canonical(m) == Canonical(n) <==> SameName(m, n)
    ensures Canonical(Canonical(m)) == Canonical(m)
  {
    forall i | 0 <= i < |m| ensures Upper(Upper(m[i])) == Upper(m[i]) { UpperIff(m[i], m[i]); }
    if |m| == |n| {
      forall i | 0 <= i < |m| ensures Canonical(m)[i] == Canonical(n)[i] <==> SameByte(m[i], n[i]) {
        UpperIff(m[i], n[i]);
      }
    }
  }

  /** A line is taken for a known header iff its whole name is that header's, up to letter case
    * and '-'/'_': no prefix or extension of a known name will do. */
  lemma KnownHeaderIff(name: string)
    ensures HeaderOf(Canonical(name)) == IfModifiedSince <==> SameName(name, "If-Modified-Since")
    ensures HeaderOf(Canonical(name)) == ContentType <==> SameName(name, "Content-Type")
    ensures HeaderOf(Canonical(name)) == ContentLength <==> SameName(name, "Content-Length")
    ensures HeaderOf(Canonical(name)) == Connection <==> SameName(name, "Connection")
    ensures HeaderOf(Canonical(name)) == Referer <==> SameName(name, "Referer")
    ensures HeaderOf(Canonical(name)) == UserAgent <==> SameName(name, "User-Agent")
  {
    hide Canonical, SameName;
    CanonicalForms();
    CanonicalIff(name, "If-Modified-Since");
    CanonicalIff(name, "Content-Type");
    CanonicalIff(name, "Content-Length");
    CanonicalIff(name, "Connection");
    CanonicalIff(name, "Referer");
    CanonicalIff(name, "User-Agent");
  }

  lemma CanonicalForms()
    ensures Canonical("If-Modified-Since") == "IF_MODIFIED_SINCE"
    ensures Canonical("Content-Type") == "CONTENT_TYPE"
    ensures Canonical("Content-Length") == "CONTENT_LENGTH"
    ensures Canonical("Connection") == "CONNECTION"
    ensures Canonical("Referer") == "REFERER"
    ensures Canonical("User-Agent") == "USER_AGENT"
  {
  }
}
