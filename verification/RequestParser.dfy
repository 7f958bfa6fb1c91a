/** The in-place request parser: one destructive pass over the receive buffer.
  *
  * Methods that only read the buffer take its bytes as a ghost argument `b`. */
module RequestParser {
  import opened Common
  import opened CText
  import opened HttpMessage

  class HttpRequest {
    var verb: Option<Verb>
    var uri: string
    var version: Version
    var parsingOptions: bool

    ghost function Fields(): Request
      reads this
    {
      Request(verb, uri, version, parsingOptions)
    }
  }

  /** Compares `pat` with the bytes at `at`, up to the first difference. */
  predicate Memcmp(buff: array<char>, at: nat, pat: string)
    reads buff
  {
    StartsWith(buff[..], at, pat)
  }

  lemma PrefixOfString(b: string, pat: string)
    requires Terminated(b, 0) && NUL !in pat
    ensures StartsWith(b, 0, pat) <==> StartsWith(StringAt(b, 0), 0, pat)
  {
    var s := StringAt(b, 0);
    StringAtChars(b, 0);
    if StartsWith(b, 0, pat) {
      assert forall i :: 0 <= i < |pat| ==> b[i] == pat[i];
      assert |pat| <= |s|;
      assert s[..|pat|] == b[..|pat|];
    }
  }

  lemma WholeName(b: string, at: nat, pat: string)
    requires Terminated(b, at) && NUL !in pat
    ensures StartsWith(b, at, pat + [NUL]) <==> StringAt(b, at) == pat
  {
    var n := |pat|;
    StringAtChars(b, at);
    if StartsWith(b, at, pat + [NUL]) {
      var t := b[at..at + n + 1];
      assert t[..n] == pat && t[n] == NUL;
      assert forall i :: 0 <= i < n ==> b[at + i] == t[i] == pat[i];
      StringAtIs(b, at, n);
      assert b[at..at + n] == t[..n];
    }
  }

  /** Steps over a run of characters of the string at `base`. */
  method Skip(buff: array<char>, base: nat, from: nat, cs: Class, ghost b: string)
    returns (to: nat)
    requires b == buff[..] && Terminated(b, base) && !cs.Has(NUL)
    requires base <= from <= base + |StringAt(b, base)|
    ensures to == base + SkipFrom(StringAt(b, base), cs, from - base)
  {
    ghost var s := StringAt(b, base);
    StringAtChars(b, base);
    to := from;
    while cs.Has(buff[to])
      invariant from <= to <= base + |s|
      invariant forall i :: from - base <= i < to - base ==> cs.Has(s[i])
      decreases base + |s| - to
    {
      assert b[to] == buff[to];
      to := to + 1;
    }
    assert b[to] == buff[to];
    SkipFromIs(s, cs, from - base, to - base);
  }

  // ---- The request line ----

  method MatchVerb(buff: array<char>, ghost b: string) returns (verb: Option<Verb>)
    requires b == buff[..] && Terminated(b, 0)
    ensures verb == VerbOf(StringAt(b, 0))
  {
    PrefixOfString(b, "GET ");
    PrefixOfString(b, "HEAD ");
    PrefixOfString(b, "POST ");
    if Memcmp(buff, 0, "GET ") {
      verb := Some(Get);
    } else if Memcmp(buff, 0, "HEAD ") {
      verb := Some(Head);
    } else if Memcmp(buff, 0, "POST ") {
      verb := Some(Post);
    } else {
      verb := None;
    }
  }

  /** Steps over the method and the blanks after it. */
  method FindUri(buff: array<char>, ghost verb: Verb, ghost b: string) returns (stop: nat)
    requires b == buff[..] && Terminated(b, 0) && VerbOf(StringAt(b, 0)) == Some(verb)
    ensures stop == SkipFrom(StringAt(b, 0), Space, |VerbName(verb)|)
  {
    StringAtChars(b, 0);
    stop := 3;
    if buff[stop] != ' ' {
      stop := stop + 1;
    }
    assert stop == |VerbName(verb)|;
    stop := Skip(buff, 0, stop, Space, b);
  }

  method FindUriEnd(buff: array<char>, stop: nat, ghost b: string) returns (stop2: nat)
    requires b == buff[..] && Terminated(b, 0) && stop <= |StringAt(b, 0)|
    ensures stop2 == FindFrom(StringAt(b, 0), ' ', stop)
  {
    ghost var s := StringAt(b, 0);
    StringAtChars(b, 0);
    stop2 := stop;
    while buff[stop2] != NUL && buff[stop2] != ' '
      invariant stop <= stop2 <= |s|
      invariant forall i :: stop <= i < stop2 ==> s[i] != ' '
      decreases |s| - stop2
    {
      assert b[stop2] == buff[stop2];
      stop2 := stop2 + 1;
    }
    assert b[stop2] == buff[stop2];
    FindFromIs(s, ' ', stop, stop2);
  }

  method JudgeVersion(scanned: Option<(nat, nat)>, at: nat) returns (version: Option<Version>)
    ensures version == Judged(scanned, at)
  {
    version := Some(Simple);
    if scanned.Some? {
      var (p1, p2) := scanned.value;
      if p1 == 1 && (p2 == 0 || p2 == 1) {
        version := Some(InBuffer(at));
      } else if p1 > 1 || (p1 != 0 && p2 > 1) {
        version := None;
      }
    } else {
      version := None;
    }
  }

  method ReadVersion(buff: array<char>, stop2: nat, ghost b: string)
    returns (version: Option<Version>)
    requires b == buff[..] && Terminated(b, 0) && stop2 <= |StringAt(b, 0)|
    requires stop2 < |StringAt(b, 0)| ==> b[stop2] == ' '
    ensures version == VersionAt(StringAt(b, 0), stop2)
  {
    hide ScanVersion, Judged;
    StringAtChars(b, 0);
    if buff[stop2] == ' ' {
      var at := Skip(buff, 0, stop2, Space, b);
      assert buff[..][0..] == b;
      version := JudgeVersion(ScanVersion(StringAt(buff[..], 0), at), at);
    } else {
      version := Some(Simple);
    }
  }

  method ProcessLogline(buff: array<char>, req: HttpRequest, ghost b: string) returns (ret: int)
    requires b == buff[..] && Terminated(b, 0)
    modifies req
    ensures ret == if ParseLogline(StringAt(b, 0)).Accepted? then 0 else -1
    ensures req.Fields() == Assigned(old(req.Fields()), ParseLogline(StringAt(b, 0)))
  {
    hide VersionAt, VerbOf, SkipFrom, FindFrom;
    req.version := Simple;
    var verb := MatchVerb(buff, b);
    if verb == None {
      return -1;
    }
    req.verb := verb;
    req.parsingOptions := true;

    var stop := FindUri(buff, verb.value, b);
    var stop2 := FindUriEnd(buff, stop, b);
    if stop2 - stop > MAX_HEADER_LENGTH {
      return -1;
    }
    StringAtChars(b, 0);
    req.uri := buff[stop..stop2];
    assert req.uri == b[stop..stop2] == StringAt(b, 0)[stop..stop2];
    var version := ReadVersion(buff, stop2, b);
    if version == None {
      return -1;
    }
    req.version := version.value;
    return 0;
  }

  lemma SameFrom(b: string, b': string, start: nat, k: nat)
    requires |b| == |b'| && start <= k <= |b| && b[start..] == b'[start..]
    ensures b[k..] == b'[k..]
  {
    assert b[k..] == b[start..][k - start..];
  }

  /** Bytes of the current line are still as they were received. */
  lemma SameLine(b: string, bytes: string, len: nat, start: nat, end: nat)
    requires start <= end <= len <= |b| == |bytes| && bytes[start..] == b[start..]
    ensures bytes[start..end] == b[..len][start..end]
  {
    assert bytes[start..end] == bytes[start..][..end - start];
  }

  // ---- Header lines ----

  /** `b` with the name in `from..to` put in canonical form. */
  function Uppered(b: string, from: nat, to: nat): string
    requires from <= to <= |b|
  {
    seq(|b|, i requires 0 <= i < |b| => if from <= i < to then Upper(b[i]) else b[i])
  }

  method ToUpper(buff: array<char>, at: nat, ghost b: string)
    requires b == buff[..] && Terminated(b, at)
    modifies buff
    ensures buff[..] == Uppered(b, at, at + |StringAt(b, at)|)
  {
    ghost var end := at + |StringAt(b, at)|;
    StringAtChars(b, at);
    var str := at;
    while buff[str] != NUL
      invariant at <= str <= end < buff.Length
      invariant forall i :: 0 <= i < buff.Length ==>
        buff[i] == if at <= i < str then Upper(b[i]) else b[i]
      decreases end - str
    {
      if buff[str] == '-' {
        buff[str] := '_';
      } else if 'a' <= buff[str] <= 'z' {
        buff[str] := buff[str] - ' ';
      }
      str := str + 1;
    }
  }

  /** The chain of comparisons, each long enough to include the NUL that ends the name. */
  method Classify(buff: array<char>, line: nat, ghost b: string) returns (header: Header)
    requires b == buff[..] && Terminated(b, line)
    ensures header == HeaderOf(StringAt(b, line))
  {
    WholeName(b, line, "IF_MODIFIED_SINCE");
    WholeName(b, line, "CONTENT_TYPE");
    WholeName(b, line, "CONTENT_LENGTH");
    WholeName(b, line, "CONNECTION");
    WholeName(b, line, "REFERER");
    WholeName(b, line, "USER_AGENT");
    if Memcmp(buff, line, "IF_MODIFIED_SINCE" + [NUL]) {
      header := IfModifiedSince;
    } else if Memcmp(buff, line, "CONTENT_TYPE" + [NUL]) {
      header := ContentType;
    } else if Memcmp(buff, line, "CONTENT_LENGTH" + [NUL]) {
      header := ContentLength;
    } else if Memcmp(buff, line, "CONNECTION" + [NUL]) {
      header := Connection;
    } else if Memcmp(buff, line, "REFERER" + [NUL]) {
      header := Referer;
    } else if Memcmp(buff, line, "USER_AGENT" + [NUL]) {
      header := UserAgent;
    } else {
      header := Other;
    }
  }

  /** The buffer after a header line with a colon at `line + colon` is split. */
  function Split(b: string, line: nat, colon: nat): string
    requires line + colon < |b|
  {
    seq(|b|, i requires 0 <= i < |b| =>
      if i == line + colon then NUL else if line <= i < line + colon then Upper(b[i]) else b[i])
  }

  lemma SplitKeeps(b: string, line: nat, colon: nat)
    requires Terminated(b, line) && colon < |StringAt(b, line)|
    ensures var b' := Split(b, line, colon);
      && |b'| == |b| && b'[..line] == b[..line] && b'[line + colon + 1..] == b[line + colon + 1..]
      && Terminated(b', line) && StringAt(b', line) == Canonical(StringAt(b, line)[..colon])
  {
    var s, b' := StringAt(b, line), Split(b, line, colon);
    StringAtChars(b, line);
    assert b[line..line + colon] == s[..colon];
    assert forall i :: 0 <= i < colon ==> b'[line + i] == Upper(s[i]) != NUL;
    StringAtIs(b', line, colon);
  }

  method CutName(buff: array<char>, line: nat, colon: nat, ghost b: string)
    requires b == buff[..] && Terminated(b, line) && colon < |StringAt(b, line)|
    modifies buff
    ensures buff[..] == Split(b, line, colon)
  {
    StringAtChars(b, line);
    buff[line + colon] := NUL;
    ghost var cut := b[line + colon := NUL];
    assert buff[..] == cut;
    StringAtIs(cut, line, colon);
    ToUpper(buff, line, cut);
    assert Uppered(cut, line, line + colon) == Split(b, line, colon) by {
      assert cut[line..line + colon] == b[line..line + colon];
    }
  }

  /** The value after the colon, read in the split buffer. */
  method ReadValue(buff: array<char>, from: nat, ghost b: string) returns (value: string)
    requires b == buff[..] && Terminated(b, from)
    ensures value == StringAt(b, from)[SkipFrom(StringAt(b, from), Blank, 0)..]
  {
    var at := Skip(buff, from, from, Blank, b);
    StringInside(b, from, at - from);
    value := StringAt(buff[..], at);
  }

  /** Splits a line that has a colon into its canonical name and its value. */
  method SplitLine(buff: array<char>, line: nat, colon: nat, ghost b: string)
    returns (field: Field)
    requires b == buff[..] && Terminated(b, line) && colon < |StringAt(b, line)|
    modifies buff
    ensures buff[..] == Split(b, line, colon)
    ensures Terminated(buff[..], line) && StringAt(buff[..], line) == field.name
    ensures var s := StringAt(b, line);
      field == Field(Canonical(s[..colon]), s[SkipFrom(s, Blank, colon + 1)..])
  {
    CutName(buff, line, colon, b);
    SplitKeeps(b, line, colon);
    ValueKept(b, line, colon);
    var value := ReadValue(buff, line + colon + 1, Split(b, line, colon));
    field := Field(StringAt(buff[..], line), value);
  }

  method ProcessOptionLine(buff: array<char>, line: nat, ghost b: string)
    returns (ret: int, field: Option<Field>, header: Header)
    requires b == buff[..] && Terminated(b, line)
    modifies buff
    ensures ret == 0 && field == OptionOf(StringAt(b, line))
    ensures header == match field case None => Other case Some(f) => HeaderOf(f.name)
    ensures buff[..] == match field
      case None => b
      case Some(_) => Split(b, line, FindFrom(StringAt(b, line), ':', 0))
    ensures var end := line + |StringAt(b, line)|;
      |buff[..]| == |b| && buff[..line] == b[..line] && buff[end..] == b[end..]
  {
    var colon := FindFrom(StringAt(buff[..], line), ':', 0);
    StringAtChars(b, line);
    ret, field, header := 0, None, Other;
    if buff[line + colon] != NUL {
      var f := SplitLine(buff, line, colon, b);
      header := Classify(buff, line, buff[..]);
      field := Some(f);
      SplitKeeps(b, line, colon);
      SameFrom(buff[..], b, line + colon + 1, line + |StringAt(b, line)|);
    }
  }

  lemma TailKept(b: string, line: nat, colon: nat)
    requires Terminated(b, line) && colon < |StringAt(b, line)|
    ensures var b', from := Split(b, line, colon), line + colon + 1;
      Terminated(b', from) && StringAt(b', from) == StringAt(b, line)[colon + 1..]
  {
    var b', from, s := Split(b, line, colon), line + colon + 1, StringAt(b, line);
    StringAtChars(b, line);
    StringAtIs(b', from, |s| - colon - 1);
  }

  lemma ValueKept(b: string, line: nat, colon: nat)
    requires Terminated(b, line) && colon < |StringAt(b, line)|
    ensures var b', from, s := Split(b, line, colon), line + colon + 1, StringAt(b, line);
      && Terminated(b', from)
      && var t := StringAt(b', from);
         t[SkipFrom(t, Blank, 0)..] == s[SkipFrom(s, Blank, colon + 1)..]
  {
    TailKept(b, line, colon);
    SkipFromSlice(StringAt(b, line), Blank, colon + 1);
  }

  // ---- The scanner ----

  datatype Status = ReadHeader | OneCR | OneLF | TwoCR | BodyRead

  predicate AllOf(o: string, from: nat, to: nat, c: char)
    requires to <= |o|
  {
    forall i :: from <= i < to ==> o[i] == c
  }

  /** What the scanner knows at `check` about the line that starts at `start`. */
  predicate Scanned(o: string, start: nat, check: nat, status: Status, lineEnd: Option<nat>,
                    first: bool)
  {
    && start <= check <= |o|
    && (forall i :: start <= i < check ==> o[i] != LF)
    && match status
       case ReadHeader => if check == start then first else o[check - 1] != CR
       case OneCR =>
         && lineEnd.Some? && start <= lineEnd.value < check
         && AllOf(o, lineEnd.value, check, CR)
         && (if lineEnd.value == start then first else o[lineEnd.value - 1] != CR)
       case OneLF => !first && check == start
       case TwoCR => !first && start < check && AllOf(o, start, check, CR)
       case BodyRead => false
  }

  function NextStatus(status: Status, c: char): Status {
    match status
    case ReadHeader => if c == CR then OneCR else if c == LF then OneLF else ReadHeader
    case OneCR => if c == LF then OneLF else if c != CR then ReadHeader else OneCR
    case OneLF => if c == CR then TwoCR else if c == LF then BodyRead else ReadHeader
    case TwoCR => if c == LF then BodyRead else if c != CR then ReadHeader else TwoCR
    case BodyRead => BodyRead
  }

  function NextLineEnd(status: Status, c: char, check: nat, lineEnd: Option<nat>): Option<nat> {
    if status == ReadHeader && (c == CR || c == LF) then Some(check) else lineEnd
  }

  lemma ScanStep(o: string, start: nat, check: nat, status: Status, lineEnd: Option<nat>,
                 first: bool)
    requires Scanned(o, start, check, status, lineEnd, first) && check < |o|
    ensures var next, end := NextStatus(status, o[check]), NextLineEnd(status, o[check], check, lineEnd);
      match next
      case OneLF =>
        && FindFrom(o, LF, start) == check && (first || CRStart(o, start, check) > start)
        && end.Some? && start <= CRStart(o, start, check) == end.value
      case BodyRead => !first && FindFrom(o, LF, start) == check && CRStart(o, start, check) == start
      case _ => Scanned(o, start, check + 1, next, end, first)
  {
    var next, end := NextStatus(status, o[check]), NextLineEnd(status, o[check], check, lineEnd);
    if o[check] == LF {
      FindFromIs(o, LF, start, check);
      if next == OneLF {
        CRStartIs(o, start, check, end.value);
      } else {
        CRStartIs(o, start, check, start);
      }
    }
  }

  // ---- The parse loop ----

  /** The outcome of a parse that has reached the line at `start` with the request `now`, whose
    * request line was `line`, and has reported `fields`. */
  function Resume(o: string, start: nat, now: Request, line: string, fields: seq<Field>): Outcome
    requires start <= |o|
  {
    var cut := Lines(o, start);
    var all := fields + FieldsOf(cut.lines);
    if cut.end == None then Outcome(0, now, all, None)
    else Outcome(0, now.(parsingOptions := false), all,
                 Some(Served(now.verb, now.uri, VersionText(now.version, line))))
  }

  lemma FieldsCons(line: string, rest: seq<string>)
    ensures FieldsOf([line] + rest) == FieldOf(line) + FieldsOf(rest)
  {
    assert ([line] + rest)[1..] == rest;
  }

  lemma ResumeStep(o: string, start: nat, now: Request, line: string, fields: seq<Field>)
    requires start <= |o|
    requires var q := FindFrom(o, LF, start); q < |o| && CRStart(o, start, q) > start
    ensures var q := FindFrom(o, LF, start);
      Resume(o, start, now, line, fields)
        == Resume(o, q + 1, now, line, fields + FieldOf(o[start..CRStart(o, start, q)]))
  {
    var q := FindFrom(o, LF, start);
    var option, rest := o[start..CRStart(o, start, q)], Lines(o, q + 1).lines;
    LinesStep(o, start);
    FieldsCons(option, rest);
    Shift(fields, FieldOf(option), FieldsOf(rest));
  }

  lemma ResumeFirst(o: string, r: Request, now: Request)
    requires FirstLF(o) < |o| && ParseLogline(FirstLine(o)).Accepted?
    requires now == Assigned(r, ParseLogline(FirstLine(o)))
    ensures ParseMessage(o, r) == Resume(o, FirstLF(o) + 1, now, FirstLine(o), [])
  {
    var lines := Lines(o, FirstLF(o) + 1).lines;
    assert [] + FieldsOf(lines) == FieldsOf(lines);
  }

  lemma ResumeAtEnd(o: string, start: nat, now: Request, line: string, fields: seq<Field>)
    requires start <= |o|
    requires var q := FindFrom(o, LF, start); q < |o| ==> CRStart(o, start, q) == start
    ensures Lines(o, start).lines == []
    ensures Resume(o, start, now, line, fields) ==
      if FindFrom(o, LF, start) == |o| then Outcome(0, now, fields, None)
      else Outcome(0, now.(parsingOptions := false), fields,
                   Some(Served(now.verb, now.uri, VersionText(now.version, line))))
  {
    assert fields + [] == fields;
  }

  lemma NothingParsed(o: string, r: Request)
    requires forall i :: 0 <= i < |o| ==> o[i] != LF
    ensures ParseMessage(o, r) == Outcome(0, r, [], None)
  {
    FindFromIs(o, LF, 0, |o|);
  }

  /** What the version field denotes now. */
  function VersionIn(b: string, v: Version): string {
    VersionText(v, if |b| == 0 then "" else StringAt(b, 0))
  }

  /** Ends a header line, hands it over, and leaves all bytes outside the line alone. */
  method EndOptionLine(buff: array<char>, line: nat, end: nat, ghost b: string)
    returns (reported: seq<Field>)
    requires b == buff[..] && line <= end < |b|
    modifies buff
    ensures reported == FieldOf(b[line..end])
    ensures |buff[..]| == |b| && buff[..line] == b[..line] && buff[end + 1..] == b[end + 1..]
  {
    hide OptionOf, Split;
    buff[end] := NUL;
    ghost var b1 := b[end := NUL];
    StringCut(b, line, end);
    var ret, field, header := ProcessOptionLine(buff, line, b1);
    reported := [];
    if field.Some? {
      reported := [field.value];
    }
    SameFrom(buff[..], b1, line + |CString(b[line..end])|, end + 1);
    assert b1[end + 1..] == b[end + 1..];
  }

  /** Ends the request line and parses it. */
  method EndFirstLine(buff: array<char>, end: nat, req: HttpRequest, ghost b: string)
    returns (ret: int)
    requires b == buff[..] && end < |b|
    modifies buff, req
    ensures buff[..] == b[end := NUL]
    ensures Terminated(buff[..], 0) && StringAt(buff[..], 0) == CString(b[..end])
    ensures var l := ParseLogline(CString(b[..end]));
      req.Fields() == Assigned(old(req.Fields()), l) && ret == if l.Accepted? then 0 else -1
  {
    buff[end] := NUL;
    StringCut(b, 0, end);
    assert b[0..end] == b[..end];
    ret := ProcessLogline(buff, req, b[end := NUL]);
  }

  /** One step of the scanner's switch. */
  method Advance(c: char, check: nat, status: Status, lineEnd: Option<nat>)
    returns (next: Status, end: Option<nat>)
    ensures next == NextStatus(status, c) && end == NextLineEnd(status, c, check, lineEnd)
  {
    next, end := status, lineEnd;
    match status {
      case ReadHeader =>
        if c == CR {
          next := OneCR;
          end := Some(check);
        } else if c == LF {
          next := OneLF;
          end := Some(check);
        }
      case OneCR =>
        if c == LF {
          next := OneLF;
        } else if c != CR {
          next := ReadHeader;
        }
      case OneLF =>
        if c == CR {
          next := TwoCR;
        } else if c == LF {
          next := BodyRead;
        } else {
          next := ReadHeader;
        }
      case TwoCR =>
        if c == LF {
          next := BodyRead;
        } else if c != CR {
          next := ReadHeader;
        }
      case BodyRead =>
    }
  }

  /** The loop's state between two header lines: `goal` is the outcome of the whole parse,
    * `all` its header lines, `handed` those already handed over.  The bytes from `start` on are
    * as received, and the request line still stands at the front of the buffer. */
  predicate AtLine(b: string, len: nat, goal: Outcome, all: seq<string>, line: string, start: nat,
                   now: Request, bytes: string, handed: seq<string>, fields: seq<Field>)
  {
    && now.parsingOptions && start <= len <= |b| == |bytes| && bytes[start..] == b[start..]
    && Terminated(bytes, 0) && StringAt(bytes, 0) == line && |line| < start
    && goal == Resume(b[..len], start, now, line, fields)
    && all == handed + Lines(b[..len], start).lines
  }

  /** The scanner completed the line `start..q`, whose text ends at `end`. */
  predicate LineFound(o: string, start: nat, end: nat, q: nat, first: bool) {
    && start <= q < |o| && FindFrom(o, LF, start) == q && CRStart(o, start, q) == end
    && (first || start < end)
  }

  lemma AfterOption(b: string, len: nat, goal: Outcome, all: seq<string>, line: string,
                    start: nat, now: Request, bytes: string, handed: seq<string>,
                    fields: seq<Field>, end: nat, q: nat, bytes': string)
    requires AtLine(b, len, goal, all, line, start, now, bytes, handed, fields)
    requires LineFound(b[..len], start, end, q, false)
    requires |bytes'| == |b| && bytes'[..start] == bytes[..start]
    requires bytes'[end + 1..] == bytes[end + 1..]
    ensures var option := b[..len][start..end];
      AtLine(b, len, goal, all, line, q + 1, now, bytes', handed + [option],
             fields + FieldOf(option))
  {
    hide Resume, Lines, FieldOf, CRStart, FindFrom;
    var o := b[..len];
    ResumeStep(o, start, now, line, fields);
    LinesStep(o, start);
    Shift(handed, [o[start..end]], Lines(o, q + 1).lines);
    StringKept(bytes, bytes', 0, start);
    SameFrom(bytes', bytes, end + 1, q + 1);
    SameFrom(bytes, b, start, q + 1);
  }

  /** Handles one header line. */
  method TakeOption(buff: array<char>, start: nat, end: nat, fields: seq<Field>, ghost q: nat,
                    ghost b: string, ghost len: nat, ghost goal: Outcome, ghost all: seq<string>,
                    ghost line: string, ghost now: Request, ghost handed: seq<string>)
    returns (fields': seq<Field>, ghost handed': seq<string>)
    requires AtLine(b, len, goal, all, line, start, now, buff[..], handed, fields)
    requires LineFound(b[..len], start, end, q, false)
    modifies buff
    ensures AtLine(b, len, goal, all, line, q + 1, now, buff[..], handed', fields')
  {
    ghost var bytes, option := buff[..], buff[start..end];
    SameLine(b, bytes, len, start, end);
    var reported := EndOptionLine(buff, start, end, bytes);
    AfterOption(b, len, goal, all, line, start, now, bytes, handed, fields, end, q, buff[..]);
    fields', handed' := fields + reported, handed + [option];
  }

  lemma AfterFirst(b: string, len: nat, r: Request, now: Request, end: nat, bytes: string)
    requires len <= |b| == |bytes| && !r.parsingOptions
    requires var o := b[..len];
      FirstLF(o) < len && LineFound(o, 0, end, FirstLF(o), true) && bytes == b[end := NUL]
    requires Terminated(bytes, 0) && StringAt(bytes, 0) == CString(b[..end])
    requires now == Assigned(r, ParseLogline(CString(b[..end])))
    ensures var o := b[..len];
      if ParseLogline(CString(b[..end])).Accepted? then
        AtLine(b, len, ParseMessage(o, r), Lines(o, FirstLF(o) + 1).lines, FirstLine(o),
               FirstLF(o) + 1, now, bytes, [], [])
      else ParseMessage(o, r) == Outcome(-1, now, [], None)
  {
    hide ParseLogline, ParseMessage, Lines, Resume;
    var o := b[..len];
    assert b[..end] == o[..end];
    var l := ParseLogline(FirstLine(o));
    if l.Accepted? {
      ResumeFirst(o, r, now);
      var lines := Lines(o, FirstLF(o) + 1).lines;
      assert [] + lines == lines;
    } else {
      Rejected(o, r);
    }
  }

  lemma Rejected(o: string, r: Request)
    requires FirstLF(o) < |o| && !ParseLogline(FirstLine(o)).Accepted?
    ensures ParseMessage(o, r) == Outcome(-1, Assigned(r, ParseLogline(FirstLine(o))), [], None)
  {
  }

  /** The outcome of the whole parse, its header lines and its request line. */
  predicate Goals(o: string, r: Request, goal: Outcome, all: seq<string>, line: string) {
    && goal == ParseMessage(o, r) && line == FirstLine(o)
    && all == if FirstLF(o) < |o| then Lines(o, FirstLF(o) + 1).lines else []
  }

  /** Handles the request line. */
  method TakeFirst(buff: array<char>, end: nat, req: HttpRequest, ghost q: nat, ghost b: string,
                   ghost len: nat, ghost goal: Outcome, ghost all: seq<string>, ghost line: string)
    returns (ret: int)
    requires b == buff[..] && len <= |b| && !req.parsingOptions
    requires LineFound(b[..len], 0, end, q, true)
    requires Goals(b[..len], req.Fields(), goal, all, line)
    modifies buff, req
    ensures (ret == 0 && req.parsingOptions) || ret == -1
    ensures ret == 0 ==> AtLine(b, len, goal, all, line, q + 1, req.Fields(), buff[..], [], [])
    ensures ret == -1 ==> goal == Outcome(-1, req.Fields(), [], None)
    ensures buff.Length == |b| && buff[len..] == b[len..]
  {
    hide ParseMessage, ParseLogline, FirstLine, Lines, Resume, CRStart, FindFrom, AtLine;
    ghost var r := req.Fields();
    ret := EndFirstLine(buff, end, req, b);
    AfterFirst(b, len, r, req.Fields(), end, buff[..]);
  }

  lemma Untouched(b: string, len: nat, goal: Outcome, all: seq<string>, line: string, start: nat,
                  now: Request, bytes: string, handed: seq<string>, fields: seq<Field>, check: nat)
    requires AtLine(b, len, goal, all, line, start, now, bytes, handed, fields)
    requires start <= check < len
    ensures len <= |b| == |bytes| && bytes[check] == b[..len][check]
  {
    assert bytes[start..][check - start] == b[start..][check - start];
  }

  lemma Finished(b: string, len: nat, goal: Outcome, all: seq<string>, line: string, start: nat,
                 now: Request, bytes: string, handed: seq<string>, fields: seq<Field>)
    requires AtLine(b, len, goal, all, line, start, now, bytes, handed, fields)
    requires var q := FindFrom(b[..len], LF, start); q < len ==> CRStart(b[..len], start, q) == start
    ensures all == handed && len <= |b| == |bytes| && bytes[len..] == b[len..]
    ensures Terminated(bytes, 0) && StringAt(bytes, 0) == line
    ensures goal ==
      if FindFrom(b[..len], LF, start) == len then Outcome(0, now, fields, None)
      else Outcome(0, now.(parsingOptions := false), fields,
                   Some(Served(now.verb, now.uri, VersionIn(bytes, now.version))))
  {
    ResumeAtEnd(b[..len], start, now, line, fields);
    assert handed + [] == handed;
    SameFrom(bytes, b, start, len);
  }

  /** The whole pass.  After any number of edited header lines the request line, into which the
    * version may point, still stands at the front of the buffer. */
  method HeaderParse(buff: array<char>, len: nat, req: HttpRequest)
    returns (ret: int, fields: seq<Field>, served: Option<Served>, ghost handed: seq<string>)
    requires len <= buff.Length && !req.parsingOptions
    modifies buff, req
    ensures Outcome(ret, req.Fields(), fields, served)
         == ParseMessage(old(buff[..len]), old(req.Fields()))
    ensures ret == 0 && FirstLF(old(buff[..len])) < len
        ==> handed == Lines(old(buff[..len]), FirstLF(old(buff[..len])) + 1).lines
    ensures ret == 0 && FirstLF(old(buff[..len])) < len
        ==> Terminated(buff[..], 0) && StringAt(buff[..], 0) == FirstLine(old(buff[..len]))
    ensures buff[len..] == old(buff[len..])
  {
    hide ParseMessage, FirstLine, Lines, Resume, CRStart, FindFrom, AtLine, VersionIn, StringAt;
    ghost var b, r := buff[..], req.Fields();
    ghost var o, start: nat := b[..len], 0;
    ghost var goal, line := ParseMessage(o, r), FirstLine(o);
    ghost var all := if FirstLF(o) < len then Lines(o, FirstLF(o) + 1).lines else [];
    var check, status := 0, ReadHeader;
    var lineEnd: Option<nat>, headerLine: Option<nat> := None, None;
    ret, fields, served, handed := 0, [], None, [];

    while check < len
      invariant Scanned(o, start, check, status, lineEnd, !req.parsingOptions)
      invariant ret == 0 && served == None
      invariant if req.parsingOptions
        then AtLine(b, len, goal, all, line, start, req.Fields(), buff[..], handed, fields)
             && headerLine == Some(start)
        else start == 0 && buff[..] == b && req.Fields() == r && handed == [] && fields == []
    {
      if req.parsingOptions {
        Untouched(b, len, goal, all, line, start, req.Fields(), buff[..], handed, fields, check);
      }
      assert buff[..][check] == o[check];
      ScanStep(o, start, check, status, lineEnd, !req.parsingOptions);
      status, lineEnd := Advance(buff[check], check, status, lineEnd);
      check := check + 1;
      if status == OneLF {
        if req.parsingOptions {
          fields, handed := TakeOption(buff, headerLine.value, lineEnd.value, fields, check - 1,
                                       b, len, goal, all, line, req.Fields(), handed);
        } else {
          ret := TakeFirst(buff, lineEnd.value, req, check - 1, b, len, goal, all, line);
          if ret == -1 {
            return;
          }
        }
        headerLine, start := Some(check), check;
      } else if status == BodyRead {
        Finished(b, len, goal, all, line, start, req.Fields(), buff[..], handed, fields);
        req.parsingOptions := false;
        served := Some(Served(req.verb, req.uri, VersionIn(buff[..], req.version)));
        return;
      }
    }
    if req.parsingOptions {
      FindFromIs(o, LF, start, len);
      Finished(b, len, goal, all, line, start, req.Fields(), buff[..], handed, fields);
    } else {
      NothingParsed(o, r);
      FindFromIs(o, LF, 0, len);
    }
  }
}
