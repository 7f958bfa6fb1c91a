/** What a request means, as a pure parse of the received bytes: the request line of section
  * 3.1.1, header fields of section 3.2 and the bare-LF line end of section 3.5 of RFC 7230. */
module HttpMessage {
  import opened Common
  import opened CText

  const CR := '\r'
  const LF := '\n'
  const MAX_HEADER_LENGTH := 1024

  // ---- The request line ----

  datatype Verb = Get | Head | Post

  function VerbName(v: Verb): string {
    match v case Get => "GET" case Head => "HEAD" case Post => "POST"
  }

  /** `Simple` is the constant "HTTP/0.9"; `InBuffer` points into the request line. */
  datatype Version = Unset | Simple | InBuffer(at: nat)

  datatype Logline =
    | UnknownMethod
    | UriTooLong(verb: Verb)
    | BadVersion(verb: Verb, uri: string)
    | Accepted(verb: Verb, uri: string, version: Version)

  predicate StartsWith(s: string, at: nat, pat: string) {
    at + |pat| <= |s| && s[at..at + |pat|] == pat
  }

  function VerbOf(line: string): Option<Verb> {
    if StartsWith(line, 0, "GET ") then Some(Get)
    else if StartsWith(line, 0, "HEAD ") then Some(Head)
    else if StartsWith(line, 0, "POST ") then Some(Post)
    else None
  }

  /** The two numbers of "HTTP/%u.%u" scanned at `at`. */
  function ScanVersion(s: string, at: nat): Option<(nat, nat)> {
    if !StartsWith(s, at, "HTTP/") then None else
    match ScanNumber(s, at + 5)
    case Nothing => None
    case Number(neg1, p1, dot) =>
      if dot == |s| || s[dot] != '.' then None else
      match ScanNumber(s, dot + 1)
      case Nothing => None
      case Number(neg2, p2, _) => Some((AsUnsigned(neg1, p1), AsUnsigned(neg2, p2)))
  }

  /** 1.0 and 1.1 are kept, 0.x is taken as HTTP/0.9, anything else is refused. */
  function Judged(v: Option<(nat, nat)>, at: nat): Option<Version> {
    if v == None || v.value.0 > 1 || (v.value.0 == 1 && v.value.1 > 1) then None
    else Some(if v.value.0 == 1 then InBuffer(at) else Simple)
  }

  /** The version stated after the URI that ends at `stop2`; None if it is refused. */
  function VersionAt(line: string, stop2: nat): Option<Version>
    requires stop2 <= |line|
  {
    if stop2 == |line| then Some(Simple)
    else
      var at := SkipFrom(line, Space, stop2);
      Judged(ScanVersion(line, at), at)
  }

  function ParseLogline(line: string): Logline {
    match VerbOf(line)
    case None => UnknownMethod
    case Some(verb) =>
      var stop := SkipFrom(line, Space, |VerbName(verb)|);
      var stop2 := FindFrom(line, ' ', stop);
      if stop2 - stop > MAX_HEADER_LENGTH then UriTooLong(verb)
      else
        match VersionAt(line, stop2)
        case None => BadVersion(verb, line[stop..stop2])
        case Some(v) => Accepted(verb, line[stop..stop2], v)
  }

  // ---- Header fields ----

  datatype Field = Field(name: string, value: string)

  datatype Header =
    IfModifiedSince | ContentType | ContentLength | Connection | Referer | UserAgent | Other

  function Upper(c: char): char {
    if c == '-' then '_' else if 'a' <= c <= 'z' then c - ' ' else c
  }

  function Canonical(name: string): (r: string)
    ensures |r| == |name| && forall i :: 0 <= i < |name| ==> r[i] == Upper(name[i])
  {
    seq(|name|, i requires 0 <= i < |name| => Upper(name[i]))
  }

  function HeaderOf(name: string): Header {
    if name == "IF_MODIFIED_SINCE" then IfModifiedSince
    else if name == "CONTENT_TYPE" then ContentType
    else if name == "CONTENT_LENGTH" then ContentLength
    else if name == "CONNECTION" then Connection
    else if name == "REFERER" then Referer
    else if name == "USER_AGENT" then UserAgent
    else Other
  }

  function OptionOf(line: string): Option<Field> {
    var colon := FindFrom(line, ':', 0);
    if colon == |line| then None
    else Some(Field(Canonical(line[..colon]), line[SkipFrom(line, Blank, colon + 1)..]))
  }

  function FieldOf(line: string): seq<Field> {
    match OptionOf(CString(line)) case None => [] case Some(f) => [f]
  }

  function FieldsOf(lines: seq<string>): seq<Field> {
    if lines == [] then [] else FieldOf(lines[0]) + FieldsOf(lines[1..])
  }

  // ---- Cutting the buffer into lines ----

  /** Start of the maximal run of CRs that ends at `to`, not looking before `from`. */
  function CRStart(b: string, from: nat, to: nat): (k: nat)
    requires from <= to <= |b|
    ensures from <= k <= to
  {
    if from == to || b[to - 1] != CR then to else CRStart(b, from, to - 1)
  }

  lemma {:induction false} CRStartRun(b: string, from: nat, to: nat)
    requires from <= to <= |b|
    ensures var k := CRStart(b, from, to);
      (forall i :: k <= i < to ==> b[i] == CR) && (k > from ==> b[k - 1] != CR)
  {
    if from == to || b[to - 1] != CR {
    } else {
      CRStartRun(b, from, to - 1);
    }
  }

  lemma {:induction false} CRStartIs(b: string, from: nat, to: nat, k: nat)
    requires from <= k <= to <= |b|
    requires (forall i :: k <= i < to ==> b[i] == CR) && (k > from ==> b[k - 1] != CR)
    ensures CRStart(b, from, to) == k
  {
    if k == to {
    } else {
      CRStartIs(b, from, to - 1, k);
    }
  }

  /** The lines from `p` on, and the LF that ends the headers if there is one. */
  datatype Cut = Cut(lines: seq<string>, end: Option<nat>)

  function Lines(b: string, p: nat): Cut
    requires p <= |b|
    decreases |b| - p
  {
    var q := FindFrom(b, LF, p);
    if q == |b| then Cut([], None)
    else if CRStart(b, p, q) == p then Cut([], Some(q))
    else
      var rest := Lines(b, q + 1);
      Cut([b[p..CRStart(b, p, q)]] + rest.lines, rest.end)
  }

  lemma LinesStep(b: string, p: nat)
    requires p <= |b|
    ensures var q := FindFrom(b, LF, p);
      q < |b| && CRStart(b, p, q) > p ==>
        && Lines(b, p).lines == [b[p..CRStart(b, p, q)]] + Lines(b, q + 1).lines
        && Lines(b, p).end == Lines(b, q + 1).end
  {
  }

  // ---- The whole request ----

  function FirstLF(b: string): nat { FindFrom(b, LF, 0) }

  function FirstLine(b: string): string {
    CString(b[..CRStart(b, 0, FirstLF(b))])
  }

  datatype Request = Request(
    verb: Option<Verb>, uri: string, version: Version, parsingOptions: bool)

  /** What the request handler sees when the headers end. */
  datatype Served = Served(verb: Option<Verb>, uri: string, version: string)

  datatype Outcome = Outcome(
    ret: int, request: Request, fields: seq<Field>, served: Option<Served>)

  function VersionText(v: Version, line: string): string {
    match v
    case Unset => ""
    case Simple => "HTTP/0.9"
    case InBuffer(at) => if at <= |line| then line[at..] else ""
  }

  /** The fields of the request after its first line, which are set as far as parsing went. */
  function Assigned(r: Request, l: Logline): Request {
    match l
    case UnknownMethod => r.(version := Simple)
    case UriTooLong(verb) => r.(verb := Some(verb), version := Simple, parsingOptions := true)
    case BadVersion(verb, uri) => Request(Some(verb), uri, Simple, true)
    case Accepted(verb, uri, version) => Request(Some(verb), uri, version, true)
  }

  function ParseMessage(b: string, r: Request): Outcome {
    var q := FirstLF(b);
    if q == |b| then Outcome(0, r, [], None)
    else
      var l := ParseLogline(FirstLine(b));
      if !l.Accepted? then Outcome(-1, Assigned(r, l), [], None)
      else
        var cut := Lines(b, q + 1);
        if cut.end == None then Outcome(0, Assigned(r, l), FieldsOf(cut.lines), None)
        else
          Outcome(0, Assigned(r, l).(parsingOptions := false), FieldsOf(cut.lines),
                  Some(Served(Some(l.verb), l.uri, VersionText(l.version, FirstLine(b)))))
  }
}
