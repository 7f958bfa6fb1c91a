/** The form of the configuration editor: trimming, the accept decision, and what is written. */
module ConfigEditor {
  import opened Common
  import opened CText
  import opened Configuration
  import opened NumberTheorems

  // ---- Trimming ----

  /** Position after the last character of `s[from..to]` that is not white. */
  function TrimEnd(s: string, from: nat, to: nat): (k: nat)
    requires from <= to <= |s|
    ensures from <= k <= to && (k > from ==> !White.Has(s[k - 1]))
  {
    if from < to && White.Has(s[to - 1]) then TrimEnd(s, from, to - 1) else to
  }

  lemma {:induction false} TrimEndIs(s: string, from: nat, to: nat, k: nat)
    requires from <= k <= to <= |s| && (k > from ==> !White.Has(s[k - 1]))
    requires forall i :: k <= i < to ==> White.Has(s[i])
    ensures TrimEnd(s, from, to) == k
  {
    if k == to {
    } else {
      TrimEndIs(s, from, to - 1, k);
    }
  }

  lemma {:induction false} TrimEndWhite(s: string, from: nat, to: nat)
    requires from <= to <= |s|
    ensures forall i :: TrimEnd(s, from, to) <= i < to ==> White.Has(s[i])
  {
    if from == to || !White.Has(s[to - 1]) {
    } else {
      TrimEndWhite(s, from, to - 1);
    }
  }

  function Trim(s: string): Option<string> {
    var start := SkipFrom(s, White, 0);
    if start == |s| then None else Some(s[start..TrimEnd(s, start, |s|)])
  }

  /** Trims in place: the string starts at the result, and a NUL is written after its end. */
  method TrimWhitespaces(buff: array<char>, ghost s: string) returns (start: Option<nat>)
    requires Holds(buff, s)
    modifies buff
    ensures start.None? <==> Trim(s).None?
    ensures start.Some? ==>
      Terminated(buff[..], start.value) && StringAt(buff[..], start.value) == Trim(s).value
  {
    hide StringAt, Terminated, FindFrom, SkipFrom, TrimEnd;
    ghost var b := buff[..];
    StringAtChars(b, 0);
    var str := 0;
    while buff[str] != NUL && White.Has(buff[str])
      invariant str <= |s|
      invariant forall i :: 0 <= i < str ==> White.Has(s[i])
      decreases |s| - str
    {
      str := str + 1;
    }
    SkipFromIs(s, White, 0, str);
    StringInside(b, 0, str);
    var len := Strlen(buff, str);
    if len == 0 {
      return None;
    }
    var end := SkipBack(buff, str, str + len, b);
    buff[end] := NUL;
    CutAt(b, str, end);
    return Some(str);
  }

  method SkipBack(buff: array<char>, str: nat, length: nat, ghost b: string) returns (end: nat)
    requires b == buff[..] && Terminated(b, 0) && length == |StringAt(b, 0)|
    requires str < length && !White.Has(b[str])
    ensures str < end <= length && end == TrimEnd(StringAt(b, 0), str, length)
  {
    ghost var s := StringAt(b, 0);
    StringAtChars(b, 0);
    end := length;
    while end > str && White.Has(buff[end - 1])
      invariant str < end <= length
      invariant forall i :: end <= i < length ==> White.Has(s[i])
    {
      end := end - 1;
    }
    TrimEndIs(s, str, length, end);
  }

  lemma CutAt(b: string, str: nat, end: nat)
    requires Terminated(b, 0) && str <= end <= |StringAt(b, 0)|
    ensures Terminated(b[end := NUL], str)
    ensures StringAt(b[end := NUL], str) == StringAt(b, 0)[str..end]
  {
    var s, cut := StringAt(b, 0), b[end := NUL];
    StringAtChars(b, 0);
    assert forall i :: str <= i < end ==> cut[i] == s[i];
    StringAtIs(cut, str, end - str);
  }

  /** `s` without its white characters. */
  function Squeeze(s: string): string {
    if s == [] then []
    else Squeeze(s[..|s| - 1]) + if White.Has(s[|s| - 1]) then [] else [s[|s| - 1]]
  }

  function TrimAll(s: string): Option<string> {
    if Squeeze(s) == [] then None else Some(Squeeze(s))
  }

  method TrimAllWhitespaces(str: string) returns (result: Option<string>)
    ensures result == TrimAll(str)
  {
    var newString := new char[|str| + 1];
    var index, i := 0, 0;
    while i < |str|
      invariant index <= i <= |str| && newString[..index] == Squeeze(str[..i])
    {
      assert str[..i + 1][..i] == str[..i];
      if !White.Has(str[i]) {
        newString[index] := str[i];
        index := index + 1;
      }
      i := i + 1;
    }
    assert str[..i] == str;
    if index == 0 {
      return None;
    }
    newString[index] := NUL;
    return Some(newString[..index]);
  }

  method IsNumber(str: string) returns (result: bool)
    ensures result == AllDigits(str)
  {
    var i := 0;
    while i < |str|
      invariant i <= |str| && forall k :: 0 <= k < i ==> Digit.Has(str[k])
    {
      if !Digit.Has(str[i]) {
        return false;
      }
      i := i + 1;
    }
    return true;
  }

  // ---- The form ----

  /** The texts of the eight input fields. */
  datatype Form = Form(port: string, file404: string, root: string, connections: string,
                       log: string, name: string, document: string, mode: string)

  predicate Complete(form: Form) {
    && TrimAll(form.port).Some? && Trim(form.file404).Some? && Trim(form.root).Some?
    && TrimAll(form.connections).Some? && Trim(form.log).Some? && Trim(form.name).Some?
    && Trim(form.document).Some? && TrimAll(form.mode).Some?
  }

  predicate Acceptable(form: Form) {
    && Complete(form)
    && AllDigits(TrimAll(form.port).value) && AllDigits(TrimAll(form.connections).value)
    && AllDigits(TrimAll(form.mode).value)
    && (ToInt(TrimAll(form.mode).value) == 1 || ToInt(TrimAll(form.mode).value) == 2)
  }

  function Written(form: Form): map<string, Setting>
    requires Complete(form)
  {
    map["port" := Int(ToInt(TrimAll(form.port).value)),
        "error_404" := Str(Trim(form.file404).value),
        "server_root" := Str(Trim(form.root).value),
        "max_connections" := Int(ToInt(TrimAll(form.connections).value)),
        "logfile_location" := Str(Trim(form.log).value),
        "server_name" := Str(Trim(form.name).value),
        "default_document" := Str(Trim(form.document).value),
        "server_mode" := Int(ToInt(TrimAll(form.mode).value))]
  }

  /** A text field of the form. */
  method ReadText(buff: array<char>, ghost s: string) returns (result: Option<string>)
    requires Holds(buff, s)
    modifies buff
    ensures result == Trim(s)
  {
    var start := TrimWhitespaces(buff, s);
    result := if start == None then None else Some(StringAt(buff[..], start.value));
  }

  /** Reads the eight field buffers and decides whether, and what, to write. */
  method Submit(port: string, file404: array<char>, root: array<char>, connections: string,
                log: array<char>, name: array<char>, document: array<char>, mode: string,
                ghost form: Form)
    returns (written: Option<map<string, Setting>>)
    requires port == form.port && connections == form.connections && mode == form.mode
    requires Holds(file404, form.file404) && Holds(root, form.root) && Holds(log, form.log)
    requires Holds(name, form.name) && Holds(document, form.document)
    requires Apart([file404, root, log, name, document])
    modifies file404, root, log, name, document
    ensures written == if Acceptable(form) then Some(Written(form)) else None
  {
    assert file404 == [file404, root, log, name, document][0];
    assert root == [file404, root, log, name, document][1];
    assert log == [file404, root, log, name, document][2];
    assert name == [file404, root, log, name, document][3];
    assert document == [file404, root, log, name, document][4];
    var str := TrimAllWhitespaces(port);
    var str2 := ReadText(file404, form.file404);
    var str3 := ReadText(root, form.root);
    var str4 := TrimAllWhitespaces(connections);
    var str5 := ReadText(log, form.log);
    var str6 := ReadText(name, form.name);
    var str7 := ReadText(document, form.document);
    var str8 := TrimAllWhitespaces(mode);
    written := None;
    if str != None && str2 != None && str3 != None && str4 != None && str5 != None
      && str6 != None && str7 != None && str8 != None {
      written := Decide(str.value, str2.value, str3.value, str4.value, str5.value, str6.value,
                        str7.value, str8.value);
    }
  }

  predicate Apart(buffers: seq<array<char>>) {
    forall i, j :: 0 <= i < j < |buffers| ==> buffers[i] != buffers[j]
  }

  method Decide(str: string, str2: string, str3: string, str4: string, str5: string, str6: string,
                str7: string, str8: string)
    returns (written: Option<map<string, Setting>>)
    ensures written.Some? <==>
      AllDigits(str) && AllDigits(str4) && AllDigits(str8) && (ToInt(str8) == 1 || ToInt(str8) == 2)
    ensures written == None || written.value ==
      map["port" := Int(ToInt(str)), "error_404" := Str(str2), "server_root" := Str(str3),
          "max_connections" := Int(ToInt(str4)), "logfile_location" := Str(str5),
          "server_name" := Str(str6), "default_document" := Str(str7),
          "server_mode" := Int(ToInt(str8))]
  {
    written := None;
    var first := IsNumber(str);
    var second := IsNumber(str4);
    var third := IsNumber(str8);
    if first && second && third {
      var converted, converted2, converted3 := ToInt(str), ToInt(str4), ToInt(str8);
      if converted3 == 1 || converted3 == 2 {
        var items: map<string, Setting> := map[];
        items := items["port" := Int(converted)];
        items := items["error_404" := Str(str2)];
        items := items["server_root" := Str(str3)];
        items := items["max_connections" := Int(converted2)];
        items := items["logfile_location" := Str(str5)];
        items := items["server_name" := Str(str6)];
        items := items["default_document" := Str(str7)];
        items := items["server_mode" := Int(converted3)];
        written := Some(items);
      }
    }
  }

  // ---- From the editor to the reader ----

  function TypedText(form: Form, f: TextField): string {
    match f
    case ServerRoot => form.root
    case LogFile => form.log
    case File404 => form.file404
    case ServerName => form.name
    case DefaultDocument => form.document
  }

  function TypedInt(form: Form, f: IntField): string {
    match f case MaxConnections => form.connections case Port => form.port case ServerMode => form.mode
  }

  lemma WrittenText(form: Form, f: TextField)
    requires Complete(form)
    ensures InFile(Settings(Written(form)), f) == Trim(TypedText(form, f))
  {
    hide Trim, TrimAll, ToInt;
    match f
    case ServerRoot => case LogFile => case File404 => case ServerName => case DefaultDocument =>
  }

  lemma WrittenInt(form: Form, f: IntField)
    requires Complete(form)
    ensures TrimAll(TypedInt(form, f)).Some?
    ensures IntInFile(Settings(Written(form)), f) == ToInt(TrimAll(TypedInt(form, f)).value)
  {
    hide Trim, TrimAll, ToInt;
    match f case MaxConnections => case Port => case ServerMode =>
  }

  /** What the editor writes is what the reader returns when the command line is empty: every
    * text trimmed, and every non-zero number typed; a zero falls through to the environment and
    * then the default, except that the mode is always the 1 or 2 that was typed. */
  lemma EditorToReader(form: Form, env: Environment, f: TextField, n: IntField)
    requires Acceptable(form)
    ensures Some(TextValue([], Settings(Written(form)), env, f)) == Trim(TypedText(form, f))
    ensures TrimAll(TypedInt(form, n)).Some?
    ensures IntValue([], Settings(Written(form)), env, n) ==
      OrInt(ToInt(TrimAll(TypedInt(form, n)).value),
            OrInt(IntInEnvironment(env, n), IntDefault(n)))
    ensures n == ServerMode ==>
      IntValue([], Settings(Written(form)), env, n) == ToInt(TrimAll(form.mode).value)
  {
    hide Written, TrimAll, ToInt, InFile, IntInFile;
    WrittenText(form, f);
    WrittenInt(form, n);
    TextTrimmed(form, f);
  }

  lemma TextTrimmed(form: Form, f: TextField)
    requires Complete(form)
    ensures Trim(TypedText(form, f)).Some?
  {
    match f
    case ServerRoot => case LogFile => case File404 => case ServerName => case DefaultDocument =>
  }

  /** A typed number is read as its decimal value iff that value fits a 32-bit int. */
  lemma NumberTypedIff(s: string)
    requires s != [] && AllDigits(s)
    ensures ToInt(s) == Decimal(s, 0, |s|) <==> Decimal(s, 0, |s|) <= 0x7fff_ffff
  {
    hide Decimal;
    SkipFromIs(s, White, 0, 0);
    SkipFromIs(s, Digit, 0, |s|);
  }

  // ---- What trimming means ----

  /** White space, `t`, white space; and `t` itself neither starts nor ends with any. */
  predicate Wraps(pre: string, t: string, post: string) {
    AllWhite(pre) && AllWhite(post) && t != [] && !White.Has(t[0]) && !White.Has(t[|t| - 1])
  }

  /** `t` is what is left of `s` without white space at either end, and nothing more is lost. */
  lemma TrimIff(s: string, t: string)
    ensures Trim(s) == Some(t) <==>
      exists pre: string, post: string :: s == pre + t + post && Wraps(pre, t, post)
    ensures Trim(s) == None <==> AllWhite(s)
  {
    hide TrimEnd, SkipFrom;
    TrimNone(s);
    if Trim(s) == Some(t) {
      var pre, post := TrimSplit(s, t);
    }
    forall pre: string, post: string | s == pre + t + post && Wraps(pre, t, post)
      ensures Trim(s) == Some(t)
    {
      TrimParts(pre, t, post);
    }
  }

  lemma TrimNone(s: string)
    ensures Trim(s) == None <==> AllWhite(s)
  {
    SkipFromAll(s, White, 0);
  }

  lemma ThreeSlices(s: string, i: nat, j: nat)
    requires i < j <= |s|
    ensures s == s[..i] + s[i..j] + s[j..] && s[i..j][0] == s[i] && s[i..j][j - i - 1] == s[j - 1]
  {
  }

  lemma TrimSplit(s: string, t: string) returns (pre: string, post: string)
    requires Trim(s) == Some(t)
    ensures s == pre + t + post && Wraps(pre, t, post)
  {
    hide SkipFrom, TrimEnd;
    var start := SkipFrom(s, White, 0);
    var end := TrimEnd(s, start, |s|);
    SkipFromAll(s, White, 0);
    TrimEndWhite(s, start, |s|);
    assert start < end && t == s[start..end];
    pre, post := s[..start], s[end..];
    ThreeSlices(s, start, end);
  }

  lemma TrimParts(pre: string, t: string, post: string)
    requires Wraps(pre, t, post)
    ensures Trim(pre + t + post) == Some(t)
  {
    var s := pre + t + post;
    assert s[|pre|] == t[0] && s[|pre| + |t| - 1] == t[|t| - 1];
    SkipFromIs(s, White, 0, |pre|);
    assert forall i :: |pre| + |t| <= i < |s| ==> s[i] == post[i - |pre| - |t|];
    TrimEndIs(s, |pre|, |s|, |pre| + |t|);
  }

  /** Squeezing keeps exactly the characters that are not white, each as often as it occurs, and
    * in order: it distributes over concatenation. */
  lemma {:induction false} SqueezeConcat(s: string, t: string)
    ensures Squeeze(s + t) == Squeeze(s) + Squeeze(t)
  {
    if t == [] {
      assert s + t == s;
    } else {
      assert (s + t)[..|s + t| - 1] == s + t[..|t| - 1];
      SqueezeConcat(s, t[..|t| - 1]);
    }
  }

  lemma {:induction false} SqueezeFixed(s: string)
    ensures Squeeze(s) == s <==> forall i :: 0 <= i < |s| ==> !White.Has(s[i])
    ensures |Squeeze(s)| <= |s| && forall i :: 0 <= i < |Squeeze(s)| ==> !White.Has(Squeeze(s)[i])
  {
    hide Class.Has;
    if s == [] {
    } else {
      var front := s[..|s| - 1];
      SqueezeFixed(front);
      assert s == front + [s[|s| - 1]];
    }
  }
  /** A field is taken as blank iff all of it is white space. */
  lemma {:induction false} SqueezeBlank(s: string)
    ensures Squeeze(s) == "" <==> AllWhite(s)
    ensures TrimAll(s) == None <==> AllWhite(s)
  {
    hide Class.Has;
    if s == [] {
    } else {
      SqueezeBlank(s[..|s| - 1]);
    }
  }

  /** White space is removed and nothing put in its place. */
  lemma SqueezePadded(pre: string, t: string, post: string)
    requires AllWhite(pre) && AllWhite(post) && forall i :: 0 <= i < |t| ==> !White.Has(t[i])
    ensures Squeeze(pre + t + post) == t
  {
    SqueezeConcat(pre + t, post);
    SqueezeConcat(pre, t);
    SqueezeBlank(pre);
    SqueezeBlank(post);
    SqueezeFixed(t);
  }

  // ---- The form as its user sees it ----

  /** `field` is `t` with white space around it, and `t` starts and ends with something else. */
  ghost predicate Padded(field: string, t: string) {
    exists pre: string, post: string :: field == pre + t + post && Wraps(pre, t, post)
  }

  /** Nothing but digits and white space. */
  predicate NumberText(s: string) {
    forall i :: 0 <= i < |s| ==> s[i] in "0123456789" || s[i] in " \t\n\r\U{0B}\U{0C}"
  }

  lemma {:induction false} SqueezedDigits(s: string)
    ensures AllDigits(Squeeze(s)) <==> NumberText(s)
  {
    if s == [] {
    } else {
      var front, last := s[..|s| - 1], s[|s| - 1];
      SqueezedDigits(front);
      ClassIs(last);
      var kept := if White.Has(last) then "" else [last];
      assert NumberText(s) <==> NumberText(front) && NumberText([last]) by {
        assert s == front + [last];
      }
      DigitsJoined(Squeeze(front), kept);
    }
  }

  lemma DigitsJoined(s: string, t: string)
    ensures AllDigits(s + t) <==> AllDigits(s) && AllDigits(t)
  {
    assert forall i :: 0 <= i < |s| ==> (s + t)[i] == s[i];
    assert forall i :: 0 <= i < |t| ==> (s + t)[|s| + i] == t[i];
  }

  /** The form is accepted iff no field is blank, the number fields hold digits and white space
    * only, and the mode reads as 1 or 2. */
  lemma AcceptableIff(form: Form)
    ensures Acceptable(form) <==>
      && !AllWhite(form.port) && !AllWhite(form.file404) && !AllWhite(form.root)
      && !AllWhite(form.connections) && !AllWhite(form.log) && !AllWhite(form.name)
      && !AllWhite(form.document) && !AllWhite(form.mode)
      && NumberText(form.port) && NumberText(form.connections) && NumberText(form.mode)
      && (ToInt(Squeeze(form.mode)) == 1 || ToInt(Squeeze(form.mode)) == 2)
  {
    hide ToInt, Squeeze, Trim, AllDigits, AllWhite, NumberText;
    SqueezeBlank(form.port);
    SqueezeBlank(form.connections);
    SqueezeBlank(form.mode);
    SqueezedDigits(form.port);
    SqueezedDigits(form.connections);
    SqueezedDigits(form.mode);
    TrimNone(form.file404);
    TrimNone(form.root);
    TrimNone(form.log);
    TrimNone(form.name);
    TrimNone(form.document);
  }

  lemma PaddedDigits(field: string, n: nat)
    requires Padded(field, Digits(n))
    ensures TrimAll(field) == Some(Digits(n)) && AllDigits(Digits(n))
  {
    var pre: string, post: string :| field == pre + Digits(n) + post && Wraps(pre, Digits(n), post);
    DigitsDecimal(n);
    SqueezePadded(pre, Digits(n), post);
  }
  /** The mode 1 or 2 that a number is cut to: the low 32 bits, if the number fits 64 bits. */
  lemma ModeReadIff(m: nat, mode: nat)
    requires mode == 1 || mode == 2
    ensures ToInt(Digits(m)) == mode <==> m <= 0x7fff_ffff_ffff_ffff && m % 0x1_0000_0000 == mode
  {
    hide Decimal, ScanNumber, Digits;
    DigitsDecimal(m);
    Spelled("", "", Digits(m), "");
    assert "" + "" + Digits(m) + "" == Digits(m);
    SignedScanned(Digits(m), "", "", Digits(m), "");
  }

  /** From the typed form to the configuration: with five texts and three printed numbers in the
    * fields, whatever white space surrounds them, the form is accepted iff the mode is cut to 1 or
    * 2, and then the reader returns the texts, and the numbers where they are positive and fit. */
  lemma FormToConfiguration(form: Form, env: Environment, root: string, log: string, notFound: string,
                            name: string, document: string, port: nat, connections: nat, mode: nat)
    requires Padded(form.root, root) && Padded(form.log, log) && Padded(form.file404, notFound)
    requires Padded(form.name, name) && Padded(form.document, document)
    requires Padded(form.port, Digits(port)) && Padded(form.connections, Digits(connections))
    requires Padded(form.mode, Digits(mode))
    ensures Acceptable(form) <==>
      mode <= 0x7fff_ffff_ffff_ffff && mode % 0x1_0000_0000 in {1, 2}
    ensures Acceptable(form) ==>
      && var file := Settings(Written(form));
      && TextValue([], file, env, ServerRoot) == root && TextValue([], file, env, LogFile) == log
      && TextValue([], file, env, File404) == notFound
      && TextValue([], file, env, ServerName) == name
      && TextValue([], file, env, DefaultDocument) == document
      && (0 < port <= 0x7fff_ffff ==> IntValue([], file, env, Port) == port)
      && (0 < connections <= 0x7fff_ffff ==> IntValue([], file, env, MaxConnections) == connections)
      && IntValue([], file, env, ServerMode) == mode % 0x1_0000_0000
  {
    hide Trim, TrimAll, ToInt, Digits, Padded, Written, TextValue, IntValue, AllDigits;
    PaddedText(form.root, root);
    PaddedText(form.log, log);
    PaddedText(form.file404, notFound);
    PaddedText(form.name, name);
    PaddedText(form.document, document);
    PaddedDigits(form.port, port);
    PaddedDigits(form.connections, connections);
    PaddedDigits(form.mode, mode);
    ModeReadIff(mode, 1);
    ModeReadIff(mode, 2);
    PlainRead(port);
    PlainRead(connections);
    if Acceptable(form) {
      EditorToReader(form, env, ServerRoot, Port);
      EditorToReader(form, env, LogFile, MaxConnections);
      EditorToReader(form, env, File404, ServerMode);
      EditorToReader(form, env, ServerName, ServerMode);
      EditorToReader(form, env, DefaultDocument, ServerMode);
    }
  }

  lemma PaddedText(field: string, t: string)
    requires Padded(field, t)
    ensures Trim(field) == Some(t)
  {
    TrimIff(field, t);
  }
}
