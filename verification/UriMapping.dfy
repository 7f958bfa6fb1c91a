/** From a request URI to a file name: `parse_uri` and the string routines it uses. */
module UriMapping {
  import opened CText

  // ---- C string routines ----

  method Strcpy(dst: array<char>, s: string)
    requires |s| < dst.Length && NUL !in s
    modifies dst
    ensures Holds(dst, s)
  {
    forall i | 0 <= i < |s| { dst[i] := s[i]; }
    dst[|s|] := NUL;
    assert dst[..|s|] == s;
    HoldsIff(dst, s);
  }

  method Strcat(dst: array<char>, s: string, ghost before: string)
    requires Holds(dst, before) && |before| + |s| < dst.Length && NUL !in s
    modifies dst
    ensures Holds(dst, before + s)
  {
    HoldsIff(dst, before);
    var len := Strlen(dst, 0);
    forall i | 0 <= i < |s| { dst[len + i] := s[i]; }
    dst[len + |s|] := NUL;
    assert dst[..len + |s|] == before + s;
    HoldsIff(dst, before + s);
  }

  /** Copies `n` bytes; the two ranges may overlap. */
  method Memmove(a: array<char>, to: nat, from: nat, n: nat)
    requires to + n <= a.Length && from + n <= a.Length
    modifies a
    ensures a[to..to + n] == old(a[from..from + n])
    ensures a[..to] == old(a[..to]) && a[to + n..] == old(a[to + n..])
  {
    forall i | 0 <= i < n { a[to + i] := a[from + i]; }
  }

  /** Puts `t` in front of the string in `s`. */
  method Prepend(s: array<char>, t: string, ghost before: string)
    requires Holds(s, before) && |t| + |before| < s.Length && NUL !in t
    modifies s
    ensures Holds(s, t + before)
  {
    var len := |t|;
    HoldsIff(s, before);
    var size := Strlen(s, 0);
    Memmove(s, len, 0, size + 1);
    assert s[len..len + size + 1][size] == NUL;
    assert s[len..len + size] == s[len..len + size + 1][..size] == before;
    ghost var moved := s[..];
    forall i | 0 <= i < len { s[i] := t[i]; }
    assert s[..len] == t && s[len..len + size] == moved[len..len + size];
    assert s[..len + size] == s[..len] + s[len..len + size];
    HoldsIff(s, t + before);
  }

  // ---- parse_uri ----

  /** strstr finds `pat` in `s`. */
  predicate HasText(s: string, pat: string) {
    exists i :: 0 <= i <= |s| && TextAt(s, pat, i)
  }

  predicate TextAt(s: string, pat: string, i: nat) {
    i + |pat| <= |s| && s[i..i + |pat|] == pat
  }

  lemma HasTextIff(s: string, pat: string)
    ensures HasText(s, pat) <==> exists pre: string, post: string :: s == pre + pat + post
  {
    if HasText(s, pat) {
      var i :| 0 <= i <= |s| && TextAt(s, pat, i);
      assert s == s[..i] + pat + s[i + |pat|..];
    }
    forall pre: string, post: string | s == pre + pat + post ensures HasText(s, pat) {
      assert s[|pre|..|pre| + |pat|] == pat;
      assert TextAt(s, pat, |pre|);
    }
  }

  const INDEX := "index.html"

  function StaticPath(root: string, uri: string): string
    requires uri != []
  {
    root + uri[1..] + if uri[|uri| - 1] == '/' then INDEX else ""
  }

  function QueryMark(uri: string): nat { FindFrom(uri, '?', 0) }

  function DynamicName(uri: string): string { "." + uri[..QueryMark(uri)] }

  function DynamicArgs(uri: string): string {
    if QueryMark(uri) < |uri| then uri[QueryMark(uri) + 1..] else ""
  }

  method ParseUri(uri: array<char>, filename: array<char>, cgiargs: array<char>, root: string,
                  ghost u: string)
    returns (isStatic: bool)
    requires Holds(uri, u) && u != [] && NUL !in root
    requires uri != filename && uri != cgiargs && filename != cgiargs
    requires |root| + |u| + |INDEX| < filename.Length && |u| < cgiargs.Length
    modifies uri, filename, cgiargs
    ensures isStatic <==> !exists pre: string, post: string :: u == pre + "cgi-bin" + post
    ensures isStatic ==> Holds(filename, StaticPath(root, u)) && Holds(cgiargs, "")
    ensures isStatic ==> uri[..] == old(uri[..])
    ensures !isStatic ==> Holds(filename, DynamicName(u)) && Holds(cgiargs, DynamicArgs(u))
    ensures !isStatic ==> Holds(uri, u[..QueryMark(u)])
  {
    hide StringAt, FindFrom, HasText;
    HasTextIff(u, "cgi-bin");
    HoldsIff(uri, u);
    var len := Strlen(uri, 0);
    if !HasText(uri[..len], "cgi-bin") {
      Strcpy(cgiargs, "");
      var filepath := uri[1..len];
      assert filepath == u[1..];
      Strcpy(filename, filepath);
      Prepend(filename, root, filepath);
      assert uri[..len] == u;
      if uri[len - 1] == '/' {
        Strcat(filename, INDEX, root + filepath);
      } else {
        assert root + filepath + "" == root + filepath;
      }
      isStatic := true;
    } else {
      var ptr := FindFrom(uri[..len], '?', 0);
      if ptr < len {
        assert uri[ptr + 1..len] == u[ptr + 1..];
        Strcpy(cgiargs, uri[ptr + 1..len]);
        uri[ptr] := NUL;
        assert uri[..ptr] == u[..ptr];
        HoldsIff(uri, u[..ptr]);
      } else {
        Strcpy(cgiargs, "");
      }
      Strcpy(filename, ".");
      Strcat(filename, uri[..ptr], ".");
      isStatic := false;
    }
  }

  // ---- What the mapping means ----

  /** The file name is a dot before a part of the URI; that part, the mark if there was one, and
    * the arguments are the URI; and it is the only such split whose name has no mark. */
  lemma DynamicSplit(uri: string, name: string, mark: string, args: string)
    ensures (DynamicName(uri) == "." + name && args == DynamicArgs(uri)
             && mark == if '?' in uri then "?" else "")
       <==> (name + mark + args == uri && '?' !in name
             && (mark == "?" || (mark == "" && args == "")))
  {
    var q := QueryMark(uri);
    FindFromFirst(uri, '?', 0);
    assert DynamicName(uri) == "." + uri[..q] && DynamicName(uri)[1..] == uri[..q];
    assert ("." + name)[1..] == name;
    assert q < |uri| ==> uri == uri[..q] + "?" + uri[q + 1..];
    assert '?' in uri <==> q < |uri|;
    if name + mark + args == uri && '?' !in name && mark == "?" {
      assert uri[|name|] == '?' && uri[..|name|] == name;
      FindFromIs(uri, '?', 0, |name|);
      assert uri[|name| + 1..] == args;
    } else if name + mark + args == uri && '?' !in name && mark == "" && args == "" {
      assert uri == name;
    }
  }

  /** A static file lies under the root, where the rest of the URI says; a URI that ends in a slash
    * names the default document there. */
  lemma StaticFile(root: string, c: char, path: string)
    ensures path != "" ==>
      StaticPath(root, [c] + path)
        == (if path[|path| - 1] == '/' then root + path + "index.html" else root + path)
    ensures path == "" ==>
      StaticPath(root, [c] + path) == (if c == '/' then root + "index.html" else root)
  {
    assert ([c] + path)[1..] == path;
    assert root + "" == root && (root + path) + "" == root + path;
  }

  /** Two URIs that start with a slash name the same file iff they are equal or one is the other
    * with the default document spelled out. */
  lemma SameFileIff(root: string, u: string, v: string)
    requires u != [] && v != [] && u[0] == '/' && v[0] == '/'
    ensures StaticPath(root, u) == StaticPath(root, v) <==>
      || u == v
      || (u[|u| - 1] == '/' && v == u + INDEX)
      || (v[|v| - 1] == '/' && u == v + INDEX)
  {
    StaticPathParts(root, u);
    StaticPathParts(root, v);
    var x, y := Completed(u), Completed(v);
    if StaticPath(root, u) == StaticPath(root, v) {
      assert x[1..] == (root + x[1..])[|root|..] == (root + y[1..])[|root|..] == y[1..];
      assert x == ['/'] + x[1..] == ['/'] + y[1..] == y;
      assert u == x[..|u|] && v == x[..|v|];
    }
  }

  function Completed(uri: string): string
    requires uri != []
  {
    uri + if uri[|uri| - 1] == '/' then INDEX else ""
  }

  lemma StaticPathParts(root: string, uri: string)
    requires uri != []
    ensures StaticPath(root, uri) == root + Completed(uri)[1..]
  {
  }
}
