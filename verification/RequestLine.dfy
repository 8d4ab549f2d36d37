/** Request-line parsing (src/Server/Http.cpp:224-300). */
module RequestLine {
  import opened Text

  datatype HttpMethod = GET | POST
  datatype HttpVersion = HTTP_10 | HTTP_11
  datatype UriVerdict = UriAgain | UriError | UriSuccess

  /** The fields that a request line sets; an error leaves those set before it. */
  datatype Fields = Fields(verb: HttpMethod, path: string, version: HttpVersion)

  datatype UriResult = UriResult(verdict: UriVerdict, buffer: string, fields: Fields)

  /** The source writes the multi-character literal '/r', which narrows to its last letter. */
  const TERMINATOR := 'r'

  /** `file_path_` from the text between the first slash and the space. */
  function PathOf(target: string): string {
    var q := FindChar(target, '?', 0);
    if target == "" then "index.html" else if q >= 0 then target[..q] else target
  }

  /** The version that follows the slash at `slash`, if there is one. */
  function VersionAt(line: string, slash: nat): (v: seq<HttpVersion>)
    requires slash < |line|
    ensures |v| <= 1
  {
    if |line| - slash <= 3 then []
    else if line[slash + 1..slash + 4] == "1.0" then [HTTP_10]
    else if line[slash + 1..slash + 4] == "1.1" then [HTTP_11]
    else []
  }

  /** From the slash of the target on. */
  function ParseTarget(line: string, slash: nat, f: Fields): (UriVerdict, Fields)
    requires slash < |line| && line[slash] == '/'
  {
    var space := FindChar(line, ' ', slash);
    if space < 0 then (UriError, f) else
    var g := f.(path := PathOf(line[slash + 1..space]));
    var second := FindChar(line, '/', space);
    if second < 0 then (UriError, g) else
    var v := VersionAt(line, second);
    if v == [] then (UriError, g) else (UriSuccess, g.(version := v[0]))
  }

  /** A line without its terminator. */
  function ParseLine(line: string, f: Fields): (UriVerdict, Fields) {
    var get := Find(line, "GET", 0);
    var post := Find(line, "POST", 0);
    if get < 0 && post < 0 then (UriError, f) else
    var g := f.(verb := if get >= 0 then GET else POST);
    var slash := FindChar(line, '/', if get >= 0 then get else post);
    if slash < 0 then (UriSuccess, g.(path := "index.html", version := HTTP_11))
    else ParseTarget(line, slash, g)
  }

  /** One call of `ParseURI`, for any terminator. */
  function ParseUri(s: string, terminator: char, f: Fields): UriResult {
    var pos := FindChar(s, terminator, 0);
    if pos < 0 then UriResult(UriAgain, s, f)
    else
      var (verdict, g) := ParseLine(s[..pos], f);
      UriResult(verdict, s[pos + 1..], g)
  }

  /** More input never changes a verdict, and is simply appended to what is left over. */
  lemma MoreInputIsAppended(s: string, ext: string, terminator: char, f: Fields)
    ensures var r := ParseUri(s, terminator, f);
            if terminator !in s then r == UriResult(UriAgain, s, f)
            else && r.verdict != UriAgain
                 && |r.buffer| < |s|
                 && ParseUri(s + ext, terminator, f) == r.(buffer := r.buffer + ext)
  {
    var pos := FindChar(s, terminator, 0);
    if terminator in s {
      var k :| 0 <= k < |s| && s[k] == terminator;
      assert (s + ext)[pos] == s[pos];
      FirstIs(s + ext, terminator, 0, pos);
      assert (s + ext)[..pos] == s[..pos];
      assert (s + ext)[pos + 1..] == s[pos + 1..] + ext;
    }
  }

  // ---------------------------------------------------------------- printed requests

  /** What file a target names: all of it up to a question mark, and the index for none. */
  predicate Names(target: string, path: string) {
    if target == "" then path == "index.html"
    else '?' !in path && (path == target || path + "?" <= target)
  }

  lemma PathIsNamed(target: string, path: string)
    ensures Names(target, path) <==> path == PathOf(target)
  {
    var q := FindChar(target, '?', 0);
    if target != "" && Names(target, path) && path != target {
      FirstIs(target, '?', 0, |path|);
      assert target[..|path|] == path;
    }
    if q >= 0 { assert target[..q] + "?" == target[..q + 1]; }
  }

  function PrintVersion(v: HttpVersion): string {
    match v case HTTP_10 => "1.0" case HTTP_11 => "1.1"
  }

  function PrintLine(target: string, version: HttpVersion): string {
    "GET /" + target + " HTTP/" + PrintVersion(version)
  }

  /** The line of a GET request whose target has no space gives back its fields, whatever
      stands behind the version. */
  lemma PrintedLine(target: string, version: HttpVersion, behind: string, f: Fields)
    requires ' ' !in target
    ensures ParseLine(PrintLine(target, version) + behind, f)
         == (UriSuccess, Fields(GET, PathOf(target), version))
  {
    var line := PrintLine(target, version) + behind;
    var n := |target|;
    assert line == "GET /" + target + " HTTP/" + PrintVersion(version) + behind;
    assert OccursAt(line, "GET", 0);
    assert Find(line, "GET", 0) == 0;
    FirstIs(line, '/', 0, 4);
    assert line[5 + n] == ' ';
    forall j | 4 <= j < 5 + n ensures line[j] != ' ' {
      if 5 <= j { assert line[j] == target[j - 5]; }
    }
    FirstIs(line, ' ', 4, 5 + n);
    assert line[5..5 + n] == target;
    assert line[10 + n] == '/';
    FirstIs(line, '/', 5 + n, 10 + n);
    assert line[11 + n..14 + n] == PrintVersion(version);
  }

  /** With a terminator that does not occur in the line, the fields and the rest come back. */
  lemma PrintedRequestLine(target: string, version: HttpVersion, terminator: char,
                           rest: string, f: Fields)
    requires ' ' !in target && terminator !in PrintLine(target, version)
    ensures ParseUri(PrintLine(target, version) + [terminator] + rest, terminator, f)
         == UriResult(UriSuccess, rest, Fields(GET, PathOf(target), version))
    ensures Names(target, PathOf(target))
  {
    PathIsNamed(target, PathOf(target));
    var line := PrintLine(target, version);
    var s := line + [terminator] + rest;
    forall j | 0 <= j < |line| ensures s[j] != terminator {
      assert s[j] == line[j];
    }
    FirstIs(s, terminator, 0, |line|);
    assert s[..|line|] == line && s[|line| + 1..] == rest;
    PrintedLine(target, version, "", f);
    assert line + "" == line;
  }

  /** The terminator of the source recovers the fields of a printed request line exactly when
      the letter is missing from the target and present in the bytes behind the line. */
  lemma SourceTerminatorRecovers(target: string, version: HttpVersion, behind: string, f: Fields)
    requires ' ' !in target
    ensures var r := ParseUri(PrintLine(target, version) + behind, TERMINATOR, f);
            (r.verdict == UriSuccess && r.fields == Fields(GET, PathOf(target), version))
            <==> TERMINATOR !in target && TERMINATOR in behind
  {
    var line := PrintLine(target, version);
    var s := line + behind;
    var pos := FindChar(s, TERMINATOR, 0);
    if TERMINATOR in target {
      var k :| 0 <= k < |target| && target[k] == TERMINATOR;
      assert s[5 + k] == TERMINATOR;
      CutTarget(target, version, behind, pos, f);
    } else if TERMINATOR in behind {
      var k :| 0 <= k < |behind| && behind[k] == TERMINATOR;
      assert s[|line| + k] == TERMINATOR;
      LineHasNoTerminator(target, version);
      assert forall j :: 0 <= j < |line| ==> s[j] == line[j] != TERMINATOR;
      assert s[..pos] == line + behind[..pos - |line|];
      PrintedLine(target, version, behind[..pos - |line|], f);
    } else {
      LineHasNoTerminator(target, version);
      assert TERMINATOR !in s;
    }
  }

  lemma LineHasNoTerminator(target: string, version: HttpVersion)
    requires TERMINATOR !in target
    ensures TERMINATOR !in PrintLine(target, version)
  {
  }

  /** A terminator inside the target cuts the line before its first space behind the slash. */
  lemma CutTarget(target: string, version: HttpVersion, behind: string, pos: nat, f: Fields)
    requires ' ' !in target && TERMINATOR in target
    requires pos == FindChar(PrintLine(target, version) + behind, TERMINATOR, 0)
    ensures ParseUri(PrintLine(target, version) + behind, TERMINATOR, f).verdict == UriError
  {
    var s := PrintLine(target, version) + behind;
    assert s == "GET /" + target + " HTTP/" + PrintVersion(version) + behind;
    var k :| 0 <= k < |target| && target[k] == TERMINATOR;
    assert s[5 + k] == TERMINATOR;
    assert 5 <= pos < 5 + |target|;
    var line := s[..pos];
    assert OccursAt(line, "GET", 0);
    FirstIs(line, '/', 0, 4);
    forall j | 4 <= j < pos ensures line[j] != ' ' {
      if 5 <= j { assert line[j] == target[j - 5]; }
    }
    assert FindChar(line, ' ', 4) < 0;
  }

  // ---------------------------------------------------------------- the accepted language

  /** The first place of a method name; GET goes before POST wherever it stands. */
  ghost predicate MethodAt(line: string, m: nat, verb: HttpMethod) {
    match verb
    case GET => FirstAt(line, "GET", m)
    case POST => FirstAt(line, "POST", m) && forall i :: !OccursAt(line, "GET", i)
  }

  ghost predicate FirstAt(line: string, name: string, m: nat) {
    OccursAt(line, name, m) && forall i :: 0 <= i < m ==> !OccursAt(line, name, i)
  }

  /** The target lies between the first slash from `m` on and the next space, the version behind
      the next slash. */
  predicate TargetAt(line: string, m: nat, slash: nat, space: nat, second: nat) {
    && m <= slash < space < second && second + 4 <= |line|
    && '/' !in line[m..slash] && line[slash] == '/'
    && ' ' !in line[slash..space] && line[space] == ' '
    && '/' !in line[space..second] && line[second] == '/'
  }

  /** A line that asks for these fields: a method name, and behind it no slash at all, or a
      target and a version. */
  ghost predicate AsksFor(line: string, g: Fields) {
    exists m: nat :: MethodAt(line, m, g.verb) && Asks(line, m, g.path, g.version)
  }

  ghost predicate Asks(line: string, m: nat, path: string, version: HttpVersion) {
    m <= |line| &&
    if '/' !in line[m..] then path == "index.html" && version == HTTP_11
    else exists slash: nat, space: nat, second: nat ::
           && TargetAt(line, m, slash, space, second)
           && Names(line[slash + 1..space], path)
           && line[second + 1..second + 4] == PrintVersion(version)
  }

  lemma NotIn(line: string, c: char, from: nat, to: nat)
    requires from <= to <= |line|
    ensures c !in line[from..to] <==> forall j :: from <= j < to ==> line[j] != c
  {
    if c !in line[from..to] {
      forall j | from <= j < to ensures line[j] != c {
        assert line[j] == line[from..to][j - from];
      }
    }
  }

  lemma MethodIsFirst(line: string, m: nat, verb: HttpMethod)
    ensures MethodAt(line, m, verb) <==>
      var get, post := Find(line, "GET", 0), Find(line, "POST", 0);
      if verb == GET then get == m else get < 0 && post == m
  {
  }

  /** The lines that are accepted, and the fields that they set, are exactly these. */
  lemma LineMeaning(line: string, f: Fields, g: Fields)
    ensures ParseLine(line, f) == (UriSuccess, g) <==> AsksFor(line, g)
  {
    hide ParseTarget, Find, FindChar, MethodAt, Asks;
    var get, post := Find(line, "GET", 0), Find(line, "POST", 0);
    var m := if get >= 0 then get else post;
    forall k: nat, v: HttpMethod
      ensures MethodAt(line, k, v) <==> k == m && v == (if get >= 0 then GET else POST)
    {
      MethodIsFirst(line, k, v);
    }
    if m >= 0 {
      assert AsksFor(line, g) <==>
        g.verb == (if get >= 0 then GET else POST) && Asks(line, m, g.path, g.version) by {
        assert MethodAt(line, m, if get >= 0 then GET else POST);
      }
      TargetMeaning(line, m, f.(verb := if get >= 0 then GET else POST), g);
    }
  }

  /** The places are those that the searches find. */
  lemma TargetIsFirst(line: string, m: nat, slash: nat, space: nat, second: nat)
    requires m <= |line|
    ensures TargetAt(line, m, slash, space, second) <==>
      && slash == FindChar(line, '/', m) && space == FindChar(line, ' ', slash)
      && second == FindChar(line, '/', space) && second + 4 <= |line|
  {
    if m <= slash < space < second && second + 4 <= |line| {
      NotIn(line, '/', m, slash);
      NotIn(line, ' ', slash, space);
      NotIn(line, '/', space, second);
    }
  }

  lemma VersionMeaning(line: string, slash: nat, v: HttpVersion)
    requires slash < |line|
    ensures VersionAt(line, slash) == [v]
       <==> slash + 4 <= |line| && line[slash + 1..slash + 4] == PrintVersion(v)
  {
  }

  lemma TargetMeaning(line: string, m: nat, f: Fields, g: Fields)
    requires m <= |line|
    ensures var slash := FindChar(line, '/', m);
            var result := if slash < 0
              then (UriSuccess, f.(path := "index.html", version := HTTP_11))
              else ParseTarget(line, slash, f);
            result == (UriSuccess, g) <==> g.verb == f.verb && Asks(line, m, g.path, g.version)
  {
    hide FindChar, VersionAt, TargetAt, PathOf, Names;
    NotIn(line, '/', m, |line|);
    assert line[m..|line|] == line[m..];
    var slash := FindChar(line, '/', m);
    if slash >= 0 {
      var space := FindChar(line, ' ', slash);
      var second := if space < 0 then -1 else FindChar(line, '/', space);
      forall a: nat, b: nat, c: nat
        ensures TargetAt(line, m, a, b, c)
           <==> a == slash && b == space && c == second && c + 4 <= |line|
      {
        TargetIsFirst(line, m, a, b, c);
      }
      if second >= 0 {
        PathIsNamed(line[slash + 1..space], g.path);
        VersionMeaning(line, second, g.version);
        assert TargetAt(line, m, slash, space, second) <==> second + 4 <= |line|;
      }
    }
  }

  /** A buffer is accepted exactly when it has a line in front that asks for the fields; what
      stands behind the terminator is left. */
  lemma UriMeaning(line: string, terminator: char, rest: string, f: Fields, g: Fields)
    requires terminator !in line
    ensures ParseUri(line + [terminator] + rest, terminator, f) == UriResult(UriSuccess, rest, g)
       <==> AsksFor(line, g)
  {
    var s := line + [terminator] + rest;
    forall j | 0 <= j < |line| ensures s[j] != terminator {
      assert s[j] == line[j];
    }
    FirstIs(s, terminator, 0, |line|);
    assert s[..|line|] == line && s[|line| + 1..] == rest;
    LineMeaning(line, f, g);
  }
}
