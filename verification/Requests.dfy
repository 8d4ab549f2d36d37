/** Whole requests: the request line and the header block together
    (src/Server/Http.cpp:102-132, 224-388). */
module Requests {
  import opened Text
  import RL = RequestLine
  import HL = HeaderLines

  datatype Parsed =
    | NoRequest
    | Request(fields: RL.Fields, headers: HL.HeaderMap, rest: string)

  /** A buffer that holds a whole request: ParseURI, then ParseHeaders on what it left. */
  function ParseRequest(s: string, terminator: char, f: RL.Fields): Parsed {
    var uri := RL.ParseUri(s, terminator, f);
    if uri.verdict != RL.UriSuccess then NoRequest else
    var block := HL.Parse(uri.buffer, HL.START, map[]);
    if block.verdict != HL.HeaderSuccess then NoRequest
    else Request(uri.fields, block.headers, block.buffer)
  }

  function PrintRequest(target: string, version: RL.HttpVersion, lines: seq<HL.Line>): string {
    RL.PrintLine(target, version) + "\r\n" + HL.PrintLines(lines) + "\r\n"
  }

  /** A GET request that can be printed: a target without spaces or CR, and a list of lines with
      different keys, the first not starting with a break. */
  predicate Printable(target: string, lines: seq<HL.Line>) {
    && ' ' !in target && CR !in target && HL.ValidBlock("\n", lines) && DistinctKeys(lines)
  }

  predicate DistinctKeys(lines: seq<HL.Line>) {
    forall i, j :: 0 <= i < j < |lines| ==> lines[i].key != lines[j].key
  }

  // ---------------------------------------------------------------- the map of the lines

  lemma {:induction false} FoldKeeps(headers: HL.HeaderMap, lines: seq<HL.Line>, key: string)
    requires key in headers && forall l :: l in lines ==> l.key != key
    ensures key in HL.Fold(headers, lines) && HL.Fold(headers, lines)[key] == headers[key]
    decreases |lines|
  {
    if lines != [] { FoldKeeps(headers[lines[0].key := lines[0].value], lines[1..], key); }
  }

  /** With different keys every line is in the map. */
  lemma {:induction false} FoldHolds(headers: HL.HeaderMap, lines: seq<HL.Line>, l: HL.Line)
    requires DistinctKeys(lines) && l in lines
    ensures l.key in HL.Fold(headers, lines) && HL.Fold(headers, lines)[l.key] == l.value
    decreases |lines|
  {
    var updated := headers[lines[0].key := lines[0].value];
    if l == lines[0] {
      forall m | m in lines[1..] ensures m.key != l.key {
        var i :| 0 <= i < |lines[1..]| && lines[1..][i] == m;
        assert lines[i + 1] == m;
      }
      FoldKeeps(updated, lines[1..], l.key);
    } else {
      assert l in lines[1..];
      FoldHolds(updated, lines[1..], l);
    }
  }

  /** What is in the map and was not there before comes from a line. */
  lemma {:induction false} FoldComesFromLines(headers: HL.HeaderMap, lines: seq<HL.Line>,
                                              key: string)
    requires key in HL.Fold(headers, lines)
    ensures (key in headers && headers[key] == HL.Fold(headers, lines)[key])
         || HL.Line(key, HL.Fold(headers, lines)[key]) in lines
    decreases |lines|
  {
    if lines != [] {
      FoldComesFromLines(headers[lines[0].key := lines[0].value], lines[1..], key);
    }
  }

  // ---------------------------------------------------------------- with the CR as terminator

  /** Printing and parsing with CR gives back the method, the path, the version and exactly the
      printed headers; of bytes that follow only the first is lost. */
  lemma CrRoundTrip(target: string, version: RL.HttpVersion, lines: seq<HL.Line>,
                    tail: string, f: RL.Fields)
    requires Printable(target, lines)
    ensures ParseRequest(PrintRequest(target, version, lines) + tail, CR, f)
         == Request(RL.Fields(RL.GET, RL.PathOf(target), version),
                    HL.Fold(map[], lines), HL.AfterBlock(tail))
    ensures RL.Names(target, RL.PathOf(target))
    ensures forall l :: l in lines ==>
              l.key in HL.Fold(map[], lines) && HL.Fold(map[], lines)[l.key] == l.value
    ensures forall key :: key in HL.Fold(map[], lines) ==>
              HL.Line(key, HL.Fold(map[], lines)[key]) in lines
  {
    var rest := HL.PrintBlock("\n", lines) + tail;
    assert PrintRequest(target, version, lines) + tail
        == RL.PrintLine(target, version) + [CR] + rest;
    RL.PrintedRequestLine(target, version, CR, rest, f);
    HL.BlockIsAccepted("\n", lines, tail, map[]);
    forall l | l in lines
      ensures l.key in HL.Fold(map[], lines) && HL.Fold(map[], lines)[l.key] == l.value
    {
      FoldHolds(map[], lines, l);
    }
    forall key | key in HL.Fold(map[], lines)
      ensures HL.Line(key, HL.Fold(map[], lines)[key]) in lines
    {
      FoldComesFromLines(map[], lines, key);
    }
  }

  // ---------------------------------------------------------------- with the source's terminator

  lemma {:induction false} LinesConcat(a: seq<HL.Line>, b: seq<HL.Line>)
    ensures HL.PrintLines(a + b) == HL.PrintLines(a) + HL.PrintLines(b)
    decreases |a|
  {
    if a == [] {
      assert a + b == b;
    } else {
      assert (a + b)[1..] == a[1..] + b;
      LinesConcat(a[1..], b);
    }
  }

  /** A list that contains all of some different lines prints at least as long. */
  lemma {:induction false} ContainingIsLonger(lines: seq<HL.Line>, others: seq<HL.Line>)
    requires DistinctKeys(lines) && forall l :: l in lines ==> l in others
    ensures |HL.PrintLines(lines)| <= |HL.PrintLines(others)|
    decreases |lines|
  {
    if lines != [] {
      var l := lines[0];
      assert l in lines;
      var i :| 0 <= i < |others| && others[i] == l;
      var left := others[..i] + others[i + 1..];
      forall m | m in lines[1..] ensures m in left {
        var j :| 0 <= j < |lines[1..]| && lines[1..][j] == m;
        assert lines[j + 1] == m && m.key != l.key && m in lines;
        var k :| 0 <= k < |others| && others[k] == m;
        assert left[if k < i then k else k - 1] == m;
      }
      ContainingIsLonger(lines[1..], left);
      LinesConcat(others[..i], others[i + 1..]);
      LinesConcat(others[..i], others[i..]);
      assert others == others[..i] + others[i..] && others[i..][1..] == others[i + 1..];
    }
  }

  /** With the terminator of the source no printed request gives back its headers: the line is
      cut behind some letter of the headers or not at all. */
  lemma SourceNeverRecoversHeaders(target: string, version: RL.HttpVersion,
                                   lines: seq<HL.Line>, f: RL.Fields)
    requires Printable(target, lines)
    ensures var r := ParseRequest(PrintRequest(target, version, lines), RL.TERMINATOR, f);
            r.Request? ==> r.headers != HL.Fold(map[], lines)
  {
    var s := PrintRequest(target, version, lines);
    var r := ParseRequest(s, RL.TERMINATOR, f);
    if r.Request? && r.headers == HL.Fold(map[], lines) {
      var uri := RL.ParseUri(s, RL.TERMINATOR, f);
      LateCut(target, version, lines, f);
      var skip, found, tail := HL.SuccessIsBlock(uri.buffer, map[]);
      HL.BlockIsAccepted(skip, found, tail, map[]);
      forall l | l in lines ensures l in found {
        FoldHolds(map[], lines, l);
        FoldComesFromLines(map[], found, l.key);
      }
      ContainingIsLonger(lines, found);
      assert false;
    }
  }

  /** When the line is cut at all, then not before the third byte behind it. */
  lemma LateCut(target: string, version: RL.HttpVersion, lines: seq<HL.Line>, f: RL.Fields)
    requires ' ' !in target
    requires RL.ParseUri(PrintRequest(target, version, lines), RL.TERMINATOR, f).verdict
      == RL.UriSuccess
    ensures |RL.ParseUri(PrintRequest(target, version, lines), RL.TERMINATOR, f).buffer|
      < |HL.PrintLines(lines)| + 2
  {
    hide RL.ParseLine, HL.PrintLines, RL.PrintLine;
    var line := RL.PrintLine(target, version);
    var behind := "\r\n" + HL.PrintLines(lines) + "\r\n";
    var s := line + behind;
    assert PrintRequest(target, version, lines) == s;
    var pos := FindChar(s, RL.TERMINATOR, 0);
    if RL.TERMINATOR in target {
      RL.CutTarget(target, version, behind, pos, f);
    } else {
      RL.LineHasNoTerminator(target, version);
      forall j | 0 <= j < |line| + 2 ensures s[j] != RL.TERMINATOR {
        if j < |line| {
          assert s[j] == line[j] && line[j] in line;
        } else {
          assert s[j] == behind[j - |line|] == "\r\n"[j - |line|];
        }
      }
    }
  }

  predicate HasLetter(target: string, lines: seq<HL.Line>) {
    || RL.TERMINATOR in target
    || exists l :: l in lines && (RL.TERMINATOR in l.key || RL.TERMINATOR in l.value)
  }

  lemma {:induction false} LetterInLines(lines: seq<HL.Line>)
    ensures RL.TERMINATOR in HL.PrintLines(lines) <==> HasLetter("", lines)
    decreases |lines|
  {
    if lines != [] { LetterInLines(lines[1..]); }
  }

  /** A whole printed request is not even recognised as complete, exactly when the letter is in
      none of its parts: what the protocol puts between them does not have it. */
  lemma NoLetterNoRequest(target: string, version: RL.HttpVersion, lines: seq<HL.Line>,
                          f: RL.Fields)
    ensures RL.ParseUri(PrintRequest(target, version, lines), RL.TERMINATOR, f).verdict
              == RL.UriAgain
       <==> !HasLetter(target, lines)
  {
    var line, block := RL.PrintLine(target, version), HL.PrintLines(lines);
    var s := line + "\r\n" + block + "\r\n";
    LetterInLines(lines);
    assert RL.TERMINATOR in line <==> RL.TERMINATOR in target by {
      assert line == "GET /" + target + " HTTP/" + RL.PrintVersion(version);
    }
    assert RL.TERMINATOR in s <==> RL.TERMINATOR in line || RL.TERMINATOR in block;
    RL.MoreInputIsAppended(s, "", RL.TERMINATOR, f);
  }

  /** An everyday request of this kind. */
  lemma EverydayRequestWaits(f: RL.Fields)
    ensures var s := PrintRequest("index.html", RL.HTTP_11, [HL.Line("Host", "a")]);
            RL.ParseUri(s, RL.TERMINATOR, f).verdict == RL.UriAgain
  {
    NoLetterNoRequest("index.html", RL.HTTP_11, [HL.Line("Host", "a")], f);
  }

  // ---------------------------------------------------------------- pipelining

  // What follows a request is a matter of the header loop; these results are for the CR, with
  // which requests are recognised.

  /** A request sent right behind another one arrives whole exactly when it is empty. */
  lemma PipelinedRequestArrives(target: string, version: RL.HttpVersion, lines: seq<HL.Line>,
                                next: string, f: RL.Fields)
    requires Printable(target, lines)
    ensures var r := ParseRequest(PrintRequest(target, version, lines) + next, CR, f);
            r.Request? && (r.rest == next <==> next == "")
  {
    CrRoundTrip(target, version, lines, next, f);
  }

  datatype Get = Get(target: string, version: RL.HttpVersion, lines: seq<HL.Line>)

  /** Requests with one byte to be dropped behind each of them. */
  function PrintPadded(requests: seq<Get>, pad: char): string {
    if requests == [] then ""
    else
      var g := requests[0];
      PrintRequest(g.target, g.version, g.lines) + [pad] + PrintPadded(requests[1..], pad)
  }

  /** All the requests of a buffer, one after the other, with what was left over for each. */
  function ParseAll(s: string, f: RL.Fields): seq<Parsed>
    decreases |s|
  {
    var r := ParseRequest(s, CR, f);
    if r.Request? && |r.rest| < |s| then [r] + ParseAll(r.rest, r.fields) else []
  }

  predicate Recovers(r: Parsed, g: Get) {
    && r.Request? && r.fields == RL.Fields(RL.GET, RL.PathOf(g.target), g.version)
    && r.headers == HL.Fold(map[], g.lines)
  }

  lemma PaddedRequest(g: Get, pad: char, behind: string, f: RL.Fields)
    requires Printable(g.target, g.lines)
    ensures var s := PrintRequest(g.target, g.version, g.lines) + [pad] + behind;
            var r := ParseRequest(s, CR, f);
            r.Request? && Recovers(r, g) && r.rest == behind
  {
    hide ParseRequest, PrintRequest, Printable;
    var printed := PrintRequest(g.target, g.version, g.lines);
    assert printed + [pad] + behind == printed + ([pad] + behind);
    CrRoundTrip(g.target, g.version, g.lines, [pad] + behind, f);
  }

  /** With such a byte behind each, any number of pipelined requests comes back, in order. */
  lemma {:induction false} PaddedRequestsArrive(requests: seq<Get>, pad: char, f: RL.Fields)
    requires forall g :: g in requests ==> Printable(g.target, g.lines)
    ensures var all := ParseAll(PrintPadded(requests, pad), f);
            && |all| == |requests|
            && forall i :: 0 <= i < |all| ==> Recovers(all[i], requests[i])
    decreases |requests|
  {
    if requests == [] {
      assert ParseRequest("", CR, f).NoRequest?;
    } else {
      hide ParseRequest, PrintRequest, Printable, Recovers;
      var s, behind := PrintPadded(requests, pad), PrintPadded(requests[1..], pad);
      PaddedRequest(requests[0], pad, behind, f);
      var r := ParseRequest(s, CR, f);
      PaddedRequestsArrive(requests[1..], pad, r.fields);
      var all := ParseAll(behind, r.fields);
      assert ParseAll(s, f) == [r] + all;
      forall i | 0 <= i <= |all| ensures Recovers(([r] + all)[i], requests[i]) {
        if i > 0 {
          assert ([r] + all)[i] == all[i - 1] && requests[i] == requests[1..][i - 1];
        }
      }
    }
  }

  /** What is left of a request line without its first letter. */
  function Beheaded(target: string, version: RL.HttpVersion): string {
    "ET /" + target + " HTTP/" + RL.PrintVersion(version)
  }

  /** The place of a method name in the target, GET before POST. */
  function StrayMethod(target: string): int {
    var get := Find(target, "GET", 0);
    if get >= 0 then get else Find(target, "POST", 0)
  }

  /** The letters of what is left, around the target. */
  lemma BeheadedLetters(target: string, version: RL.HttpVersion)
    ensures var line, n := Beheaded(target, version), |target|;
            && |line| == n + 13 && line[..4] == "ET /" && line[4..4 + n] == target
            && line[4 + n..10 + n] == " HTTP/" && line[10 + n..] == RL.PrintVersion(version)
            && line[0] == 'E' && line[1] == 'T' && line[2] == ' ' && line[3] == '/'
            && (forall j :: 4 <= j < 4 + n ==> line[j] == target[j - 4])
            && line[4 + n] == ' ' && line[8 + n] == 'P' && line[9 + n] == '/'
            && forall j :: 4 + n <= j < |line| ==>
                 line[j] !in {'G', 'O'} && (line[j] == 'P' ==> j == 8 + n)
                 && (line[j] == ' ' ==> j == 4 + n) && (line[j] == '/' ==> j == 9 + n)
  {
  }

  /** A method name in what is left can only stand in the target. */
  lemma StrayIsInTarget(target: string, version: RL.HttpVersion, name: string, i: int)
    requires name in {"GET", "POST"} && OccursAt(Beheaded(target, version), name, i)
    ensures OccursAt(target, name, i - 4)
  {
    hide Beheaded;
    var line, n, k := Beheaded(target, version), |target|, |name|;
    BeheadedLetters(target, version);
    assert forall m :: 0 <= m < k ==> line[i + m] == line[i..i + k][m] == name[m];
    assert line[i] == name[0] && line[i + 1] == name[1];
    assert 4 <= i && i + k <= 4 + n;
    assert line[i..i + k] == target[i - 4..i - 4 + k];
  }

  lemma StrayPlace(target: string, version: RL.HttpVersion, name: string)
    requires name in {"GET", "POST"}
    ensures Find(Beheaded(target, version), name, 0)
         == (if Find(target, name, 0) < 0 then -1 else Find(target, name, 0) + 4)
  {
    hide Beheaded, Find;
    var line, k := Beheaded(target, version), |name|;
    forall i | OccursAt(line, name, i)
      ensures OccursAt(target, name, i - 4)
    {
      StrayIsInTarget(target, version, name, i);
    }
    BeheadedLetters(target, version);
    forall i | OccursAt(target, name, i)
      ensures OccursAt(line, name, i + 4)
    {
      assert line[i + 4..i + 4 + k] == target[i..i + k];
    }
  }

  /** A GET request that follows directly loses its G. Its line is then an error, unless a method
      name with a slash behind it happens to stand in its target. */
  lemma PipelinedGetIsRejected(target: string, version: RL.HttpVersion, rest: string,
                               f: RL.Fields)
    requires CR !in target && ' ' !in target
    ensures var next := RL.PrintLine(target, version) + [CR] + rest;
            var m := StrayMethod(target);
            RL.ParseUri(HL.AfterBlock(next), CR, f).verdict
              == if m >= 0 && '/' in target[m..] then RL.UriSuccess else RL.UriError
  {
    var line, n := Beheaded(target, version), |target|;
    assert RL.PrintLine(target, version) == "G" + line;
    var s := HL.AfterBlock(RL.PrintLine(target, version) + [CR] + rest);
    assert s == line + [CR] + rest;
    forall j | 0 <= j < |line| ensures s[j] != CR {
      assert s[j] == line[j];
    }
    FirstIs(s, CR, 0, |line|);
    assert s[..|line|] == line;
    BeheadedLine(target, version, f);
  }

  lemma BeheadedLine(target: string, version: RL.HttpVersion, f: RL.Fields)
    requires ' ' !in target
    ensures var m := StrayMethod(target);
            RL.ParseLine(Beheaded(target, version), f).0
              == if m >= 0 && '/' in target[m..] then RL.UriSuccess else RL.UriError
  {
    hide RL.ParseTarget;
    var line, m := Beheaded(target, version), StrayMethod(target);
    StrayPlace(target, version, "GET");
    StrayPlace(target, version, "POST");
    if m >= 0 {
      var g := f.(verb := if Find(target, "GET", 0) >= 0 then RL.GET else RL.POST);
      SlashPlace(target, version, m, g);
    }
  }

  /** The first slash from a place in the target on, and what the parser finds behind it. */
  lemma SlashPlace(target: string, version: RL.HttpVersion, m: nat, f: RL.Fields)
    requires ' ' !in target && m <= |target|
    ensures var slash := FindChar(Beheaded(target, version), '/', m + 4);
            && slash >= 0
            && RL.ParseTarget(Beheaded(target, version), slash, f).0
                 == if '/' in target[m..] then RL.UriSuccess else RL.UriError
  {
    hide Beheaded, FindChar, RL.PathOf;
    var line, n := Beheaded(target, version), |target|;
    BeheadedLetters(target, version);
    if '/' in target[m..] {
      var k := FindChar(target, '/', m);
      FirstIs(line, '/', m + 4, k + 4);
      FirstIs(line, ' ', k + 4, 4 + n);
      FirstIs(line, '/', 4 + n, 9 + n);
      assert line[10 + n..13 + n] == RL.PrintVersion(version);
    } else {
      assert forall j :: m <= j < n ==> target[j] == target[m..][j - m];
      FirstIs(line, '/', m + 4, 9 + n);
      assert FindChar(line, ' ', 9 + n) < 0;
    }
  }
}
