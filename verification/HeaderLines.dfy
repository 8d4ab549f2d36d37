/** Header parsing (src/Server/Http.cpp:302-388): the nine-state automaton as a function of the
    buffer, the language it accepts, and what happens when a buffer ends in the middle of it. */
module HeaderLines {
  import opened Text

  datatype LineState =
    | START | KEY | COLON | SPACES_AFTER_COLON | VALUE | AFTER_CR | AFTER_LF | END_CR | END_LF

  type HeaderMap = map<string, string>

  /** `HeaderUndefined` stands for forming an iterator before the start of the buffer, which is
      undefined behaviour: it happens when an offset is still -1 at the end of a line. */
  datatype Verdict = HeaderAgain | HeaderSuccess | HeaderError | HeaderUndefined

  /** The persistent state together with the locals of one call. */
  datatype Cursor = Cursor(
    state: LineState,
    keyStart: int, keyEnd: int, valueStart: int, valueEnd: int,
    lineBegin: nat,
    headers: HeaderMap)

  datatype Move =
    | Continue(next: Cursor)
    | Finish(last: Cursor)
    | Stop(verdict: Verdict, at: Cursor)

  datatype ParseResult = ParseResult(
    verdict: Verdict, buffer: string, state: LineState, headers: HeaderMap)

  predicate IsBreak(c: char) { c == CR || c == LF }

  /** A line can be committed when all four offsets point into the buffer. */
  predicate Committable(c: Cursor, i: nat) {
    0 <= c.keyStart <= c.keyEnd <= i && 0 <= c.valueStart <= c.valueEnd <= i
  }

  /** One iteration of the switch on character `i`. */
  function Step(s: string, i: nat, c: Cursor): Move
    requires i < |s|
  {
    match c.state
    case START =>
      if IsBreak(s[i]) then Continue(c)
      else Continue(c.(state := KEY, keyStart := i, lineBegin := i))
    case KEY =>
      if s[i] == ':' then
        if i - c.keyStart <= 0 then Stop(HeaderError, c.(keyEnd := i))
        else Continue(c.(state := COLON, keyEnd := i))
      else if IsBreak(s[i]) then Stop(HeaderError, c)
      else Continue(c)
    case COLON =>
      if s[i] == ' ' then Continue(c.(state := SPACES_AFTER_COLON)) else Stop(HeaderError, c)
    case SPACES_AFTER_COLON =>
      Continue(c.(state := VALUE, valueStart := i))
    case VALUE =>
      if s[i] == CR then
        if i - c.valueStart <= 0 then Stop(HeaderError, c.(state := AFTER_CR, valueEnd := i))
        else Continue(c.(state := AFTER_CR, valueEnd := i))
      else if i - c.valueStart > 255 then Stop(HeaderError, c)
      else Continue(c)
    case AFTER_CR =>
      if s[i] != LF then Stop(HeaderError, c)
      else if !Committable(c, i) then Stop(HeaderUndefined, c.(state := AFTER_LF))
      else
        Continue(c.(state := AFTER_LF, lineBegin := i,
                    headers := c.headers[s[c.keyStart..c.keyEnd] := s[c.valueStart..c.valueEnd]]))
    case AFTER_LF =>
      if s[i] == CR then Continue(c.(state := END_CR))
      else Continue(c.(state := KEY, keyStart := i))
    case END_CR =>
      if s[i] == LF then Continue(c.(state := END_LF)) else Stop(HeaderError, c)
    case END_LF =>
      Finish(c.(keyStart := i, lineBegin := i))
  }

  /** The loop from position `i`, and the buffer cut after it. */
  function Scan(s: string, i: nat, c: Cursor): ParseResult
    requires i <= |s| && c.lineBegin <= i
    decreases |s| - i
  {
    if i == |s| then
      if c.state == END_LF then ParseResult(HeaderSuccess, s[i..], c.state, c.headers)
      else ParseResult(HeaderAgain, s[c.lineBegin..], c.state, c.headers)
    else
      match Step(s, i, c)
      case Continue(next) => Scan(s, i + 1, next)
      case Finish(last) => ParseResult(HeaderSuccess, s[i + 1..], last.state, last.headers)
      case Stop(verdict, at) => ParseResult(verdict, s, at.state, at.headers)
  }

  /** The buffer never grows, and success from inside a request uses at least one byte. */
  lemma {:induction false} ScanShrinks(s: string, i: nat, c: Cursor)
    requires i <= |s| && c.lineBegin <= i
    ensures var r := Scan(s, i, c);
            && |r.buffer| <= |s|
            && (r.verdict == HeaderSuccess && (i > 0 || c.state != END_LF) ==> |r.buffer| < |s|)
            && (r.verdict == HeaderAgain ==> r.state != END_LF)
    decreases |s| - i
  {
    if i < |s| {
      var m := Step(s, i, c);
      if m.Continue? { ScanShrinks(s, i + 1, m.next); }
    }
  }

  function Fresh(state: LineState, headers: HeaderMap): Cursor {
    Cursor(state, -1, -1, -1, -1, 0, headers)
  }

  /** One call of `ParseHeaders` on a buffer. */
  function Parse(s: string, state: LineState, headers: HeaderMap): ParseResult {
    Scan(s, 0, Fresh(state, headers))
  }

  // ---------------------------------------------------------------- the accepted language

  datatype Line = Line(key: string, value: string)

  /** The first character of a key is not looked at; the others are no colon, CR or LF. */
  predicate KeyRest(s: string, i: int, j: int)
    requires 0 <= i <= j <= |s|
  {
    forall m :: i <= m < j ==> s[m] != ':' && !IsBreak(s[m])
  }

  predicate ValueRest(s: string, i: int, j: int)
    requires 0 <= i <= j <= |s|
  {
    forall m :: i <= m < j ==> s[m] != CR
  }

  predicate ValidLine(l: Line) {
    && 1 <= |l.key| && KeyRest(l.key, 1, |l.key|)
    && 1 <= |l.value| <= 256 && ValueRest(l.value, 1, |l.value|)
  }

  /** A header block: breaks, one or more lines, an empty line. */
  predicate ValidLines(lines: seq<Line>) {
    forall k :: 0 <= k < |lines| ==> ValidLine(lines[k]) && lines[k].key[0] != CR
  }

  predicate ValidBlock(skip: string, lines: seq<Line>) {
    && (forall m :: 0 <= m < |skip| ==> IsBreak(skip[m]))
    && 1 <= |lines| && ValidLines(lines) && lines[0].key[0] != LF
  }

  function PrintLine(l: Line): string { l.key + ": " + l.value + "\r\n" }

  function PrintLines(lines: seq<Line>): string {
    if lines == [] then "" else PrintLine(lines[0]) + PrintLines(lines[1..])
  }

  function PrintBlock(skip: string, lines: seq<Line>): string {
    skip + PrintLines(lines) + "\r\n"
  }

  /** The headers after the lines, the last line of a key winning. */
  function Fold(headers: HeaderMap, lines: seq<Line>): HeaderMap
    decreases |lines|
  {
    if lines == [] then headers
    else Fold(headers[lines[0].key := lines[0].value], lines[1..])
  }

  /** One byte of whatever follows the empty line is dropped with it. */
  function AfterBlock(tail: string): string { if tail == "" then "" else tail[1..] }

  // Runs of the automaton inside one state.

  lemma {:induction false} BreakRun(s: string, i: nat, j: nat, c: Cursor)
    requires i <= j <= |s| && c.lineBegin <= i && c.state == START
    requires forall m :: i <= m < j ==> IsBreak(s[m])
    ensures Scan(s, i, c) == Scan(s, j, c)
    decreases j - i
  {
    if i < j { BreakRun(s, i + 1, j, c); }
  }

  lemma {:induction false} KeyRun(s: string, i: nat, j: nat, c: Cursor)
    requires i <= j <= |s| && c.lineBegin <= i && c.state == KEY
    requires KeyRest(s, i, j)
    ensures Scan(s, i, c) == Scan(s, j, c)
    decreases j - i
  {
    if i < j { KeyRun(s, i + 1, j, c); }
  }

  lemma {:induction false} ValueRun(s: string, i: nat, j: nat, c: Cursor)
    requires i <= j <= |s| && c.lineBegin <= i && c.state == VALUE
    requires ValueRest(s, i, j) && j - c.valueStart <= 256
    ensures Scan(s, i, c) == Scan(s, j, c)
    decreases j - i
  {
    if i < j { ValueRun(s, i + 1, j, c); }
  }

  /** The cursor after a line `s[i..k]` whose colon is at `e` and whose CR is at `k - 2`. */
  function Committed(s: string, c: Cursor, i: nat, e: nat, k: nat): Cursor
    requires i < e && e + 3 < k - 1 && k <= |s|
  {
    Cursor(AFTER_LF, i, e, e + 2, k - 2, k - 1, c.headers[s[i..e] := s[e + 2..k - 2]])
  }

  /** The positions of a line: key `i..e`, colon, space, value `e+2..k-2`, CR, LF. */
  predicate LineAt(s: string, i: nat, e: nat, k: nat) {
    && i < e && e + 5 <= k <= |s| && k - 2 - (e + 2) <= 256
    && KeyRest(s, i + 1, e) && s[e] == ':' && s[e + 1] == ' '
    && ValueRest(s, e + 3, k - 2) && s[k - 2] == CR && s[k - 1] == LF
  }

  /** From the colon to the first value character. */
  lemma ColonRun(s: string, e: nat, c: Cursor)
    requires e + 2 < |s| && s[e] == ':' && s[e + 1] == ' '
    requires c.state == KEY && c.keyStart < e && c.lineBegin <= e
    ensures Scan(s, e, c)
         == Scan(s, e + 3, c.(state := VALUE, keyEnd := e, valueStart := e + 2))
  {
    var atColon := c.(state := COLON, keyEnd := e);
    assert Scan(s, e, c) == Scan(s, e + 1, atColon);
    ColonTail(s, e + 1, atColon);
  }

  lemma ColonTail(s: string, i: nat, c: Cursor)
    requires i + 1 < |s| && s[i] == ' ' && c.state == COLON && c.lineBegin <= i
    ensures Scan(s, i, c) == Scan(s, i + 2, c.(state := VALUE, valueStart := i + 1))
  {
    assert Scan(s, i, c) == Scan(s, i + 1, c.(state := SPACES_AFTER_COLON));
  }

  /** The CR and LF that end a value commit the line. */
  lemma CommitRun(s: string, v: nat, c: Cursor)
    requires v + 1 < |s| && s[v] == CR && s[v + 1] == LF
    requires c.state == VALUE && c.lineBegin <= v
    requires 0 <= c.keyStart <= c.keyEnd <= v && 0 <= c.valueStart < v
    ensures Scan(s, v, c)
         == Scan(s, v + 2, c.(state := AFTER_LF, valueEnd := v, lineBegin := v + 1,
                              headers := c.headers[s[c.keyStart..c.keyEnd] := s[c.valueStart..v]]))
  {
    var atCr := c.(state := AFTER_CR, valueEnd := v);
    assert Scan(s, v, c) == Scan(s, v + 1, atCr);
  }

  /** From just after the first key character, a whole line is consumed and committed. */
  lemma LineRun(s: string, i: nat, e: nat, k: nat, c: Cursor)
    requires LineAt(s, i, e, k) && c.state == KEY && c.keyStart == i && c.lineBegin <= i
    ensures Scan(s, i + 1, c) == Scan(s, k, Committed(s, c, i, e, k))
  {
    hide Scan;
    KeyRun(s, i + 1, e, c);
    ColonRun(s, e, c);
    var atValue := c.(state := VALUE, keyEnd := e, valueStart := e + 2);
    ValueRun(s, e + 3, k - 2, atValue);
    CommitRun(s, k - 2, atValue);
  }

  /** Success from inside a key needs a colon and a space. */
  lemma KeyShape(s: string, i: nat, c: Cursor) returns (e: nat)
    requires i < |s| && c.state == KEY && c.keyStart == i && c.lineBegin <= i
    requires Scan(s, i + 1, c).verdict == HeaderSuccess
    ensures i < e && e + 2 < |s| && KeyRest(s, i + 1, e) && s[e] == ':' && s[e + 1] == ' '
  {
    e := i + 1;
    while e < |s| && s[e] != ':' && !IsBreak(s[e])
      invariant i + 1 <= e <= |s| && KeyRest(s, i + 1, e)
    {
      e := e + 1;
    }
    KeyRun(s, i + 1, e, c);
    ColonShape(s, e, c);
  }

  lemma ColonShape(s: string, e: nat, c: Cursor)
    requires e <= |s| && c.state == KEY && c.lineBegin <= e && c.keyStart < e
    requires e < |s| ==> s[e] == ':' || IsBreak(s[e])
    requires Scan(s, e, c).verdict == HeaderSuccess
    ensures e + 2 < |s| && s[e] == ':' && s[e + 1] == ' '
  {
    assert e < |s| && s[e] == ':';
    var atColon := c.(state := COLON, keyEnd := e);
    assert Scan(s, e, c) == Scan(s, e + 1, atColon);
    SpaceShape(s, e + 1, atColon);
  }

  lemma SpaceShape(s: string, i: nat, c: Cursor)
    requires i <= |s| && c.state == COLON && c.lineBegin <= i
    requires Scan(s, i, c).verdict == HeaderSuccess
    ensures i + 1 < |s| && s[i] == ' '
  {
    assert i < |s| && s[i] == ' ';
    assert Scan(s, i, c) == Scan(s, i + 1, c.(state := SPACES_AFTER_COLON));
  }

  /** Success from inside a value needs a CR within 256 characters, then an LF. */
  lemma ValueShape(s: string, i: nat, c: Cursor) returns (v: nat)
    requires 0 < i <= |s| && c.state == VALUE && c.lineBegin <= i && c.valueStart == i - 1
    requires Scan(s, i, c).verdict == HeaderSuccess
    ensures i <= v && v + 1 < |s| && v - (i - 1) <= 256
    ensures ValueRest(s, i, v) && s[v] == CR && s[v + 1] == LF
  {
    v := i;
    while v < |s| && s[v] != CR && v - (i - 1) <= 255
      invariant i <= v <= |s| && v - (i - 1) <= 256 && ValueRest(s, i, v)
    {
      v := v + 1;
    }
    ValueRun(s, i, v, c);
    CrShape(s, v, c);
  }

  lemma CrShape(s: string, v: nat, c: Cursor)
    requires v <= |s| && c.state == VALUE && c.lineBegin <= v
    requires v < |s| ==> s[v] == CR || v - c.valueStart > 255
    requires Scan(s, v, c).verdict == HeaderSuccess
    ensures v + 1 < |s| && s[v] == CR && s[v + 1] == LF
  {
    assert v < |s| && s[v] == CR;
    assert Scan(s, v, c) == Scan(s, v + 1, c.(state := AFTER_CR, valueEnd := v));
  }

  /** Success from just after a first key character is only reached through a whole line. */
  lemma LineShape(s: string, i: nat, c: Cursor) returns (e: nat, k: nat)
    requires i < |s| && c.state == KEY && c.keyStart == i && c.lineBegin <= i
    requires Scan(s, i + 1, c).verdict == HeaderSuccess
    ensures LineAt(s, i, e, k)
  {
    hide Scan;
    e := KeyShape(s, i, c);
    KeyRun(s, i + 1, e, c);
    ColonRun(s, e, c);
    var v := ValueShape(s, e + 3, c.(state := VALUE, keyEnd := e, valueStart := e + 2));
    k := v + 2;
  }

  // ---------------------------------------------------------------- completeness

  /** The empty line ends the block and takes one byte of what follows with it. */
  lemma EndRun(s: string, i: nat, c: Cursor, tail: string)
    requires i <= |s| && s[i..] == "\r\n" + tail && c.state == AFTER_LF && c.lineBegin <= i
    ensures Scan(s, i, c) == ParseResult(HeaderSuccess, AfterBlock(tail), END_LF, c.headers)
  {
    assert s[i] == s[i..][0] && s[i + 1] == s[i..][1];
    assert tail == s[i..][2..] == s[i + 2..];
    var ended := c.(state := END_LF);
    assert Scan(s, i, c) == Scan(s, i + 1, c.(state := END_CR));
    assert Scan(s, i + 1, c.(state := END_CR)) == Scan(s, i + 2, ended);
    if tail != "" {
      assert s[i + 3..] == tail[1..];
    }
  }

  /** Where the parts of a printed line stand in the buffer. */
  lemma PrintedLine(s: string, i: nat, l: Line, rest: string)
    requires i <= |s| && s[i..] == PrintLine(l) + rest && ValidLine(l)
    ensures var e, k := i + |l.key|, i + |PrintLine(l)|;
            && LineAt(s, i, e, k) && s[i..e] == l.key && s[e + 2..k - 2] == l.value
            && s[k..] == rest
  {
    var p := PrintLine(l);
    var e, k := i + |l.key|, i + |p|;
    forall m | i <= m < |s| ensures s[m] == (p + rest)[m - i] {
      assert s[m] == s[i..][m - i];
    }
    assert |p| == |l.key| + 2 + |l.value| + 2;
    assert s[i..e] == l.key;
    assert s[e + 2..k - 2] == l.value;
    assert s[k..] == rest;
    forall m | e + 3 <= m < k - 2 ensures s[m] != CR {
      assert s[m] == l.value[m - e - 2];
    }
  }

  /** A printed line from the start of a key, then whatever the automaton does after it. */
  lemma PrintedLineRun(s: string, i: nat, l: Line, rest: string, c: Cursor)
      returns (k: nat, next: Cursor)
    requires i <= |s| && s[i..] == PrintLine(l) + rest && ValidLine(l)
    requires c.state == KEY && c.keyStart == i && c.lineBegin <= i
    ensures i + 4 <= k <= |s| && s[k..] == rest && s[k - 1] == LF
    ensures next.state == AFTER_LF && next.lineBegin == k - 1
    ensures next.headers == c.headers[l.key := l.value]
    ensures i < |s| && Scan(s, i + 1, c) == Scan(s, k, next)
  {
    hide Scan;
    PrintedLine(s, i, l, rest);
    k := i + |PrintLine(l)|;
    LineRun(s, i, i + |l.key|, k, c);
    next := Committed(s, c, i, i + |l.key|, k);
  }

  lemma {:induction false} LinesRun(s: string, i: nat, c: Cursor, lines: seq<Line>, tail: string)
    requires i <= |s| && c.state == AFTER_LF && c.lineBegin <= i
    requires ValidLines(lines) && s[i..] == PrintLines(lines) + "\r\n" + tail
    ensures Scan(s, i, c)
         == ParseResult(HeaderSuccess, AfterBlock(tail), END_LF, Fold(c.headers, lines))
    decreases |lines|
  {
    if lines == [] {
      assert s[i..] == "\r\n" + tail;
      EndRun(s, i, c, tail);
    } else {
      var l := lines[0];
      var rest := PrintLines(lines[1..]) + "\r\n" + tail;
      assert s[i..] == PrintLine(l) + rest;
      assert s[i] == s[i..][0] == l.key[0];
      var atKey := c.(state := KEY, keyStart := i);
      var k, next := PrintedLineRun(s, i, l, rest, atKey);
      LinesRun(s, k, next, lines[1..], tail);
    }
  }

  /** Every printed block is accepted, with the fold of its lines and the stated remainder. */
  lemma BlockIsAccepted(skip: string, lines: seq<Line>, tail: string, headers: HeaderMap)
    requires ValidBlock(skip, lines)
    ensures Parse(PrintBlock(skip, lines) + tail, START, headers)
         == ParseResult(HeaderSuccess, AfterBlock(tail), END_LF, Fold(headers, lines))
  {
    var s := PrintBlock(skip, lines) + tail;
    var i := |skip|;
    var c := Fresh(START, headers);
    BreakRun(s, 0, i, c);
    var l := lines[0];
    var rest := PrintLines(lines[1..]) + "\r\n" + tail;
    assert s[i..] == PrintLine(l) + rest;
    assert s[i] == s[i..][0] == l.key[0];
    var atKey := c.(state := KEY, keyStart := i, lineBegin := i);
    var k, next := PrintedLineRun(s, i, l, rest, atKey);
    LinesRun(s, k, next, lines[1..], tail);
  }

  // ---------------------------------------------------------------- soundness

  /** The line that stands at a place where `LineAt` holds. */
  lemma LineOf(s: string, i: nat, e: nat, k: nat) returns (l: Line)
    requires LineAt(s, i, e, k)
    ensures ValidLine(l) && s[i..k] == PrintLine(l) && l.key[0] == s[i]
    ensures l == Line(s[i..e], s[e + 2..k - 2])
  {
    l := Line(s[i..e], s[e + 2..k - 2]);
    forall m | 1 <= m < |l.value| ensures l.value[m] != CR {
      assert l.value[m] == s[e + 2 + m];
    }
    assert s[i..k] == s[i..e] + s[e..e + 2] + s[e + 2..k - 2] + s[k - 2..k];
    assert s[e..e + 2] == ": " && s[k - 2..k] == "\r\n";
  }

  lemma {:induction false} SuccessIsLines(s: string, i: nat, c: Cursor)
      returns (lines: seq<Line>, tail: string)
    requires i <= |s| && c.state == AFTER_LF && c.lineBegin <= i
    requires Scan(s, i, c).verdict == HeaderSuccess
    ensures ValidLines(lines) && s[i..] == PrintLines(lines) + "\r\n" + tail
    decreases |s| - i
  {
    hide Scan;
    var atKey := c.(state := KEY, keyStart := i);
    AfterLineShape(s, i, c);
    if s[i] == CR {
      lines, tail := [], s[i + 2..];
      assert s[i..] == [s[i], s[i + 1]] + tail;
    } else {
      var l, k := SuccessIsLine(s, i, atKey);
      var others;
      others, tail := SuccessIsLines(s, k, CommittedLine(s, atKey, l, k));
      lines := [l] + others;
      assert s[i..] == s[i..k] + s[k..];
    }
  }

  /** After a line comes the empty line or the first character of another key. */
  lemma AfterLineShape(s: string, i: nat, c: Cursor)
    requires i <= |s| && c.state == AFTER_LF && c.lineBegin <= i
    requires Scan(s, i, c).verdict == HeaderSuccess
    ensures i < |s|
    ensures s[i] == CR ==> i + 1 < |s| && s[i + 1] == LF
    ensures s[i] != CR ==> Scan(s, i, c) == Scan(s, i + 1, c.(state := KEY, keyStart := i))
  {
    assert i < |s|;
    if s[i] == CR {
      assert Scan(s, i, c) == Scan(s, i + 1, c.(state := END_CR));
    }
  }

  /** A fresh parse skips the breaks in front and starts a key. */
  lemma StartShape(s: string, i: nat, c: Cursor)
    requires i <= |s| && c == Fresh(START, c.headers)
    requires forall m :: 0 <= m < i ==> IsBreak(s[m])
    requires i < |s| ==> !IsBreak(s[i])
    requires Scan(s, 0, c).verdict == HeaderSuccess
    ensures i < |s|
    ensures Scan(s, 0, c) == Scan(s, i + 1, c.(state := KEY, keyStart := i, lineBegin := i))
  {
    BreakRun(s, 0, i, c);
  }

  function CommittedLine(s: string, c: Cursor, l: Line, k: nat): Cursor
    requires 0 < k
  {
    Cursor(AFTER_LF, c.keyStart, c.keyStart + |l.key|, c.keyStart + |l.key| + 2, k - 2, k - 1,
           c.headers[l.key := l.value])
  }

  lemma SuccessIsLine(s: string, i: nat, c: Cursor) returns (l: Line, k: nat)
    requires i < |s| && c.state == KEY && c.keyStart == i && c.lineBegin <= i
    requires Scan(s, i + 1, c).verdict == HeaderSuccess
    ensures i < k <= |s| && ValidLine(l) && s[i..k] == PrintLine(l) && l.key[0] == s[i]
    ensures Scan(s, i + 1, c) == Scan(s, k, CommittedLine(s, c, l, k))
  {
    hide Scan;
    var e;
    e, k := LineShape(s, i, c);
    LineRun(s, i, e, k, c);
    l := LineOf(s, i, e, k);
  }

  /** Only printed blocks, followed by anything, are accepted. */
  lemma SuccessIsBlock(s: string, headers: HeaderMap)
      returns (skip: string, lines: seq<Line>, tail: string)
    requires Parse(s, START, headers).verdict == HeaderSuccess
    ensures ValidBlock(skip, lines) && s == PrintBlock(skip, lines) + tail
  {
    var c := Fresh(START, headers);
    var i := 0;
    while i < |s| && IsBreak(s[i])
      invariant i <= |s| && forall m :: 0 <= m < i ==> IsBreak(s[m])
    {
      i := i + 1;
    }
    hide Scan;
    StartShape(s, i, c);
    var atKey := c.(state := KEY, keyStart := i, lineBegin := i);
    var l, k := SuccessIsLine(s, i, atKey);
    var others;
    others, tail := SuccessIsLines(s, k, CommittedLine(s, atKey, l, k));
    skip, lines := s[..i], [l] + others;
    Reassemble(s, i, k, l, others, tail);
  }

  lemma Reassemble(s: string, i: nat, k: nat, l: Line, others: seq<Line>, tail: string)
    requires i < k <= |s| && s[i..k] == PrintLine(l)
    requires s[k..] == PrintLines(others) + "\r\n" + tail
    ensures s == PrintBlock(s[..i], [l] + others) + tail
  {
    assert s == s[..i] + s[i..k] + s[k..];
    assert ([l] + others)[1..] == others;
    calc {
      PrintBlock(s[..i], [l] + others) + tail;
      s[..i] + (PrintLine(l) + PrintLines(others)) + "\r\n" + tail;
      s[..i] + PrintLine(l) + (PrintLines(others) + "\r\n" + tail);
    }
  }

  /** The buffers on which a fresh parse succeeds are exactly those with a block in front. */
  lemma HeaderLanguage(s: string, headers: HeaderMap)
    ensures Parse(s, START, headers).verdict == HeaderSuccess
       <==> exists skip, lines, tail ::
              ValidBlock(skip, lines) && s == PrintBlock(skip, lines) + tail
  {
    if Parse(s, START, headers).verdict == HeaderSuccess {
      var skip, lines, tail := SuccessIsBlock(s, headers);
    }
    forall skip, lines, tail | ValidBlock(skip, lines) && s == PrintBlock(skip, lines) + tail
      ensures Parse(s, START, headers).verdict == HeaderSuccess
    {
      BlockIsAccepted(skip, lines, tail, headers);
    }
  }

  /** The bytes after the block survive exactly when there are none: the loop runs one byte past
      the empty line, so a request that follows directly loses its first byte. */
  lemma FollowingBytesSurvive(skip: string, lines: seq<Line>, tail: string, headers: HeaderMap)
    requires ValidBlock(skip, lines)
    ensures Parse(PrintBlock(skip, lines) + tail, START, headers).buffer == tail <==> tail == ""
  {
    BlockIsAccepted(skip, lines, tail, headers);
  }

  // ---------------------------------------------------------------- reads that split a request

  /** What a scan that began with `START` at position 0 knows at position `i`. */
  predicate Sane(s: string, i: nat, c: Cursor)
    requires i <= |s|
  {
    match c.state
    case START => c.lineBegin == 0 && forall m :: 0 <= m < i ==> IsBreak(s[m])
    case KEY => c.lineBegin < i && 0 <= c.keyStart < i
    case COLON => c.lineBegin < i && 0 <= c.keyStart < c.keyEnd < i
    case SPACES_AFTER_COLON => c.lineBegin < i && 0 <= c.keyStart < c.keyEnd < i
    case VALUE => c.lineBegin < i && 0 <= c.keyStart < c.keyEnd < c.valueStart < i
    case AFTER_CR => c.lineBegin < i && 0 <= c.keyStart < c.keyEnd < c.valueStart < c.valueEnd < i
    case AFTER_LF => c.lineBegin == i - 1 && s[i - 1] == LF
    case END_CR => c.lineBegin == i - 2 && s[i - 2] == LF && s[i - 1] == CR
    case END_LF => c.lineBegin <= i
  }

  lemma StepKeepsSane(s: string, i: nat, c: Cursor)
    requires i < |s| && Sane(s, i, c)
    ensures Step(s, i, c).Continue? ==> Sane(s, i + 1, Step(s, i, c).next)
    ensures Step(s, i, c).Stop? ==> Step(s, i, c).verdict == HeaderError
  {
  }

  lemma {:induction false} SaneScanIsDefined(s: string, i: nat, c: Cursor)
    requires i <= |s| && Sane(s, i, c)
    ensures Scan(s, i, c).verdict != HeaderUndefined
    decreases |s| - i
  {
    if i < |s| {
      StepKeepsSane(s, i, c);
      var m := Step(s, i, c);
      if m.Continue? { SaneScanIsDefined(s, i + 1, m.next); }
    }
  }

  /** A parse that starts afresh never reads outside its buffer. */
  lemma FreshParseIsDefined(s: string, headers: HeaderMap)
    ensures Parse(s, START, headers).verdict != HeaderUndefined
  {
    SaneScanIsDefined(s, 0, Fresh(START, headers));
  }

  /** Inside a line with no key start, the end of the line is undefined behaviour. */
  predicate Headless(c: Cursor) {
    && c.state in {KEY, COLON, SPACES_AFTER_COLON, VALUE, AFTER_CR}
    && c.keyStart < 0
  }

  lemma {:induction false} HeadlessNeverSucceeds(s: string, i: nat, c: Cursor)
    requires i <= |s| && c.lineBegin <= i && Headless(c)
    ensures Scan(s, i, c).verdict != HeaderSuccess
    decreases |s| - i
  {
    if i < |s| {
      var m := Step(s, i, c);
      if m.Continue? { HeadlessNeverSucceeds(s, i + 1, m.next); }
    }
  }

  /** The step only looks at characters up to the current one. */
  lemma StepIsLocal(s: string, ext: string, i: nat, c: Cursor)
    requires i < |s|
    ensures Step(s + ext, i, c) == Step(s, i, c)
  {
    if c.state == AFTER_CR && Committable(c, i) {
      assert (s + ext)[c.keyStart..c.keyEnd] == s[c.keyStart..c.keyEnd];
      assert (s + ext)[c.valueStart..c.valueEnd] == s[c.valueStart..c.valueEnd];
    }
  }

  /** The cursor with which a scan ran out of input, and how a longer buffer goes on from it. */
  lemma {:induction false} AgainCursor(s: string, ext: string, i: nat, c: Cursor)
      returns (d: Cursor)
    requires i <= |s| && Sane(s, i, c) && c.lineBegin <= i
    requires Scan(s, i, c).verdict == HeaderAgain
    ensures Sane(s, |s|, d) && d.lineBegin <= |s| && d.state != END_LF
    ensures Scan(s, i, c) == ParseResult(HeaderAgain, s[d.lineBegin..], d.state, d.headers)
    ensures Scan(s + ext, i, c) == Scan(s + ext, |s|, d)
    decreases |s| - i
  {
    if i == |s| {
      d := c;
    } else {
      StepKeepsSane(s, i, c);
      StepIsLocal(s, ext, i, c);
      d := AgainCursor(s, ext, i + 1, Step(s, i, c).next);
    }
  }

  /** Input that takes each state to the end of a block. */
  function Completion(state: LineState): string {
    match state
    case KEY => ": v\r\n\r\n"
    case COLON => " v\r\n\r\n"
    case SPACES_AFTER_COLON => "v\r\n\r\n"
    case VALUE => "\r\n\r\n"
    case AFTER_CR => "\n\r\n"
    case AFTER_LF => "\r\n"
    case END_CR => "\n"
    case _ => ""
  }

  lemma {:induction false} CompletionSucceeds(s: string, i: nat, c: Cursor)
    requires i <= |s| && Sane(s, i, c) && c.lineBegin <= i
    requires c.state != START && s[i..] == Completion(c.state)
    ensures Scan(s, i, c).verdict == HeaderSuccess && Scan(s, i, c).buffer == ""
    decreases |s| - i
  {
    if c.state != END_LF {
      assert s[i] == s[i..][0];
      assert s[i + 1..] == s[i..][1..];
      CompletionStep(s, i, c);
      StepKeepsSane(s, i, c);
      CompletionSucceeds(s, i + 1, Step(s, i, c).next);
    }
  }

  lemma CompletionStep(s: string, i: nat, c: Cursor)
    requires i < |s| && Sane(s, i, c) && c.lineBegin <= i
    requires c.state != START && c.state != END_LF
    requires s[i] == Completion(c.state)[0]
    ensures var m := Step(s, i, c);
            && m.Continue? && m.next.lineBegin <= i + 1 && m.next.state != START
            && Completion(m.next.state) == Completion(c.state)[1..]
  {
  }

  /** A second call on what the first one kept, with more bytes read behind it. */
  function Resume(s: string, ext: string, headers: HeaderMap): ParseResult {
    var first := Parse(s, START, headers);
    Parse(first.buffer + ext, first.state, first.headers)
  }

  predicate AllBreaks(s: string) { forall m :: 0 <= m < |s| ==> IsBreak(s[m]) }

  /** Resuming after a completed line, or after the CR of the empty line, misreads the rewound
      LF: it becomes the first byte of a key, or the end of the block one byte too early. */
  lemma ResumedBetweenLines(state: LineState, headers: HeaderMap)
    ensures Parse("\n" + "\r\n", AFTER_LF, headers).verdict == HeaderError
    ensures Parse("\n\r" + "\n", END_CR, headers).buffer == "\n"
  {
    var s := "\n\r\n";
    assert "\n" + "\r\n" == s == "\n\r" + "\n";
    var c := Fresh(AFTER_LF, headers);
    var atKey := c.(state := KEY, keyStart := 0);
    assert Scan(s, 0, c) == Scan(s, 1, atKey);
    assert Step(s, 1, atKey) == Stop(HeaderError, atKey);
    var d := Fresh(END_CR, headers);
    assert Scan(s, 0, d) == Scan(s, 1, d.(state := END_LF));
    assert Scan(s, 1, d.(state := END_LF)).buffer == s[2..] == "\n";
  }

  // The resumed scan of a line whose key start is lost.

  /** A value whose first character is at `start` ends at `v` with CR and LF. */
  predicate ValueAt(s: string, start: int, v: int) {
    && -1 <= start < v && v + 1 < |s| && v - start <= 256
    && ValueRest(s, start + 1, v) && s[v] == CR && s[v + 1] == LF
  }

  ghost predicate HasValue(s: string, start: int) { exists v :: ValueAt(s, start, v) }

  /** A key that stands in front ends at `e` with a colon and a space. */
  predicate ColonAt(s: string, e: int) {
    0 <= e && e + 1 < |s| && KeyRest(s, 0, e) && s[e] == ':' && s[e + 1] == ' '
  }

  /** A buffer begins with the rest of a line, as a state inside the line takes it; a value that
      is resumed counts from an offset of -1. */
  ghost predicate EndsLine(state: LineState, s: string) {
    match state
    case KEY => exists e :: ColonAt(s, e) && HasValue(s, e + 2)
    case COLON => s != "" && s[0] == ' ' && HasValue(s, 1)
    case SPACES_AFTER_COLON => HasValue(s, 0)
    case VALUE => HasValue(s, -1)
    case AFTER_CR => s != "" && s[0] == LF
    case _ => false
  }

  lemma AfterCrUndefined(s: string, i: nat, c: Cursor)
    requires i <= |s| && c.lineBegin <= i && c.state == AFTER_CR && c.keyStart < 0
    ensures Scan(s, i, c).verdict == HeaderUndefined <==> i < |s| && s[i] == LF
  {
  }

  lemma {:induction false} ValueUndefined(s: string, i: nat, c: Cursor)
    requires i <= |s| && c.lineBegin <= i && c.state == VALUE && c.keyStart < 0
    requires -1 <= c.valueStart < i && i - c.valueStart <= 256
    requires ValueRest(s, c.valueStart + 1, i)
    ensures Scan(s, i, c).verdict == HeaderUndefined <==> HasValue(s, c.valueStart)
    decreases |s| - i
  {
    if i < |s| && s[i] == CR {
      var atCr := c.(state := AFTER_CR, valueEnd := i);
      assert Scan(s, i, c) == Scan(s, i + 1, atCr);
      AfterCrUndefined(s, i + 1, atCr);
      assert i + 1 < |s| && s[i + 1] == LF ==> ValueAt(s, c.valueStart, i);
    } else if i < |s| && i - c.valueStart <= 255 {
      ValueUndefined(s, i + 1, c);
    }
  }

  lemma SpaceUndefined(s: string, i: nat, c: Cursor)
    requires i <= |s| && c.lineBegin <= i && c.state == SPACES_AFTER_COLON && c.keyStart < 0
    ensures Scan(s, i, c).verdict == HeaderUndefined <==> HasValue(s, i)
  {
    if i < |s| { ValueUndefined(s, i + 1, c.(state := VALUE, valueStart := i)); }
  }

  lemma ColonUndefined(s: string, i: nat, c: Cursor)
    requires i <= |s| && c.lineBegin <= i && c.state == COLON && c.keyStart < 0
    ensures Scan(s, i, c).verdict == HeaderUndefined
       <==> i < |s| && s[i] == ' ' && HasValue(s, i + 1)
  {
    if i < |s| { SpaceUndefined(s, i + 1, c.(state := SPACES_AFTER_COLON)); }
  }

  lemma {:induction false} KeyUndefined(s: string, i: nat, c: Cursor)
    requires i <= |s| && c.lineBegin <= i && c.state == KEY && c.keyStart < 0 && KeyRest(s, 0, i)
    ensures Scan(s, i, c).verdict == HeaderUndefined
       <==> exists e :: ColonAt(s, e) && HasValue(s, e + 2)
    decreases |s| - i
  {
    if i < |s| && s[i] == ':' {
      ColonUndefined(s, i + 1, c.(state := COLON, keyEnd := i));
      assert forall e :: ColonAt(s, e) ==> e == i;
      assert i + 1 < |s| && s[i + 1] == ' ' ==> ColonAt(s, i);
    } else if i < |s| && !IsBreak(s[i]) {
      KeyUndefined(s, i + 1, c);
    }
  }

  lemma LineUndefined(s: string, state: LineState, headers: HeaderMap)
    requires state in {KEY, COLON, SPACES_AFTER_COLON, VALUE, AFTER_CR}
    ensures Parse(s, state, headers).verdict == HeaderUndefined <==> EndsLine(state, s)
  {
    var c := Fresh(state, headers);
    match state
    case KEY => KeyUndefined(s, 0, c);
    case COLON => ColonUndefined(s, 0, c);
    case SPACES_AFTER_COLON => SpaceUndefined(s, 0, c);
    case VALUE => ValueUndefined(s, 0, c);
    case AFTER_CR => AfterCrUndefined(s, 0, c);
  }

  /** After a read that ends inside a line the code has no defined way to success: with the next
      read it waits, or fails, or commits a line with an offset of -1, and it does the latter
      exactly when the kept bytes and the new ones begin with the rest of a line. */
  lemma ResumedLineIsLost(s: string, ext: string, headers: HeaderMap)
    requires Parse(s, START, headers).verdict == HeaderAgain
    requires Parse(s, START, headers).state !in {START, AFTER_LF, END_CR}
    ensures Resume(s, ext, headers).verdict in {HeaderAgain, HeaderError, HeaderUndefined}
    ensures Resume(s, ext, headers).verdict == HeaderUndefined
       <==> var first := Parse(s, START, headers); EndsLine(first.state, first.buffer + ext)
  {
    var d := AgainCursor(s, ext, 0, Fresh(START, headers));
    HeadlessNeverSucceeds(s[d.lineBegin..] + ext, 0, Fresh(d.state, d.headers));
    LineUndefined(s[d.lineBegin..] + ext, d.state, d.headers);
  }

  /** The three ways: a request cut inside its key, behind its colon, and cut once more. */
  lemma LostInThreeWays(headers: HeaderMap)
    ensures Resume("K", ": v\r\n\r\n", headers).verdict == HeaderUndefined
    ensures Resume("K:", " v\r\n\r\n", headers).verdict == HeaderError
    ensures Resume("K", "e", headers).verdict == HeaderAgain
  {
    var first := Parse("K", START, headers);
    assert first == ParseResult(HeaderAgain, "K", KEY, headers);
    var s := "K" + ": v\r\n\r\n";
    assert ColonAt(s, 1) && ValueAt(s, 3, 4);
    LineUndefined(s, KEY, headers);
    assert "K" + "e" == "Ke";
    KeyRun("Ke", 0, 2, Fresh(KEY, headers));
  }

  /** For every other stopping point there is a continuation that ends the block exactly, and
      that is parsed differently when it comes by itself. */
  lemma ResumeDiffers(s: string, headers: HeaderMap) returns (ext: string)
    requires Parse(s, START, headers).verdict == HeaderAgain && !AllBreaks(s)
    ensures ext != "" && Parse(s + ext, START, headers).verdict == HeaderSuccess
    ensures Parse(s + ext, START, headers).buffer == ""
    ensures |s + ext| >= 2 && (s + ext)[|s + ext| - 2] == CR
    ensures var r := Resume(s, ext, headers); r.verdict == HeaderSuccess ==> r.buffer != ""
  {
    ghost var c := Fresh(START, headers);
    ext := Completion(Parse(s, START, headers).state);
    var d := AgainCursor(s, ext, 0, c);
    assert (s + ext)[|s|..] == ext;
    SaneExtends(s, ext, d);
    CompletionSucceeds(s + ext, |s|, d);
    var kept := s[d.lineBegin..];
    if d.state in {AFTER_LF, END_CR} {
      assert kept == if d.state == AFTER_LF then "\n" else "\n\r";
      ResumedBetweenLines(d.state, d.headers);
    } else {
      HeadlessNeverSucceeds(kept + ext, 0, Fresh(d.state, d.headers));
    }
  }

  lemma SaneExtends(s: string, ext: string, c: Cursor)
    requires Sane(s, |s|, c)
    ensures Sane(s + ext, |s|, c)
  {
  }

  // ---------------------------------------------------------------- blocks that are cut

  /** The state after the first `n` characters of a line. */
  function StateAt(l: Line, n: nat): LineState {
    if n <= |l.key| then KEY
    else if n == |l.key| + 1 then COLON
    else if n == |l.key| + 2 then SPACES_AFTER_COLON
    else if n <= |l.key| + 2 + |l.value| then VALUE
    else if n == |l.key| + 3 + |l.value| then AFTER_CR
    else AFTER_LF
  }

  function CursorAt(l: Line, n: nat, c: Cursor): Cursor {
    var colon, end := |l.key|, |l.key| + 2 + |l.value|;
    c.(state := StateAt(l, n),
       keyEnd := if n > colon then c.keyStart + colon else c.keyEnd,
       valueStart := if n > colon + 2 then c.keyStart + colon + 2 else c.valueStart,
       valueEnd := if n > end then c.keyStart + end else c.valueEnd)
  }

  lemma PartStep(s: string, i: nat, l: Line, n: nat, c: Cursor)
    requires ValidLine(l) && 1 <= n < |PrintLine(l)| - 1 && c.keyStart == i
    requires i + n < |s| && s[i + n] == PrintLine(l)[n]
    ensures Step(s, i + n, CursorAt(l, n, c)) == Continue(CursorAt(l, n + 1, c))
  {
    var colon, end := |l.key|, |l.key| + 2 + |l.value|;
    var line := PrintLine(l);
    assert n < colon ==> line[n] == l.key[n];
    assert line[colon] == ':' && line[colon + 1] == ' ';
    assert colon + 2 <= n < end ==> line[n] == l.value[n - colon - 2];
    assert line[end] == CR;
  }

  lemma {:induction false} PartRun(s: string, i: nat, l: Line, n: nat, k: nat, c: Cursor)
    requires ValidLine(l) && 1 <= n <= k < |PrintLine(l)| && c.keyStart == i && c.lineBegin <= i
    requires i + k <= |s| && forall j :: 1 <= j < k ==> s[i + j] == PrintLine(l)[j]
    ensures Scan(s, i + n, CursorAt(l, n, c)) == Scan(s, i + k, CursorAt(l, k, c))
    decreases k - n
  {
    if n < k {
      PartStep(s, i, l, n, c);
      PartRun(s, i, l, n + 1, k, c);
    }
  }

  /** The beginning of a line is kept from the line begin on. */
  lemma CutLine(s: string, i: nat, l: Line, n: nat, c: Cursor)
    requires ValidLine(l) && 1 <= n < |PrintLine(l)| && i + n == |s|
    requires s[i..] == PrintLine(l)[..n]
    requires c.state == KEY && c.keyStart == i && c.lineBegin <= i
    ensures Scan(s, i + 1, c)
         == ParseResult(HeaderAgain, s[c.lineBegin..], StateAt(l, n), c.headers)
  {
    forall j | 1 <= j < n ensures s[i + j] == PrintLine(l)[j] {
      assert s[i + j] == s[i..][j];
    }
    assert CursorAt(l, 1, c) == c;
    PartRun(s, i, l, 1, n, c);
  }

  /** From one line to the end of the last: the cursor stands on the LF. */
  lemma {:induction false} LinesReach(s: string, i: nat, c: Cursor, lines: seq<Line>, rest: string)
      returns (k: nat, next: Cursor)
    requires 0 < i <= |s| && c.state == AFTER_LF && c.lineBegin == i - 1 && s[i - 1] == LF
    requires ValidLines(lines) && s[i..] == PrintLines(lines) + rest
    ensures 0 < k <= |s| && s[k..] == rest && s[k - 1] == LF
    ensures next.state == AFTER_LF && next.lineBegin == k - 1
    ensures next.headers == Fold(c.headers, lines) && Scan(s, i, c) == Scan(s, k, next)
    decreases |lines|
  {
    if lines == [] {
      k, next := i, c;
    } else {
      var l := lines[0];
      assert s[i..] == PrintLine(l) + (PrintLines(lines[1..]) + rest);
      assert s[i] == s[i..][0] == l.key[0];
      var atKey := c.(state := KEY, keyStart := i);
      k, next := PrintedLineRun(s, i, l, PrintLines(lines[1..]) + rest, atKey);
      assert Scan(s, i, c) == Scan(s, i + 1, atKey);
      k, next := LinesReach(s, k, next, lines[1..], rest);
    }
  }

  /** A block whose first line is cut: the breaks in front are dropped, the beginning of the line
      is kept. */
  lemma FirstLineIsKept(skip: string, l: Line, n: nat, headers: HeaderMap)
    requires ValidBlock(skip, [l]) && 1 <= n < |PrintLine(l)|
    ensures var part := PrintLine(l)[..n];
            Parse(skip + part, START, headers)
              == ParseResult(HeaderAgain, part, StateAt(l, n), headers)
  {
    var part := PrintLine(l)[..n];
    var s, i := skip + part, |skip|;
    var c := Fresh(START, headers);
    BreakRun(s, 0, i, c);
    assert s[i..] == part && s[i] == part[0] == l.key[0];
    CutLine(s, i, l, n, c.(state := KEY, keyStart := i, lineBegin := i));
  }

  /** From the front of a block to the end of its lines. */
  lemma BlockReach(skip: string, lines: seq<Line>, rest: string, headers: HeaderMap)
      returns (k: nat, next: Cursor)
    requires ValidBlock(skip, lines)
    ensures var s := skip + PrintLines(lines) + rest;
            && 0 < k <= |s| && s[k..] == rest && s[k - 1] == LF
            && next.state == AFTER_LF && next.lineBegin == k - 1
            && next.headers == Fold(headers, lines)
            && Parse(s, START, headers) == Scan(s, k, next)
  {
    var s, i := skip + PrintLines(lines) + rest, |skip|;
    var c := Fresh(START, headers);
    BreakRun(s, 0, i, c);
    var l := lines[0];
    assert s[i..] == PrintLine(l) + (PrintLines(lines[1..]) + rest);
    assert s[i] == s[i..][0] == l.key[0];
    var atKey := c.(state := KEY, keyStart := i, lineBegin := i);
    assert Scan(s, i, c) == Scan(s, i + 1, atKey);
    k, next := PrintedLineRun(s, i, l, PrintLines(lines[1..]) + rest, atKey);
    k, next := LinesReach(s, k, next, lines[1..], rest);
  }

  /** A block that is cut later, between two lines or in one: its whole lines are in the headers,
      the LF of the last of them and the beginning of the next are kept. */
  lemma LaterLineIsKept(skip: string, lines: seq<Line>, l: Line, n: nat, headers: HeaderMap)
    requires ValidBlock(skip, lines) && ValidLine(l) && l.key[0] != CR && n < |PrintLine(l)|
    ensures var part := PrintLine(l)[..n];
            Parse(skip + PrintLines(lines) + part, START, headers)
              == ParseResult(HeaderAgain, "\n" + part,
                             if n == 0 then AFTER_LF else StateAt(l, n), Fold(headers, lines))
  {
    var part := PrintLine(l)[..n];
    var s := skip + PrintLines(lines) + part;
    var k, next := BlockReach(skip, lines, part, headers);
    assert s[k - 1..] == [s[k - 1]] + s[k..] == "\n" + part;
    if n > 0 {
      assert s[k] == s[k..][0] == l.key[0];
      var atKey := next.(state := KEY, keyStart := k);
      assert Scan(s, k, next) == Scan(s, k + 1, atKey);
      CutLine(s, k, l, n, atKey);
    }
  }

  /** A block that is cut in its empty line. */
  lemma EmptyLineIsKept(skip: string, lines: seq<Line>, headers: HeaderMap)
    requires ValidBlock(skip, lines)
    ensures Parse(skip + PrintLines(lines) + "\r", START, headers)
         == ParseResult(HeaderAgain, "\n\r", END_CR, Fold(headers, lines))
  {
    var s := skip + PrintLines(lines) + "\r";
    var k, next := BlockReach(skip, lines, "\r", headers);
    assert s[k] == s[k..][0];
    assert s[k - 1..] == [s[k - 1]] + s[k..] == "\n\r";
    assert Scan(s, k, next) == Scan(s, k + 1, next.(state := END_CR));
  }

  // ---------------------------------------------------------------- the three verdicts

  lemma {:induction false} ErrorIsFinal(s: string, ext: string, i: nat, c: Cursor)
    requires i <= |s| && c.lineBegin <= i && Scan(s, i, c).verdict == HeaderError
    ensures Scan(s + ext, i, c).verdict == HeaderError
    decreases |s| - i
  {
    if i < |s| {
      StepIsLocal(s, ext, i, c);
      var m := Step(s, i, c);
      if m.Continue? { ErrorIsFinal(s, ext, i + 1, m.next); }
    }
  }

  /** Something is still missing to a block. */
  ghost predicate Begins(s: string, skip: string, lines: seq<Line>, rest: string) {
    ValidBlock(skip, lines) && rest != "" && s + rest == PrintBlock(skip, lines)
  }

  lemma BlockEnds(skip: string, lines: seq<Line>)
    requires ValidBlock(skip, lines)
    ensures var s := PrintBlock(skip, lines);
            |s| >= 2 && s[|s| - 2] == CR && s[|s| - 1] == LF
  {
  }

  /** What has begun but not ended a block is waited for. */
  lemma BeginningWaits(s: string, skip: string, lines: seq<Line>, rest: string, headers: HeaderMap)
    requires Begins(s, skip, lines, rest)
    ensures Parse(s, START, headers).verdict == HeaderAgain
  {
    var c := Fresh(START, headers);
    BlockIsAccepted(skip, lines, "", headers);
    assert PrintBlock(skip, lines) + "" == s + rest;
    FreshParseIsDefined(s, headers);
    if Parse(s, START, headers).verdict == HeaderError {
      ErrorIsFinal(s, rest, 0, c);
    } else if Parse(s, START, headers).verdict == HeaderSuccess {
      var skip1, lines1, tail := SuccessIsBlock(s, headers);
      assert s + rest == PrintBlock(skip1, lines1) + (tail + rest);
      BlockIsAccepted(skip1, lines1, tail + rest, headers);
      BlockEnds(skip, lines);
      BlockEnds(skip1, lines1);
      assert false;
    }
  }

  /** What is waited for can be ended. */
  lemma WaitingBegins(s: string, headers: HeaderMap)
      returns (skip: string, lines: seq<Line>, rest: string)
    requires Parse(s, START, headers).verdict == HeaderAgain
    ensures Begins(s, skip, lines, rest)
  {
    if AllBreaks(s) {
      skip, lines := s, [Line("k", "v")];
      rest := PrintLines(lines) + "\r\n";
      assert s + rest == PrintBlock(skip, lines);
    } else {
      rest := ResumeDiffers(s, headers);
      var tail;
      skip, lines, tail := SuccessIsBlock(s + rest, headers);
      BlockIsAccepted(skip, lines, tail, headers);
      BlockEnds(skip, lines);
      assert tail == "";
      assert PrintBlock(skip, lines) + tail == PrintBlock(skip, lines);
    }
  }

  /** A fresh parse succeeds exactly with a block in front, waits exactly while the beginning of
      a block is all there is, and fails exactly on everything else. */
  lemma ThreeVerdicts(s: string, headers: HeaderMap)
    ensures var v := Parse(s, START, headers).verdict;
            var whole := exists skip, lines, tail ::
              ValidBlock(skip, lines) && s == PrintBlock(skip, lines) + tail;
            var begun := exists skip, lines, rest :: Begins(s, skip, lines, rest);
            && (v == HeaderSuccess <==> whole) && (v == HeaderAgain <==> begun)
            && (v == HeaderError <==> !whole && !begun)
  {
    HeaderLanguage(s, headers);
    FreshParseIsDefined(s, headers);
    if Parse(s, START, headers).verdict == HeaderAgain {
      var skip, lines, rest := WaitingBegins(s, headers);
    }
    forall skip, lines, rest | Begins(s, skip, lines, rest)
      ensures Parse(s, START, headers).verdict == HeaderAgain
    {
      BeginningWaits(s, skip, lines, rest, headers);
    }
  }

  // ---------------------------------------------------------------- any number of reads

  /** One more read: it is parsed while the parser waits, and only buffered afterwards. */
  function ReadOne(r: ParseResult, chunk: string): ParseResult {
    var buffer := r.buffer + chunk;
    if r.verdict == HeaderAgain then Parse(buffer, r.state, r.headers) else r.(buffer := buffer)
  }

  function ReadOn(r: ParseResult, chunks: seq<string>): ParseResult
    decreases |chunks|
  {
    if chunks == [] then r else ReadOn(ReadOne(r, chunks[0]), chunks[1..])
  }

  function ParseReads(chunks: seq<string>, headers: HeaderMap): ParseResult {
    ReadOn(ParseResult(HeaderAgain, "", START, headers), chunks)
  }

  lemma {:induction false} ReadOnAppend(r: ParseResult, a: seq<string>, b: seq<string>)
    ensures ReadOn(r, a + b) == ReadOn(ReadOn(r, a), b)
    decreases |a|
  {
    if a == [] {
      assert a + b == b;
    } else {
      assert (a + b)[1..] == a[1..] + b;
      ReadOnAppend(ReadOne(r, a[0]), a[1..], b);
    }
  }

  lemma {:induction false} DecidedBuffers(r: ParseResult, chunks: seq<string>)
    requires r.verdict != HeaderAgain
    ensures ReadOn(r, chunks) == r.(buffer := r.buffer + Concat(chunks))
    decreases |chunks|
  {
    if chunks != [] { DecidedBuffers(r.(buffer := r.buffer + chunks[0]), chunks[1..]); }
  }

  lemma {:induction false} BreaksWait(r: ParseResult, chunks: seq<string>)
    requires r.verdict == HeaderAgain && r.state == START && AllBreaks(r.buffer + Concat(chunks))
    ensures ReadOn(r, chunks) == r.(buffer := r.buffer + Concat(chunks))
    decreases |chunks|
  {
    if chunks != [] {
      var buffer := r.buffer + chunks[0];
      assert r.buffer + Concat(chunks) == buffer + Concat(chunks[1..]);
      forall m | 0 <= m < |buffer| ensures IsBreak(buffer[m]) {
        assert buffer[m] == (r.buffer + Concat(chunks))[m];
      }
      BreakRun(buffer, 0, |buffer|, Fresh(START, r.headers));
      BreaksWait(r.(buffer := buffer), chunks[1..]);
    }
  }

  /** Reads that bring nothing but breaks leave the next one to be parsed with all of them. */
  lemma BreaksThenRead(before: seq<string>, last: string, after: seq<string>, headers: HeaderMap)
    requires AllBreaks(Concat(before))
    ensures ParseReads(before + [last] + after, headers)
         == ReadOn(Parse(Concat(before) + last, START, headers), after)
    ensures Concat(before + [last] + after) == Concat(before) + last + Concat(after)
  {
    hide Parse;
    var r := ParseResult(HeaderAgain, "", START, headers);
    var waiting := r.(buffer := Concat(before));
    assert "" + Concat(before) == Concat(before);
    BreaksWait(r, before);
    assert ([last] + after)[0] == last && ([last] + after)[1..] == after;
    assert before + [last] + after == before + ([last] + after);
    ReadOnAppend(r, before, [last] + after);
    assert ReadOn(waiting, [last] + after) == ReadOn(ReadOne(waiting, last), after);
    ConcatAppend(before, [last] + after);
  }

  /** However some input was divided among earlier reads, one more read gives the answer of the
      whole. */
  ghost predicate AnyReadsAgree(s: string, headers: HeaderMap) {
    forall chunks, ext | Concat(chunks) == s ::
      ParseReads(chunks + [ext], headers) == Parse(s + ext, START, headers)
  }

  /** Header parsing does not depend on how many reads brought the input and where they split it,
      whatever is read next, exactly when they ended before the first key: anywhere else the
      state is kept but the offsets are lost and the buffer is rewound, and then already one split
      can change the answer. */
  lemma SplitReadsAgree(s: string, headers: HeaderMap)
    requires Parse(s, START, headers).verdict == HeaderAgain
    ensures (forall ext :: Resume(s, ext, headers) == Parse(s + ext, START, headers))
       <==> AllBreaks(s)
    ensures AnyReadsAgree(s, headers) <==> AllBreaks(s)
  {
    if AllBreaks(s) {
      BreakRun(s, 0, |s|, Fresh(START, headers));
      forall chunks, ext | Concat(chunks) == s
        ensures ParseReads(chunks + [ext], headers) == Parse(s + ext, START, headers)
      {
        BreaksThenRead(chunks, ext, [], headers);
        assert chunks + [ext] + [] == chunks + [ext];
      }
    } else {
      var ext := ResumeDiffers(s, headers);
      BreaksThenRead([], s, [ext], headers);
      assert "" + s == s && Concat([s]) == s && [] + [s] + [ext] == [s] + [ext];
      assert [ext][1..] == [];
      assert ParseReads([s] + [ext], headers) == Resume(s, ext, headers);
    }
  }

  /** A block that arrives in one read, behind breaks, is accepted like in one buffer; what
      follows it in later reads is then left over as from one buffer exactly when the reads do
      not part right behind the empty line, where the byte to be dropped is not there yet. */
  lemma BlockInOneRead(before: seq<string>, last: string, after: seq<string>,
                       skip: string, lines: seq<Line>, tail: string, headers: HeaderMap)
    requires AllBreaks(Concat(before)) && ValidBlock(skip, lines)
    requires Concat(before) + last == PrintBlock(skip, lines) + tail
    ensures ParseReads(before + [last] + after, headers)
         == Parse(Concat(before + [last] + after), START, headers)
       <==> tail != "" || Concat(after) == ""
  {
    BreaksThenRead(before, last, after, headers);
    BlockIsAccepted(skip, lines, tail, headers);
    DecidedBuffers(Parse(Concat(before) + last, START, headers), after);
    BlockIsAccepted(skip, lines, tail + Concat(after), headers);
    assert Concat(before) + last + Concat(after)
        == PrintBlock(skip, lines) + (tail + Concat(after));
    if tail != "" {
      assert (tail + Concat(after))[1..] == tail[1..] + Concat(after);
    }
  }
}
