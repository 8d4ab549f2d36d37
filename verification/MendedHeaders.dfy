/** The header parser as it is meant (src/Server/Http.h:31-41, src/Server/Http.cpp:76): it stops
    right behind the empty line, and when the input runs out it rewinds the state together with
    the buffer, to the start of the line that is cut. This is not what the code does. After an
    error the buffer does not matter any more. */
module MendedHeaders {
  import opened Text
  import opened HeaderLines

  /** The switch is the one of the code; a line that is committed is left behind with its
      offsets, and the line begin is put behind its LF. */
  function MendedStep(s: string, i: nat, c: Cursor): Move
    requires i < |s|
  {
    var m := Step(s, i, c);
    if c.state == AFTER_CR && m.Continue? then
      Continue(Fresh(AFTER_LF, m.next.headers).(lineBegin := i + 1))
    else m
  }

  /** `base` is the state to which a cut line is rewound. */
  function MendedScan(s: string, i: nat, c: Cursor, base: LineState): ParseResult
    requires i <= |s| && c.lineBegin <= i
    decreases |s| - i
  {
    if c.state == END_LF then ParseResult(HeaderSuccess, s[i..], END_LF, c.headers)
    else if i == |s| then ParseResult(HeaderAgain, s[c.lineBegin..], base, c.headers)
    else
      match MendedStep(s, i, c)
      case Continue(next) => MendedScan(s, i + 1, next, BaseAfter(c, base))
      case Finish(last) => ParseResult(HeaderSuccess, s[i..], last.state, last.headers)
      case Stop(verdict, at) => ParseResult(verdict, "", at.state, at.headers)
  }

  function BaseAfter(c: Cursor, base: LineState): LineState {
    if c.state == AFTER_CR then AFTER_LF else base
  }

  function Mended(s: string, state: LineState, headers: HeaderMap): ParseResult {
    MendedScan(s, 0, Fresh(state, headers), state)
  }

  // ---------------------------------------------------------------- the same parser, repaired

  /** Cursors on a buffer and on the buffer without its first `k` characters that agree in all
      that still counts. */
  predicate Alike(c: Cursor, d: Cursor, k: nat) {
    && c.state == d.state && c.headers == d.headers
    && (c.state in {KEY, COLON, SPACES_AFTER_COLON, VALUE, AFTER_CR} ==>
          k <= c.keyStart && d.keyStart == c.keyStart - k)
    && (c.state in {COLON, SPACES_AFTER_COLON, VALUE, AFTER_CR} ==>
          k <= c.keyEnd && d.keyEnd == c.keyEnd - k)
    && (c.state in {VALUE, AFTER_CR} ==>
          k <= c.valueStart && d.valueStart == c.valueStart - k)
    && (c.state == AFTER_CR ==> k <= c.valueEnd && d.valueEnd == c.valueEnd - k)
  }

  lemma StepsAlike(s: string, i: nat, c: Cursor, d: Cursor, k: nat)
    requires k <= i < |s| && Alike(c, d, k) && c.state != END_LF
    ensures var m, n := Step(s, i, c), Step(s[k..], i - k, d);
            && (m.Continue? <==> n.Continue?) && (m.Stop? <==> n.Stop?)
            && (m.Continue? ==> Alike(m.next, n.next, k))
            && (m.Stop? ==> m.verdict == n.verdict && m.at.headers == n.at.headers
                            && m.at.state == n.at.state)
  {
    assert s[i] == s[k..][i - k];
    if c.state == AFTER_CR && Committable(c, i) {
      assert s[c.keyStart..c.keyEnd] == s[k..][d.keyStart..d.keyEnd];
      assert s[c.valueStart..c.valueEnd] == s[k..][d.valueStart..d.valueEnd];
    }
  }

  /** On one buffer the repaired parser gives the verdict and the headers of the code, and behind
      a block it leaves what follows whole, where the code drops a byte of it. */
  lemma MendedIsParse(s: string, headers: HeaderMap)
    ensures var m, r := Mended(s, START, headers), Parse(s, START, headers);
            && m.verdict == r.verdict && m.headers == r.headers
            && (m.verdict == HeaderSuccess ==> r.buffer == AfterBlock(m.buffer))
  {
    MendedScanIsScan(s, 0, Fresh(START, headers), Fresh(START, headers), START);
  }

  lemma {:induction false} MendedScanIsScan(s: string, i: nat, c: Cursor, d: Cursor,
                                            base: LineState)
    requires i <= |s| && c.lineBegin <= i && d.lineBegin <= i && Alike(c, d, 0)
    ensures var m, r := MendedScan(s, i, c, base), Scan(s, i, d);
            && m.verdict == r.verdict && m.headers == r.headers
            && (m.verdict == HeaderSuccess ==> r.buffer == AfterBlock(m.buffer))
    decreases |s| - i
  {
    if c.state != END_LF && i < |s| {
      assert s[0..] == s;
      StepsAlike(s, i, c, d, 0);
      var m := MendedStep(s, i, c);
      if m.Continue? {
        MendedScanIsScan(s, i + 1, m.next, Step(s, i, d).next, BaseAfter(c, base));
      }
    }
  }

  // ---------------------------------------------------------------- any division into reads

  lemma MendedStepsAlike(s: string, i: nat, c: Cursor, d: Cursor, k: nat)
    requires k <= c.lineBegin <= i < |s| && d.lineBegin == c.lineBegin - k && Alike(c, d, k)
    requires c.state != END_LF
    ensures var m, n := MendedStep(s, i, c), MendedStep(s[k..], i - k, d);
            && !m.Finish? && !n.Finish? && (m.Continue? <==> n.Continue?)
            && (m.Continue? ==>
                  && Alike(m.next, n.next, k) && n.next.lineBegin == m.next.lineBegin - k
                  && k <= m.next.lineBegin <= i + 1)
            && (m.Stop? ==> m.verdict == n.verdict && m.at.headers == n.at.headers
                            && m.at.state == n.at.state)
  {
    StepsAlike(s, i, c, d, k);
  }

  /** A scan only depends on the bytes from the line begin on. */
  lemma {:induction false} ScansAlike(s: string, i: nat, c: Cursor, d: Cursor, k: nat,
                                      base: LineState)
    requires k <= c.lineBegin <= i <= |s| && d.lineBegin == c.lineBegin - k && Alike(c, d, k)
    ensures MendedScan(s, i, c, base) == MendedScan(s[k..], i - k, d, base)
    decreases |s| - i
  {
    hide MendedStep;
    if c.state == END_LF || i == |s| {
      assert s[i..] == s[k..][i - k..] && s[c.lineBegin..] == s[k..][d.lineBegin..];
    } else {
      MendedStepsAlike(s, i, c, d, k);
      var m, n := MendedStep(s, i, c), MendedStep(s[k..], i - k, d);
      if m.Continue? {
        ScansAlike(s, i + 1, m.next, n.next, k, BaseAfter(c, base));
      }
    }
  }

  /** The cursor at the line begin to which a scan can be rewound. */
  function Anchor(c: Cursor, base: LineState): Cursor {
    Fresh(base, c.headers).(lineBegin := c.lineBegin)
  }

  /** Scanning again from the line begin makes no difference. */
  predicate Rewindable(s: string, i: nat, c: Cursor, base: LineState)
    requires i <= |s|
  {
    && c.lineBegin <= i && base in {START, AFTER_LF}
    && (c.state == START ==> c == Fresh(START, c.headers) && base == START)
    && MendedScan(s, c.lineBegin, Anchor(c, base), base) == MendedScan(s, i, c, base)
  }

  lemma StepKeepsRewindable(s: string, i: nat, c: Cursor, base: LineState)
    requires i < |s| && c.state != END_LF && Rewindable(s, i, c, base)
    ensures var m := MendedStep(s, i, c);
            m.Continue? ==> Rewindable(s, i + 1, m.next, BaseAfter(c, base))
  {
    var m := MendedStep(s, i, c);
    if m.Continue? && c.state == START && m.next.state == KEY {
      var again := Anchor(m.next, START);
      assert MendedStep(s, i, again) == m;
      assert MendedScan(s, i, again, START) == MendedScan(s, i + 1, m.next, START);
    }
  }

  /** What a scan that waits would do with more input, it does from the line begin as well; one
      that does not wait is not changed. */
  lemma {:induction false} MoreInput(s: string, ext: string, i: nat, c: Cursor, base: LineState)
    requires i <= |s| && Rewindable(s + ext, i, c, base)
    ensures var r, all := MendedScan(s, i, c, base), MendedScan(s + ext, i, c, base);
            if r.verdict == HeaderAgain then all == Mended(r.buffer + ext, r.state, r.headers)
            else if r.verdict == HeaderSuccess then all == r.(buffer := r.buffer + ext)
            else all == r
    decreases |s| - i
  {
    hide MendedStep;
    if c.state == END_LF {
      assert (s + ext)[i..] == s[i..] + ext;
    } else if i == |s| {
      var k := c.lineBegin;
      assert (s + ext)[k..] == s[k..] + ext;
      ScansAlike(s + ext, k, Anchor(c, base), Fresh(base, c.headers), k, base);
    } else {
      SameStep(s, ext, i, c);
      StepKeepsRewindable(s + ext, i, c, base);
      var m := MendedStep(s, i, c);
      if m.Continue? { MoreInput(s, ext, i + 1, m.next, BaseAfter(c, base)); }
    }
  }

  lemma SameStep(s: string, ext: string, i: nat, c: Cursor)
    requires i < |s|
    ensures MendedStep(s + ext, i, c) == MendedStep(s, i, c)
    ensures var m := MendedStep(s, i, c);
            && (c.state != END_LF ==> !m.Finish?)
            && (m.Stop? ==> m.verdict in {HeaderError, HeaderUndefined})
  {
    StepIsLocal(s, ext, i, c);
  }

  function MendedReadOn(r: ParseResult, chunks: seq<string>): ParseResult
    decreases |chunks|
  {
    if chunks == [] then r
    else
      var next := if r.verdict == HeaderAgain then Mended(r.buffer + chunks[0], r.state, r.headers)
                  else if r.verdict == HeaderSuccess then r.(buffer := r.buffer + chunks[0])
                  else r;
      MendedReadOn(next, chunks[1..])
  }

  function MendedReads(chunks: seq<string>, headers: HeaderMap): ParseResult {
    MendedReadOn(ParseResult(HeaderAgain, "", START, headers), chunks)
  }

  /** The repaired parser does not depend on how the input is divided into reads: verdict,
      headers, state and what is left are those of one buffer. */
  lemma ReadsDoNotMatter(chunks: seq<string>, headers: HeaderMap)
    ensures MendedReads(chunks, headers) == Mended(Concat(chunks), START, headers)
  {
    ReadsAdd("", chunks, headers);
    assert "" + Concat(chunks) == Concat(chunks);
  }

  lemma {:induction false} ReadsAdd(s: string, chunks: seq<string>, headers: HeaderMap)
    ensures MendedReadOn(Mended(s, START, headers), chunks)
         == Mended(s + Concat(chunks), START, headers)
    decreases |chunks|
  {
    if chunks == [] {
      assert s + "" == s;
    } else {
      MoreInput(s, chunks[0], 0, Fresh(START, headers), START);
      ReadsAdd(s + chunks[0], chunks[1..], headers);
      assert s + chunks[0] + Concat(chunks[1..]) == s + Concat(chunks);
    }
  }
}
