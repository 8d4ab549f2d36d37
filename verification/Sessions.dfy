/** What a connection makes of its input (src/Server/Http.cpp:74-179): the rounds of reading as a
    machine on values, and what it means for a request to be split between two reads. */
module Sessions {
  import opened Text
  import opened Utils
  import RL = RequestLine
  import HL = HeaderLines

  datatype ProcessState = PARSE_URI | PARSE_HEADER | PARSE_BODY | PROCESS | FINISH

  /** A request that was answered and the bytes of its answer. */
  datatype Exchange = Exchange(fields: RL.Fields, headers: HL.HeaderMap, response: string)

  /** What the parser of a connection has to go on. */
  datatype Parser = Parser(
    state: ProcessState, lineState: HL.LineState, headers: HL.HeaderMap, fields: RL.Fields,
    buffer: string)

  /** One call of `ReadFromFd`: the bytes it appended, whether it met the end of the input, and
      whether it failed. */
  datatype Round = Round(bytes: string, ended: bool, failed: bool)

  datatype Phase = OPEN | ENDED | FAILED

  /** A connection as far as its input and its answers are concerned. */
  datatype Session = Session(parser: Parser, phase: Phase, log: seq<Exchange>)

  const NEW_FIELDS := RL.Fields(RL.GET, "", RL.HTTP_11)
  const NEW_SESSION := Session(Parser(PARSE_URI, HL.START, map[], NEW_FIELDS, ""), OPEN, [])

  // ---------------------------------------------------------------- one round

  /** More input arrives. */
  function Fed(p: Parser, input: string): Parser { p.(buffer := p.buffer + input) }

  /** The request line in front, unless it was parsed before. */
  function LineOf(p: Parser): RL.UriResult {
    match p.state
    case PARSE_URI => RL.ParseUri(p.buffer, RL.TERMINATOR, p.fields)
    case PARSE_HEADER => RL.UriResult(RL.UriSuccess, p.buffer, p.fields)
    case _ => RL.UriResult(RL.UriAgain, p.buffer, p.fields)
  }

  function BlockOf(p: Parser): HL.ParseResult {
    HL.Parse(LineOf(p).buffer, p.lineState, p.headers)
  }

  /** A whole request is in front. */
  predicate Whole(p: Parser) {
    LineOf(p).verdict == RL.UriSuccess && BlockOf(p).verdict == HL.HeaderSuccess
  }

  /** A request line is in front, and then undefined behaviour. */
  predicate Astray(p: Parser) {
    LineOf(p).verdict == RL.UriSuccess && BlockOf(p).verdict == HL.HeaderUndefined
  }

  /** The GET request in front is taken and `rest` is left; only the line is known of a request
      that undefined behaviour takes. */
  predicate Takes(p: Parser, e: Exchange, rest: string) {
    && e.fields == LineOf(p).fields && e.fields.verb == RL.GET
    && (Astray(p)
        || (Whole(p) && e.headers == BlockOf(p).headers && rest == BlockOf(p).buffer))
  }

  /** The parser waits as `q` for what comes next: everything read is kept as it is while the
      request line is incomplete, and as the header loop leaves it after that. A POST request
      waits for ever. */
  predicate Waits(p: Parser, q: Parser) {
    var line, block := LineOf(p), BlockOf(p);
    match line.verdict
    case UriAgain => q == p
    case UriError => false
    case UriSuccess =>
      q.fields == line.fields &&
      match block.verdict
      case HeaderAgain =>
        q == Parser(PARSE_HEADER, block.state, block.headers, line.fields, block.buffer)
      case HeaderSuccess =>
        && line.fields.verb == RL.POST
        && q == Parser(PARSE_BODY, block.state, block.headers, line.fields, block.buffer)
      case HeaderUndefined => q.state in {PARSE_HEADER, PARSE_BODY}
      case HeaderError => false
  }

  /** The request is bad, or strays, or is a GET request, which the file system may refuse. */
  predicate MayFail(p: Parser) {
    var line := LineOf(p);
    || line.verdict == RL.UriError || Astray(p)
    || (line.verdict == RL.UriSuccess && BlockOf(p).verdict == HL.HeaderError)
    || (Whole(p) && line.fields.verb == RL.GET)
  }

  // What a parse of the block behind a line comes to; undefined behaviour may be any of it.

  lemma BlockWaits(p: Parser, q: Parser)
    requires p.state == PARSE_HEADER && q.state in {PARSE_HEADER, PARSE_BODY}
    requires q.fields == p.fields
    requires q.state == PARSE_BODY ==> p.fields.verb == RL.POST
    requires var r := HL.Parse(p.buffer, p.lineState, p.headers);
             var v := if q.state == PARSE_HEADER then HL.HeaderAgain else HL.HeaderSuccess;
             r.verdict == HL.HeaderUndefined
             || r == HL.ParseResult(v, q.buffer, q.lineState, q.headers)
    ensures Waits(p, q)
  {
  }

  lemma BlockFails(p: Parser)
    requires p.state == PARSE_HEADER
    requires var v := HL.Parse(p.buffer, p.lineState, p.headers).verdict;
             v in {HL.HeaderUndefined, HL.HeaderError}
             || (v == HL.HeaderSuccess && p.fields.verb == RL.GET)
    ensures MayFail(p)
  {
  }

  lemma BlockTaken(p: Parser, e: Exchange, rest: string)
    requires p.state == PARSE_HEADER && e.fields == p.fields && p.fields.verb == RL.GET
    requires var r := HL.Parse(p.buffer, p.lineState, p.headers);
             r.verdict == HL.HeaderUndefined
             || (r.verdict == HL.HeaderSuccess && r.buffer == rest && r.headers == e.headers)
    ensures Takes(p, e, rest)
  {
  }

  /** A connection that has answered starts over on what is left. */
  function StartOver(fields: RL.Fields, rest: string): Parser {
    Parser(PARSE_URI, HL.START, map[], fields.(path := ""), rest)
  }

  /** The request in front of `p` is answered. */
  predicate Answers(p: Parser, log: seq<Exchange>, t: Session) {
    && |t.log| == |log| + 1
    && var e := t.log[|log|];
       t.log == log + [e] && Takes(p, e, t.parser.buffer)
       && t.parser == StartOver(e.fields, t.parser.buffer)
  }

  /** The parser goes over its buffer once. */
  predicate Parses(p: Parser, phase: Phase, log: seq<Exchange>, t: Session) {
    || (t.phase == FAILED && t.log == log && MayFail(p))
    || (t.phase == phase && t.log == log && Waits(p, t.parser))
    || (t.phase == phase && Answers(p, log, t))
  }

  lemma LineWaits(p: Parser, phase: Phase, log: seq<Exchange>)
    requires LineOf(p).verdict == RL.UriAgain
    ensures Parses(p, phase, log, Session(p, phase, log))
  {
  }

  lemma LineFails(p: Parser, phase: Phase, log: seq<Exchange>, t: Session)
    requires LineOf(p).verdict == RL.UriError && t.phase == FAILED && t.log == log
    ensures Parses(p, phase, log, t)
  {
  }

  /** One round. After the end of the input everything buffered is thrown away; the end without
      bytes leaves even a whole request as it is. */
  predicate Step(s: Session, r: Round, t: Session) {
    match s.phase
    case FAILED => false
    case ENDED => t == s.(parser := s.parser.(buffer := ""))
    case OPEN =>
      if r.failed then t.phase == FAILED && t.log == s.log
      else if r.ended && r.bytes == "" then t == s.(phase := ENDED)
      else Parses(Fed(s.parser, r.bytes), if r.ended then ENDED else OPEN, s.log, t)
  }

  lemma RoundWithoutParse(s: Session, r: Round, t: Session)
    requires match s.phase
             case FAILED => false
             case ENDED => t == s.(parser := s.parser.(buffer := ""))
             case OPEN =>
               if r.failed then t.phase == FAILED && t.log == s.log
               else r.ended && r.bytes == "" && t == s.(phase := ENDED)
    ensures Step(s, r, t)
  {
  }

  lemma RoundWithParse(s: Session, r: Round, t: Session)
    requires s.phase == OPEN && !r.failed && !(r.ended && r.bytes == "")
    requires Parses(Fed(s.parser, r.bytes), if r.ended then ENDED else OPEN, s.log, t)
    ensures Step(s, r, t)
  {
  }

  // ---------------------------------------------------------------- rounds

  /** After an answer there is another round at once, unless the buffer is empty or the input
      has ended. */
  predicate Continues(s: Session, t: Session) {
    t.log != s.log && t.phase == OPEN && t.parser.buffer != ""
  }

  /** Everything that was read has been answered, and something was. */
  predicate AllServed(s: Session, t: Session) {
    t.log != s.log && t.parser.state == PARSE_URI && t.parser.buffer == ""
  }

  /** A header that asks for the connection to be kept. */
  predicate KeepsAlive(headers: HL.HeaderMap) {
    "Connection" in headers && headers["Connection"] in {"Keep-Alive", "keep-alive"}
  }

  predicate AnyKeepsAlive(log: seq<Exchange>) { exists e :: e in log && KeepsAlive(e.headers) }

  /** The rounds of one read event. */
  ghost predicate Serves(s: Session, rounds: seq<Round>, t: Session)
    decreases |rounds|
  {
    && rounds != []
    && exists m :: Step(s, rounds[0], m) &&
         if Continues(s, m) then Serves(m, rounds[1..], t) else |rounds| == 1 && t == m
  }

  /** Any rounds. */
  ghost predicate Runs(s: Session, rounds: seq<Round>, t: Session)
    decreases |rounds|
  {
    if rounds == [] then t == s
    else exists m :: Step(s, rounds[0], m) && Runs(m, rounds[1..], t)
  }

  predicate Ended(rounds: seq<Round>) { exists r :: r in rounds && r.ended }

  /** All bytes of the rounds. */
  function Bytes(rounds: seq<Round>): string
    decreases |rounds|
  {
    if rounds == [] then "" else rounds[0].bytes + Bytes(rounds[1..])
  }

  /** What ended a round of reading. */
  function StopOf(r: Round): ReadOutcome {
    if r.failed then ReadFailed else if r.ended then EndOfFile else ReadAgain
  }

  function Stops(rounds: seq<Round>): seq<ReadOutcome> {
    seq(|rounds|, i requires 0 <= i < |rounds| => StopOf(rounds[i]))
  }

  lemma StopsAppend(a: seq<Round>, b: seq<Round>)
    ensures Stops(a + b) == Stops(a) + Stops(b)
  {
  }

  lemma {:induction false} BytesAppend(a: seq<Round>, b: seq<Round>)
    ensures Bytes(a + b) == Bytes(a) + Bytes(b)
    decreases |a|
  {
    if a == [] {
      assert a + b == b;
    } else {
      assert (a + b)[1..] == a[1..] + b;
      BytesAppend(a[1..], b);
    }
  }

  /** A round and the rounds that follow it are those of one event, on the bytes of all. */
  lemma ServesMore(s: Session, r: Round, m: Session, rounds: seq<Round>, t: Session, rest: string)
    requires Step(s, r, m)
    requires if Continues(s, m) then Serves(m, rounds, t) else rounds == [] && t == m
    ensures Serves(s, [r] + rounds, t)
    ensures Bytes([r] + rounds) + rest == r.bytes + (Bytes(rounds) + rest)
    ensures rounds == [] ==> Bytes(rounds) + rest == rest
  {
    hide Step;
    var all := [r] + rounds;
    assert all[0] == r && all[1..] == rounds;
  }

  lemma {:induction false} ServesRuns(s: Session, rounds: seq<Round>, t: Session)
    requires Serves(s, rounds, t)
    ensures Runs(s, rounds, t)
    decreases |rounds|
  {
    hide Step;
    var m :| Step(s, rounds[0], m) &&
      if Continues(s, m) then Serves(m, rounds[1..], t) else |rounds| == 1 && t == m;
    if Continues(s, m) {
      ServesRuns(m, rounds[1..], t);
    } else {
      assert rounds[1..] == [];
    }
  }

  lemma {:induction false} RunsOn(s: Session, a: seq<Round>, m: Session, b: seq<Round>, t: Session)
    requires Runs(s, a, m) && Runs(m, b, t)
    ensures Runs(s, a + b, t)
    decreases |a|
  {
    hide Step;
    if a == [] {
      assert a + b == b;
    } else {
      var n :| Step(s, a[0], n) && Runs(n, a[1..], m);
      assert (a + b)[0] == a[0] && (a + b)[1..] == a[1..] + b;
      RunsOn(n, a[1..], m, b, t);
    }
  }

  /** Once the input has ended, or the connection has failed, nothing is answered. */
  lemma {:induction false} EndedAnswersNothing(s: Session, rounds: seq<Round>, t: Session)
    requires Runs(s, rounds, t) && s.phase != OPEN
    ensures t.log == s.log && t.phase == s.phase
    decreases |rounds|
  {
    if rounds != [] {
      var m :| Step(s, rounds[0], m) && Runs(m, rounds[1..], t);
      EndedAnswersNothing(m, rounds[1..], t);
    }
  }

  // ---------------------------------------------------------------- requests that arrive whole

  /** A request line in front is known by what it asks for. */
  lemma LineIsKnown(p: Parser, line: string, rest: string, g: RL.Fields)
    requires p.state == PARSE_URI && RL.TERMINATOR !in line
    requires p.buffer == line + [RL.TERMINATOR] + rest
    ensures LineOf(p) == RL.UriResult(RL.UriSuccess, rest, g) <==> RL.AsksFor(line, g)
  {
    RL.UriMeaning(line, RL.TERMINATOR, rest, p.fields, g);
  }

  /** A parser that has just been started over. */
  predicate Fresh(p: Parser) {
    p.state == PARSE_URI && p.lineState == HL.START && p.headers == map[]
  }

  /** A buffer with a request line and a whole header block in front. */
  ghost predicate Request(buffer: string, line: string, g: RL.Fields, skip: string,
                          lines: seq<HL.Line>, tail: string)
  {
    && RL.TERMINATOR !in line && RL.AsksFor(line, g) && HL.ValidBlock(skip, lines)
    && buffer == line + [RL.TERMINATOR] + (HL.PrintBlock(skip, lines) + tail)
  }

  /** An answer to such a request. */
  predicate AnswerTo(g: RL.Fields, lines: seq<HL.Line>, tail: string, e: Exchange, rest: string) {
    && g.verb == RL.GET && e.fields == g && e.headers == HL.Fold(map[], lines)
    && rest == HL.AfterBlock(tail)
  }

  /** A whole GET request is answered with its own fields and headers, and nothing else than a
      refusal by the file system can happen to it. */
  lemma WholeIsAnswered(p: Parser, phase: Phase, log: seq<Exchange>, t: Session, line: string,
                        g: RL.Fields, skip: string, lines: seq<HL.Line>, tail: string)
    requires Fresh(p) && phase != FAILED && Request(p.buffer, line, g, skip, lines, tail)
    requires g.verb == RL.GET
    ensures Parses(p, phase, log, t) <==>
      || (t.phase == FAILED && t.log == log)
      || (t.phase == phase && |t.log| == |log| + 1 && t.log == log + [t.log[|log|]]
          && AnswerTo(g, lines, tail, t.log[|log|], t.parser.buffer)
          && t.parser == StartOver(g, HL.AfterBlock(tail)))
  {
    LineIsKnown(p, line, HL.PrintBlock(skip, lines) + tail, g);
    HL.BlockIsAccepted(skip, lines, tail, map[]);
  }

  /** Whatever is answered is a whole GET request that stands in front. */
  lemma AnsweredIsWhole(p: Parser, phase: Phase, log: seq<Exchange>, t: Session)
      returns (line: string, g: RL.Fields, skip: string, lines: seq<HL.Line>, tail: string)
    requires Fresh(p) && phase != FAILED && Parses(p, phase, log, t) && t.log != log
    ensures Request(p.buffer, line, g, skip, lines, tail) && |t.log| == |log| + 1
    ensures AnswerTo(g, lines, tail, t.log[|log|], t.parser.buffer)
  {
    var pos := FindChar(p.buffer, RL.TERMINATOR, 0);
    line, g := p.buffer[..pos], LineOf(p).fields;
    var rest := p.buffer[pos + 1..];
    assert p.buffer == line + [RL.TERMINATOR] + rest;
    LineIsKnown(p, line, rest, g);
    HL.FreshParseIsDefined(rest, map[]);
    skip, lines, tail := HL.SuccessIsBlock(rest, map[]);
    HL.BlockIsAccepted(skip, lines, tail, map[]);
  }

  /** A request whose line is cut, or whose block has only begun, is waited for. */
  lemma BegunIsAwaited(p: Parser, phase: Phase, log: seq<Exchange>, t: Session)
    requires Fresh(p) && phase != FAILED && Parses(p, phase, log, t)
    ensures RL.TERMINATOR !in p.buffer ==> t == Session(p, phase, log)
    ensures forall line, g, begun, skip, lines, missing ::
      && RL.TERMINATOR !in line && p.buffer == line + [RL.TERMINATOR] + begun
      && RL.AsksFor(line, g) && HL.Begins(begun, skip, lines, missing)
      ==> t.phase == phase && t.log == log && t.parser.state == PARSE_HEADER
          && t.parser.fields == g
  {
    forall line, g, begun, skip, lines, missing |
      && RL.TERMINATOR !in line && p.buffer == line + [RL.TERMINATOR] + begun
      && RL.AsksFor(line, g) && HL.Begins(begun, skip, lines, missing)
      ensures t.phase == phase && t.log == log && t.parser.state == PARSE_HEADER
              && t.parser.fields == g
    {
      LineIsKnown(p, line, begun, g);
      HL.BeginningWaits(begun, skip, lines, missing, map[]);
    }
    RL.MoreInputIsAppended(p.buffer, "", RL.TERMINATOR, p.fields);
  }

  /** Bytes that neither have a block in front nor begin one. */
  ghost predicate NoBlock(s: string) {
    && (forall skip, lines, tail ::
          HL.ValidBlock(skip, lines) ==> s != HL.PrintBlock(skip, lines) + tail)
    && (forall skip, lines, missing :: !HL.Begins(s, skip, lines, missing))
  }

  /** A line that asks for nothing, or a block that is neither whole nor begun, is an error. */
  lemma BadIsRefused(p: Parser, phase: Phase, log: seq<Exchange>, t: Session, line: string,
                     rest: string)
    requires Fresh(p) && phase != FAILED && Parses(p, phase, log, t)
    requires RL.TERMINATOR !in line && p.buffer == line + [RL.TERMINATOR] + rest
    ensures (forall g :: !RL.AsksFor(line, g)) ==> t.phase == FAILED && t.log == log
    ensures NoBlock(rest) ==> t.phase == FAILED && t.log == log
  {
    var g := LineOf(p).fields;
    LineIsKnown(p, line, rest, g);
    LineInFront(p.buffer, line, rest, p.fields);
    HL.ThreeVerdicts(rest, map[]);
  }

  lemma LineInFront(s: string, line: string, rest: string, f: RL.Fields)
    requires RL.TERMINATOR !in line && s == line + [RL.TERMINATOR] + rest
    ensures RL.ParseUri(s, RL.TERMINATOR, f).buffer == rest
    ensures RL.ParseUri(s, RL.TERMINATOR, f).verdict != RL.UriAgain
  {
    forall j | 0 <= j < |line| ensures s[j] != RL.TERMINATOR {
      assert s[j] == line[j];
    }
    FirstIs(s, RL.TERMINATOR, 0, |line|);
    assert s[|line| + 1..] == rest;
  }

  /** A whole POST request is kept for its body, and nothing is ever answered any more. */
  lemma PostIsNeverAnswered(p: Parser, phase: Phase, log: seq<Exchange>, t: Session, line: string,
                            g: RL.Fields, skip: string, lines: seq<HL.Line>, tail: string)
    requires Fresh(p) && phase != FAILED && Parses(p, phase, log, t)
    requires Request(p.buffer, line, g, skip, lines, tail) && g.verb == RL.POST
    ensures t.phase == phase && t.log == log && t.parser.state == PARSE_BODY
    ensures forall input, later, u :: Parses(Fed(t.parser, input), later, log, u) ==>
      u == Session(Fed(t.parser, input), later, log)
  {
    LineIsKnown(p, line, HL.PrintBlock(skip, lines) + tail, g);
    HL.BlockIsAccepted(skip, lines, tail, map[]);
  }

  // ---------------------------------------------------------------- requests split between reads

  /** A parse that waits in its first state has seen nothing but breaks and kept them. */
  lemma WaitingAtStart(s: string, headers: HL.HeaderMap)
    requires HL.Parse(s, HL.START, headers).verdict == HL.HeaderAgain
    requires HL.Parse(s, HL.START, headers).state == HL.START
    ensures HL.Parse(s, HL.START, headers)
         == HL.ParseResult(HL.HeaderAgain, s, HL.START, headers)
  {
    var d := HL.AgainCursor(s, "", 0, HL.Fresh(HL.START, headers));
    HL.BreakRun(s, 0, |s|, HL.Fresh(HL.START, headers));
  }

  /** The header block of the request has not begun. */
  predicate BeforeBlock(p: Parser) {
    p.state in {PARSE_URI, PARSE_HEADER} && p.lineState == HL.START
  }

  lemma NotAllBreaks(s: string, headers: HL.HeaderMap)
    requires HL.Parse(s, HL.START, headers).state != HL.START
    ensures !HL.AllBreaks(s)
  {
    if HL.AllBreaks(s) { HL.BreakRun(s, 0, |s|, HL.Fresh(HL.START, headers)); }
  }

  /** What the parser knows when more arrives after it has waited in front of the block is what it
      would know if everything had come at once. */
  lemma RetryKnows(p: Parser, q: Parser, b: string)
    requires BeforeBlock(p) && Waits(p, q) && BeforeBlock(q)
    ensures LineOf(Fed(q, b)).verdict != RL.UriAgain || q == p
    ensures LineOf(Fed(q, b)) == LineOf(Fed(p, b)) && BlockOf(Fed(q, b)) == BlockOf(Fed(p, b))
  {
    HL.FreshParseIsDefined(LineOf(p).buffer, p.headers);
    if p.state == PARSE_URI { RL.MoreInputIsAppended(p.buffer, b, RL.TERMINATOR, p.fields); }
    if LineOf(p).verdict == RL.UriSuccess {
      WaitingAtStart(LineOf(p).buffer, p.headers);
    }
  }

  /** Only the line and the block count, and the rest while there is no line. */
  lemma ParsesAlike(p: Parser, q: Parser, phase: Phase, log: seq<Exchange>, t: Session)
    requires LineOf(p) == LineOf(q) && BlockOf(p) == BlockOf(q)
    requires LineOf(p).verdict == RL.UriAgain ==> p == q
    ensures Parses(p, phase, log, t) <==> Parses(q, phase, log, t)
  {
    hide LineOf, BlockOf;
  }

  /** Appending and trying again is as good as one read of all the bytes, while the block of the
      request has not begun. */
  lemma RetryIsOneRead(s: Session, a: string, m: Session, b: string, ended: bool, t: Session)
    requires s.phase == m.phase == OPEN && m.log == s.log && b != ""
    requires Step(s, Round(a, false, false), m)
    requires BeforeBlock(s.parser) && BeforeBlock(m.parser)
    ensures Step(m, Round(b, ended, false), t) <==> Step(s, Round(a + b, ended, false), t)
  {
    hide LineOf, BlockOf, Waits, Takes, MayFail;
    var p, q := Fed(s.parser, a), m.parser;
    RetryKnows(p, q, b);
    assert s.parser.buffer + a + b == s.parser.buffer + (a + b);
    assert Fed(p, b) == Fed(s.parser, a + b);
    ParsesAlike(Fed(p, b), Fed(q, b), if ended then ENDED else OPEN, s.log, t);
  }

  /** For a request whose line is complete this holds, whatever comes next, exactly as long as
      nothing but breaks has been read of its block. */
  lemma RetryAgrees(s: Session, a: string, m: Session)
    requires s.phase == m.phase == OPEN && m.log == s.log && BeforeBlock(s.parser)
    requires Step(s, Round(a, false, false), m) && m.parser.state == PARSE_HEADER
    ensures (forall b, t | b != "" ::
               Step(m, Round(b, false, false), t) <==> Step(s, Round(a + b, false, false), t))
       <==> m.parser.lineState == HL.START
  {
    if m.parser.lineState == HL.START {
      forall b, t | b != ""
        ensures Step(m, Round(b, false, false), t) <==> Step(s, Round(a + b, false, false), t)
      {
        RetryIsOneRead(s, a, m, b, false, t);
      }
    } else {
      var b, t := RetryDiffers(s, a, m);
    }
  }

  lemma RetryDiffers(s: Session, a: string, m: Session) returns (b: string, t: Session)
    requires s.phase == m.phase == OPEN && m.log == s.log && BeforeBlock(s.parser)
    requires Step(s, Round(a, false, false), m) && m.parser.state == PARSE_HEADER
    requires m.parser.lineState != HL.START
    ensures b != ""
    ensures Step(m, Round(b, false, false), t) != Step(s, Round(a + b, false, false), t)
  {
    hide HL.Parse, RL.ParseUri;
    var p, q := Fed(s.parser, a), m.parser;
    var block, fields := LineOf(p).buffer, LineOf(p).fields;
    HL.FreshParseIsDefined(block, p.headers);
    NotAllBreaks(block, p.headers);
    b := HL.ResumeDiffers(block, p.headers);
    if p.state == PARSE_URI { RL.MoreInputIsAppended(p.buffer, b, RL.TERMINATOR, p.fields); }
    assert s.parser.buffer + a + b == s.parser.buffer + (a + b);
    var whole := HL.Parse(block + b, HL.START, p.headers);
    var resumed := HL.Parse(q.buffer + b, q.lineState, q.headers);
    assert BlockOf(Fed(p, b)) == whole && BlockOf(Fed(q, b)) == resumed;
    if resumed.verdict == HL.HeaderUndefined {
      t := Session(Parser(PARSE_HEADER, HL.START, map[], fields, ""), OPEN, s.log);
    } else if fields.verb == RL.GET {
      var e := Exchange(fields, whole.headers, "");
      t := Session(StartOver(fields, ""), OPEN, s.log + [e]);
    } else {
      t := Session(Parser(PARSE_BODY, whole.state, whole.headers, fields, ""), OPEN, s.log);
    }
    assert Fed(p, b) == Fed(s.parser, a + b);
    assert Parses(Fed(q, b), OPEN, s.log, t) != Parses(Fed(p, b), OPEN, s.log, t);
  }

  /** A request whose block was cut inside a line is not answered any more, except by undefined
      behaviour: when what was kept and what is read begin with the rest of a line. */
  lemma CutLineIsLost(s: Session, r: Round, t: Session)
    requires s.phase == OPEN && s.parser.state == PARSE_HEADER && Step(s, r, t)
    requires s.parser.lineState !in {HL.START, HL.AFTER_LF, HL.END_CR, HL.END_LF}
    ensures t.log != s.log ==> HL.EndsLine(s.parser.lineState, s.parser.buffer + r.bytes)
  {
    var p := Fed(s.parser, r.bytes);
    HL.LineUndefined(p.buffer, p.lineState, p.headers);
    HL.HeadlessNeverSucceeds(p.buffer, 0, HL.Fresh(p.lineState, p.headers));
  }
}
