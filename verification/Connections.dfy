/** What one event, one sweep of the timers and one round of the loop do to a connection, as
    relations between what can be seen of it before and after (src/Server/Http.cpp:74-222,
    src/Server/EventLoop.cpp:38-54). */
module Connections {
  import opened Utils
  import opened Sessions
  import Clock

  const MAX_IDLE_WAITS := 5
  const DEFAULT_EXPIRE_TIME := 3 * 1000
  const DEFAULT_KEEP_ALIVE_TIME := 60 * 1000

  datatype Flag = IN | PRI | OUT | RDHUP | ERR | HUP | ET
  type Events = set<Flag>

  /** What calls the read callback. */
  predicate Readable(events: Events) { events * {IN, PRI, RDHUP} != {} }

  /** The event lets a connection read or write. */
  predicate Ready(events: Events) { OUT in events || Readable(events) }

  /** A hang-up without input is not handled at all. */
  predicate HangUp(events: Events) { HUP in events && IN !in events }

  datatype ConnectionState = CONNECTED | DISCONNECTING | DISCONNECTED

  /** The timer of a connection: when it was made, and for how long. */
  datatype Alarm = Off | On(created: nat, timeout: nat)

  /** What was read, what was made of it, and what was written. */
  datatype Dialogue = Dialogue(
    session: Session, rounds: seq<Round>, unread: string, stops: seq<ReadOutcome>,
    keepAlive: bool, output: string, delivered: string, writeFailed: bool,
    refusals: seq<WriteOutcome>)

  /** What can be seen of a connection between two events. */
  datatype View = View(dialogue: Dialogue, conn: ConnectionState, mask: Events, alarm: Alarm)

  /** A connection that has just been taken into its loop. */
  function NewView(input: string, keepAlive: bool, now: nat): View {
    View(Dialogue(NEW_SESSION, [], input, [], keepAlive, "", "", false, []),
         CONNECTED, {IN, ET}, On(now, DEFAULT_EXPIRE_TIME))
  }

  // ---------------------------------------------------------------- reading and writing

  // In these relations `l` and `k` are what the channel listens for before and after.

  predicate Fails(v: Dialogue) { v.session.phase == FAILED }

  predicate Answered(v: Dialogue, w: Dialogue) { w.session.log != v.session.log }

  /** The kernel has refused a write. */
  predicate Blocked(v: Dialogue, w: Dialogue) { w.refusals != v.refusals }

  /** Output is only added to what was delivered, and a failure is told as far as the kernel lets
      it. */
  predicate Spoken(v: Dialogue, w: Dialogue) {
    && v.delivered <= w.delivered && v.refusals <= w.refusals
    && (Fails(w) && !Fails(v) ==> w.delivered != v.delivered || Blocked(v, w))
  }

  /** What is left after an attempt to write was refused by the kernel, twice. */
  predicate Tried(v: Dialogue, w: Dialogue) {
    !Fails(w) && w.output != "" ==> |w.refusals| >= |v.refusals| + 2
  }

  /** An answer may turn the connection into one that is kept alive. */
  predicate Lasts(v: Dialogue, w: Dialogue) {
    KeptAlive(v.session.log, v.keepAlive, w.session.log, w.keepAlive, Fails(w))
  }

  predicate KeptAlive(before: seq<Exchange>, was: bool, after: seq<Exchange>, now: bool,
                      failed: bool)
  {
    && before <= after
    && (!failed ==> (now <==> was || AnyKeepsAlive(after[|before|..])))
  }

  lemma KeptAfterFailure(log: seq<Exchange>, was: bool, now: bool)
    ensures KeptAlive(log, was, log, now, true)
  {
  }

  lemma KeptByAnswer(log: seq<Exchange>, e: Exchange, was: bool)
    ensures KeptAlive(log, was, log + [e], was || KeepsAlive(e.headers), false)
  {
    assert (log + [e])[|log|..] == [e] && e in [e];
  }

  lemma KeptAsItWas(log: seq<Exchange>, was: bool, failed: bool)
    ensures KeptAlive(log, was, log, was, failed)
  {
    assert log[|log|..] == [];
  }

  /** Nothing but writability is announced when nothing is read, and only after a refusal. */
  predicate Announced(v: Dialogue, l: Events, w: Dialogue, k: Events) {
    k <= l + {IN, OUT} && (OUT in k && OUT !in l ==> Blocked(v, w))
  }

  /** HandleWrite on a connection without an error. */
  predicate Flushed(v: Dialogue, l: Events, w: Dialogue, k: Events) {
    && w == v.(output := w.output, delivered := w.delivered, writeFailed := w.writeFailed,
               refusals := w.refusals)
    && Spoken(v, w) && Tried(v, w) && |w.output| <= |v.output|
    && (w.output == "" ==> |w.refusals| <= |v.refusals| + 1)
    && k == l + (if w.output != "" then {OUT} else {})
  }

  /** One round of reading, as far as the buffers. */
  predicate Processed(v: Dialogue, r: Round, w: Dialogue) {
    && w.rounds == v.rounds + [r] && v.unread == r.bytes + w.unread
    && w.stops == v.stops + [StopOf(r)] && Step(v.session, r, w.session)
    && Spoken(v, w) && Lasts(v, w) && Keeps(v.session, w.session)
    && (!Fails(w) ==>
          && w.delivered == v.delivered && w.refusals == v.refusals
          && w.writeFailed == v.writeFailed && (!Answered(v, w) ==> w.output == v.output))
  }

  /** The bytes of a round have been appended, and nothing was made of them yet. */
  predicate Received(v: Dialogue, r: Round, w: Dialogue) {
    w == v.(rounds := v.rounds + [r], unread := w.unread, stops := v.stops + [StopOf(r)],
            session := v.session.(parser := Fed(v.session.parser, r.bytes),
              phase := if v.session.phase == OPEN && r.ended then ENDED else v.session.phase))
    && v.unread == r.bytes + w.unread
  }

  /** What the parser makes of its buffer, and what is told and remembered of it. */
  predicate Parsed(v: Dialogue, w: Dialogue) {
    && w.rounds == v.rounds && w.unread == v.unread && w.stops == v.stops
    && Parses(v.session.parser, v.session.phase, v.session.log, w.session)
    && Spoken(v, w) && Lasts(v, w) && Keeps(v.session, w.session)
    && (!Fails(w) ==>
          && w.delivered == v.delivered && w.refusals == v.refusals
          && w.writeFailed == v.writeFailed && (!Answered(v, w) ==> w.output == v.output))
  }

  lemma ReceivedAndParsed(v: Dialogue, r: Round, m: Dialogue, w: Dialogue)
    requires v.session.phase == OPEN && !r.failed && !(r.ended && r.bytes == "")
    requires Received(v, r, m) && Parsed(m, w)
    ensures Processed(v, r, w)
  {
    hide Parses, KeptAlive;
    RoundWithParse(v.session, r, w.session);
  }

  lemma ReceivedWithoutParse(v: Dialogue, r: Round, m: Dialogue, w: Dialogue)
    requires Received(v, r, m)
    requires match v.session.phase
             case FAILED => false
             case ENDED => w == m.(session := v.session.(parser := v.session.parser.(buffer := "")))
             case OPEN =>
               if r.failed then
                 && Fails(w) && Spoken(m, w) && w.session.log == m.session.log
                 && w.rounds == m.rounds && w.unread == m.unread && w.stops == m.stops
                 && w.keepAlive == m.keepAlive
               else r.ended && r.bytes == "" && w == m
    ensures Processed(v, r, w)
  {
    hide Parses, KeptAlive;
    assert v.session.parser.buffer + "" == v.session.parser.buffer;
    RoundWithoutParse(v.session, r, w.session);
    KeptAsItWas(v.session.log, v.keepAlive, Fails(w));
  }

  /** One round of reading, with the output that it caused. */
  predicate ReadOnce(v: Dialogue, l: Events, r: Round, w: Dialogue, k: Events) {
    && w.rounds == v.rounds + [r] && v.unread == r.bytes + w.unread
    && w.stops == v.stops + [StopOf(r)] && Step(v.session, r, w.session)
    && Spoken(v, w) && Tried(v, w) && Lasts(v, w) && Announced(v, l, w, k)
    && l <= k <= l + {OUT} && (!Fails(w) && w.output != "" ==> OUT in k)
    && (!Fails(w) && !Answered(v, w) ==> |w.output| <= |v.output|)
    && Keeps(v.session, w.session)
  }

  /** While the request line is incomplete and nothing is answered, bytes are only added. */
  predicate Keeps(s: Session, t: Session) {
    t.phase == OPEN && t.parser.state == PARSE_URI && t.log == s.log ==>
      |t.parser.buffer| >= |s.parser.buffer|
  }

  lemma ProcessThenFlush(v: Dialogue, l: Events, r: Round, m: Dialogue, w: Dialogue, k: Events)
    requires Processed(v, r, m)
    requires if !Fails(m) && m.output != "" then Flushed(m, l, w, k) else w == m && k == l
    ensures ReadOnce(v, l, r, w, k)
  {
    hide Step, KeptAlive;
  }

  /** The rounds between two states of the descriptor. */
  ghost predicate Heard(v: Dialogue, w: Dialogue) {
    && v.rounds <= w.rounds
    && var more := w.rounds[|v.rounds|..];
       && v.unread == Bytes(more) + w.unread && w.stops == v.stops + Stops(more)
       && Serves(v.session, more, w.session)
  }

  /** HandleRead. Input is asked for exactly when not all that was read is answered. */
  ghost predicate ReadAll(v: Dialogue, l: Events, w: Dialogue, k: Events) {
    && Heard(v, w) && Spoken(v, w) && Tried(v, w) && Lasts(v, w) && Announced(v, l, w, k)
    && (!Fails(w) ==>
          && (OUT in k ==> OUT in l || Answered(v, w))
          && (OUT in l || (Answered(v, w) && w.output != "") ==> OUT in k))
    && (w.session.phase == OPEN ==>
          (IN in k <==> IN in l || !AllServed(v.session, w.session)))
    && (!Fails(w) && !Answered(v, w) ==> |w.output| <= |v.output|)
    && Keeps(v.session, w.session)
    && (v.session.phase == ENDED ==> k == l + {IN})
  }

  /** What follows a round: another one, or the end of the event. */
  ghost predicate ReadOn(v: Dialogue, l: Events, m: Dialogue, k: Events, w: Dialogue, j: Events) {
    if Continues(v.session, m.session) then ReadAll(m, k, w, j)
    else w == m && j == if Fails(m) || Answered(v, m) then k else l + {IN}
  }

  lemma RoundsAdd(v: Dialogue, l: Events, r: Round, m: Dialogue, k: Events, w: Dialogue, j: Events)
    requires ReadOnce(v, l, r, m, k) && ReadOn(v, l, m, k, w, j)
    ensures Heard(v, w)
  {
    hide Step, Serves, Lasts, Spoken, Keeps;
    var more := w.rounds[|m.rounds|..];
    assert w.rounds[|v.rounds|..] == [r] + more;
    ServesMore(v.session, r, m.session, more, w.session, w.unread);
    StopsAppend([r], more);
    assert Stops([r]) == [StopOf(r)];
    assert v.stops + ([StopOf(r)] + Stops(more)) == v.stops + [StopOf(r)] + Stops(more);
  }

  lemma LastsOn(v: Dialogue, m: Dialogue, w: Dialogue)
    requires Lasts(v, m) && Lasts(m, w) && (Fails(m) ==> Fails(w))
    ensures Lasts(v, w)
  {
    var a, b := m.session.log[|v.session.log|..], w.session.log[|m.session.log|..];
    assert w.session.log[|v.session.log|..] == a + b;
    assert forall e :: e in a + b <==> e in a || e in b;
  }

  /** A round and what follows it make up the event. */
  lemma ReadOnceAndOn(v: Dialogue, l: Events, r: Round, m: Dialogue, k: Events,
                      w: Dialogue, j: Events)
    requires ReadOnce(v, l, r, m, k) && ReadOn(v, l, m, k, w, j)
    ensures ReadAll(v, l, w, j)
  {
    RoundsAdd(v, l, r, m, k, w, j);
    hide Serves, Heard;
    if Continues(v.session, m.session) {
      hide Step;
      LastsOn(v, m, w);
      assert Answered(v, w);
    }
  }

  // ---------------------------------------------------------------- one event

  function Timeout(keepAlive: bool): nat {
    if keepAlive then DEFAULT_KEEP_ALIVE_TIME else DEFAULT_EXPIRE_TIME
  }

  ghost predicate Conversed(v: Dialogue, active: Events, w: Dialogue) {
    if Readable(active) then Heard(v, w)
    else
      && w.rounds == v.rounds && w.unread == v.unread && w.stops == v.stops
      && w.session == v.session
  }

  /** The write and the read callback. */
  ghost predicate Talked(v: Dialogue, l: Events, active: Events, w: Dialogue, k: Events) {
    && Conversed(v, active, w) && Spoken(v, w) && Lasts(v, w) && Announced(v, l, w, k)
    && (if Ready(active) then Tried(v, w) else w == v && k == l)
    && (!Fails(w) ==>
          && (OUT in k ==> OUT in l || OUT in active || Answered(v, w))
          && (OUT in l || ((OUT in active || Answered(v, w)) && w.output != "") ==> OUT in k))
    && (w.session.phase == OPEN ==>
          (IN in k <==>
            IN in l || (Readable(active) && !AllServed(v.session, w.session))))
  }

  lemma WriteThenRead(v: Dialogue, l: Events, active: Events, m: Dialogue, k: Events,
                      w: Dialogue, j: Events)
    requires !Fails(v)
    requires if OUT in active then Flushed(v, l, m, k) else m == v && k == l
    requires if Readable(active) then ReadAll(m, k, w, j) else w == m && j == k
    ensures Talked(v, l, active, w, j)
  {
    hide Serves;
  }

  /** What the output that is left says of what the channel listens for. */
  lemma OutputDecides(v: Dialogue, l: Events, active: Events, w: Dialogue, k: Events)
    requires Talked(v, l, active, w, k)
    ensures w.output != "" && !Fails(w) ==>
      (OUT in k <==> OUT in l || OUT in active || Answered(v, w))
    ensures !Fails(w) && OUT !in l && OUT !in active && !Answered(v, w) ==> OUT !in k
    ensures w.output != "" && w.session.phase == OPEN && Ready(active) ==> k != {}
  {
    hide Heard, Spoken, Lasts, Tried;
  }

  /** A request is half read, or output is left. */
  predicate Busy(v: Dialogue, active: Events, w: Dialogue) {
    || (Readable(active) && !AllServed(v.session, w.session))
    || (Ready(active) && w.output != "")
  }

  /** What HandleCurrentConn makes of a connection without an error, by what it listens for. */
  function Outcome(state: ConnectionState, events: Events, keepAlive: bool): ConnectionState {
    if state == CONNECTED && (events != {} || keepAlive) then CONNECTED
    else if state == DISCONNECTING && OUT in events then DISCONNECTING
    else DISCONNECTED
  }

  /** What becomes of the connection. An open one stays when it is kept alive or busy; it is
      watched for writing while it is busy, and for reading when there is nothing to do. A half
      closed one with output left stays exactly when it could write or has answered. */
  predicate Concluded(v: View, active: Events, now: nat, w: View) {
    var before, after := v.dialogue, w.dialogue;
    var busy, blocked := Busy(before, active, after), Blocked(before, after);
    match after.session.phase
    case FAILED => w.conn == DISCONNECTED
    case OPEN =>
      && w.conn != DISCONNECTING
      && (after.keepAlive || busy ==> w.conn == CONNECTED)
      && (!after.keepAlive && !busy && !blocked ==> w.conn == DISCONNECTED)
      && (w.conn == CONNECTED ==>
            && w.alarm == On(now, Timeout(after.keepAlive))
            && w.mask in {{IN, ET}, {OUT, ET}}
            && (busy ==> w.mask == {OUT, ET})
            && (!busy && !blocked ==> w.mask == {IN, ET}))
    case ENDED =>
      var writes := OUT in active || Answered(before, after);
      && w.conn != CONNECTED
      && (after.output != "" ==> (w.conn == DISCONNECTING <==> writes))
      && (w.conn == DISCONNECTING ==> writes && blocked && w.mask == v.mask)
  }

  /** One event that is handled. */
  ghost predicate Event(v: View, active: Events, now: nat, w: View) {
    var before, after := v.dialogue, w.dialogue;
    && Conversed(before, active, after) && Spoken(before, after) && Lasts(before, after)
    && (if Ready(active) then Tried(before, after) else after == before)
    && Concluded(v, active, now, w)
    && (w.conn != CONNECTED ==> w.alarm == Off)
    && (w.conn == DISCONNECTED ==> w.mask == {})
  }

  /** The last step decides by what the callbacks have left the channel listening for. */
  lemma TalkedThenSettled(v: View, active: Events, now: nat, w: View, k: Events,
                          mid: ConnectionState)
    requires Talked(v.dialogue, {}, active, w.dialogue, k)
    requires match w.dialogue.session.phase
             case OPEN => mid == CONNECTED
             case ENDED => mid == DISCONNECTING
             case FAILED => mid == DISCONNECTED
    requires w.conn == Outcome(mid, k, w.dialogue.keepAlive)
    requires match w.conn
             case CONNECTED =>
               && w.mask == (if k == {} then {IN, ET} else {OUT, ET})
               && w.alarm == On(now, Timeout(w.dialogue.keepAlive))
             case DISCONNECTING => w.mask == v.mask && w.alarm == Off
             case DISCONNECTED => w.mask == {} && w.alarm == Off
    ensures Event(v, active, now, w)
  {
    hide Conversed, Spoken, Lasts, Tried;
  }

  // ---------------------------------------------------------------- one round of the loop

  /** Closed by its timer. */
  function Closed(v: View): View { v.(conn := DISCONNECTED, mask := {}, alarm := Off) }

  /** A sweep between two times. Nothing is closed before its full timeout. Unless the reading
      wraps meanwhile, what is due at the start is closed, and nothing that is not at the end. */
  predicate Sweep(v: View, start: nat, end: nat, w: View) {
    if v.alarm == Off then w == v
    else
      var deadline := Clock.Deadline(v.alarm.created, v.alarm.timeout);
      && w in {v, Closed(v)}
      && (w != v ==> v.alarm.created + v.alarm.timeout <= end)
      && (start / Clock.CYCLE == end / Clock.CYCLE ==>
            && (deadline <= start % Clock.CYCLE ==> w != v)
            && (w != v ==> deadline <= end % Clock.CYCLE))
  }

  datatype Report = Nothing | Reported(events: Events)

  /** The handling of a batch, as one connection sees it. */
  ghost predicate Noticed(v: View, report: Report, start: nat, end: nat, w: View) {
    if v.conn == DISCONNECTED || report == Nothing || HangUp(report.events) then w == v
    else exists now :: start <= now <= end && Event(v, report.events, now, w)
  }

  lemma NoticedLater(v: View, report: Report, start: nat, end: nat, later: nat, w: View)
    requires Noticed(v, report, start, end, w) && end <= later
    ensures Noticed(v, report, start, later, w)
  {
    hide Event;
  }

  /** A closed connection takes no notice of any report. */
  lemma NoticedAs(v: View, report: Report, other: Report, start: nat, end: nat, w: View)
    requires Noticed(v, report, start, end, w) && (v.conn == DISCONNECTED || report == other)
    ensures Noticed(v, other, start, end, w)
  {
    hide Event;
  }

  /** What the kernel reports in one round, and when the round began and ended. */
  datatype Lap = Lap(reported: seq<(int, Events)>, start: nat, end: nat, quit: bool)

  function ReportOn(reported: seq<(int, Events)>, fd: int): Report {
    if reported == [] then Nothing
    else if reported[0].0 == fd then Reported(reported[0].1)
    else ReportOn(reported[1..], fd)
  }

  ghost predicate Rounded(v: View, fd: int, lap: Lap, w: View) {
    exists m, t :: lap.start <= t <= lap.end
      && Noticed(v, ReportOn(lap.reported, fd), lap.start, t, m) && Sweep(m, t, lap.end, w)
  }

  lemma RoundedBy(v: View, fd: int, lap: Lap, m: View, mid: nat, t: nat, w: View)
    requires lap.start <= mid <= t <= lap.end
    requires Noticed(v, ReportOn(lap.reported, fd), lap.start, mid, m) && Sweep(m, t, lap.end, w)
    ensures Rounded(v, fd, lap, w)
  {
    hide Event, Sweep;
    NoticedLater(v, ReportOn(lap.reported, fd), lap.start, mid, t, m);
  }

  /** Round after round. */
  ghost predicate Follows(v: View, fd: int, laps: seq<Lap>, w: View)
    decreases |laps|
  {
    if laps == [] then w == v
    else
      var before, last := laps[..|laps| - 1], laps[|laps| - 1];
      exists m :: Follows(v, fd, before, m) && Rounded(m, fd, last, w)
  }

  /** The waits that returned nothing. */
  function Idle(laps: seq<Lap>): nat
    decreases |laps|
  {
    if laps == [] then 0
    else
      var before, last := laps[..|laps| - 1], laps[|laps| - 1];
      Idle(before) + if last.reported == [] then 1 else 0
  }

  /** A loop looks at its condition before every round. */
  predicate Goes(laps: seq<Lap>) {
    forall k :: 0 <= k < |laps| ==>
      Idle(laps[..k]) < MAX_IDLE_WAITS && (k > 0 ==> !laps[k - 1].quit)
  }

  lemma GoesOn(laps: seq<Lap>, lap: Lap)
    requires Goes(laps) && Idle(laps) < MAX_IDLE_WAITS
    requires laps != [] ==> !laps[|laps| - 1].quit
    ensures Goes(laps + [lap])
    ensures Idle(laps + [lap]) == Idle(laps) + (if lap.reported == [] then 1 else 0)
  {
    var all := laps + [lap];
    assert all[..|laps|] == laps;
    forall k | 0 <= k < |all|
      ensures Idle(all[..k]) < MAX_IDLE_WAITS && (k > 0 ==> !all[k - 1].quit)
    {
      assert all[..k] == laps[..k];
      if k == |laps| { assert laps[..k] == laps; }
    }
  }

  /** A descriptor that is reported once is reported so. */
  lemma {:induction false} ReportIs(reported: seq<(int, Events)>, i: nat)
    requires i < |reported|
    requires forall j :: 0 <= j < i ==> reported[j].0 != reported[i].0
    ensures ReportOn(reported, reported[i].0) == Reported(reported[i].1)
  {
    if i > 0 {
      assert reported[0].0 != reported[i].0;
      ReportIs(reported[1..], i - 1);
    }
  }

  lemma {:induction false} NoReport(reported: seq<(int, Events)>, fd: int)
    requires forall j :: 0 <= j < |reported| ==> reported[j].0 != fd
    ensures ReportOn(reported, fd) == Nothing
    decreases |reported|
  {
    if reported != [] { NoReport(reported[1..], fd); }
  }

  lemma FollowsOn(v: View, fd: int, laps: seq<Lap>, m: View, lap: Lap, w: View)
    requires Follows(v, fd, laps, m) && Rounded(m, fd, lap, w)
    ensures Follows(v, fd, laps + [lap], w)
  {
    var all := laps + [lap];
    assert all[..|all| - 1] == laps && all[|all| - 1] == lap;
  }
}
