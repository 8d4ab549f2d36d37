/** One event loop: channels, connections, the epoll registry and its timers. */
module Reactor {
  import opened Text
  import opened Utils
  import Clock
  import RequestLine
  import HeaderLines
  import opened Sessions
  import opened Connections

  /** The answers in the order of the requests. */
  ghost function Wire(served: seq<Exchange>): string {
    if served == [] then ""
    else Wire(served[..|served| - 1]) + served[|served| - 1].response
  }

  // ---------------------------------------------------------------- Channel.cpp

  class Channel {
    const fd: int
    const epoll: Epoll
    var holder: Http?
    var active: Events
    var toListen: Events

    constructor (epoll: Epoll, fd: int)
      ensures this.epoll == epoll && this.fd == fd
      ensures holder == null && toListen == {}
    {
      this.epoll, this.fd := epoll, fd;
      holder, active, toListen := null, {}, {};
    }

    ghost function Footprint(): set<object>
      reads this, (if holder == null then {} else {holder})`timer
    {
      if holder == null then {}
      else {this, epoll, holder, holder.socket} + (set n: TimerNode | n in holder.Timers())
    }

    lemma FootprintIsInside()
      requires epoll.Core() && epoll.IsRegistered(this)
      ensures Footprint() <= epoll.Repr()
    {
    }

    /** A hang-up without input is not handled at all. */
    predicate Ignored()
      reads `active
    {
      HangUp(active)
    }

    /** What an event does to its connection: a new deadline if it stays open; a half-closed one
        with output left is kept exactly when the event lets it write, and then watched as before:
        for writing exactly when it was armed for that; an open one with output left is armed for
        writing. */
    twostate predicate Handled(h: Http, now: nat)
      reads *
    {
      && (epoll.Deadlines() ==
            if h.connState != CONNECTED then old(epoll.Deadlines()) - {h}
            else (old(epoll.Deadlines()) - {h})[h := Clock.Deadline(now, Timeout(h.keepAlive))])
      && (old(toListen) == {} ==> Event(old(h.Look()), active, now, h.Look()))
      && h.HalfCloseDecided(active, OUT in old(toListen))
      && (h.connState == CONNECTED && h.writeBuffer != "" && Ready(active) ==>
            fd in epoll.kernel && epoll.kernel[fd] == {OUT, ET})
      && (h.connState == DISCONNECTING ==>
            && epoll.kernel == old(epoll.kernel) && fd in epoll.kernel
            && (OUT in epoll.kernel[fd] <==> epoll.kernel[fd] == {OUT, ET}))
    }

    /** One reported event. The wake-up and listening channels have no connection. */
    method HandleEvents(now: nat)
      requires epoll.Boundary() && epoll.IsRegistered(this)
      modifies Footprint()
      ensures epoll.Boundary() && epoll.conns == old(epoll.conns) && holder == old(holder)
      ensures epoll.Grows(now) && epoll.Progress() && epoll.KeepsOthers(fd)
      ensures epoll.fd2channel == old(epoll.fd2channel) || epoll.Without(fd)
      ensures active == old(active)
      ensures holder != null && Ignored() ==> unchanged(holder) && unchanged(epoll)
      ensures holder != null && !Ignored() ==>
        Handled(holder, now) && holder.HalfCloseDecided(active, OUT in old(toListen))
      ensures forall h :: h in epoll.conns ==>
        if h == holder && !Ignored() then
          old(toListen) == {} ==> Event(old(h.Look()), active, now, h.Look())
        else h.Look() == old(h.Look())
    {
      hide Http.Quiet, Channel.Handled, Epoll.Nodes, Http.Armed;
      if holder == null || Ignored() { return; }
      Notify(now);
      epoll.EventProgress(holder);
    }

    /** One error event closes a half-closed connection with output left, which is never sent. */
    method OutputIsLost(now: nat)
      requires epoll.Boundary() && epoll.IsRegistered(this) && holder != null
      requires active == {ERR} && toListen == {} && holder.connState == DISCONNECTING
      requires holder.writeBuffer != "" && !holder.writeFailed
      modifies Footprint()
      ensures holder == old(holder) && holder.CutShort()
      ensures holder.socket.delivered == old(holder.socket.delivered)
    {
      hide Epoll.Boundary;
      HandleEvents(now);
    }

    /** The callbacks of a channel with a connection. */
    method Notify(now: nat)
      requires epoll.Boundary() && epoll.IsRegistered(this) && holder != null
      modifies Footprint()
      ensures epoll.Boundary() && epoll.conns == old(epoll.conns) && holder == old(holder)
      ensures epoll.Grows(now) && Handled(holder, now) && epoll.KeepsOthers(fd) && holder.Ages()
      ensures holder.HalfCloseDecided(active, OUT in old(toListen))
      ensures old(toListen) == {} ==> Event(old(holder.Look()), active, now, holder.Look())
      ensures forall h :: h in epoll.conns && h != holder ==> h.Look() == old(h.Look())
      ensures epoll.fd2channel == old(epoll.fd2channel) || epoll.Without(fd)
      ensures holder.timer != null ==> holder.timer in epoll.queue
      ensures active == old(active)
    {
      hide Http.Quiet, Http.Armed;
      holder.WatchedForWriting();
      holder.React(active, now);
      epoll.OthersStayQuiet(holder);
      epoll.OthersLookSame(holder);
    }
  }

  // ---------------------------------------------------------------- Timer.h, Timer.cpp

  class TimerNode {
    var data: Http?
    var deleted: bool
    var alive: bool  // false once the node is destroyed, when links to it have expired
    const expireTime: nat
    ghost const created: nat
    ghost const timeout: nat

    constructor (data: Http, timeout: nat, now: nat)
      ensures this.data == data && !deleted && alive
      ensures created == now && this.timeout == timeout
      ensures expireTime == Clock.Deadline(now, timeout)
    {
      this.data, deleted, alive := data, false, true;
      expireTime := Clock.Deadline(now, timeout);
      created, this.timeout := now, timeout;
    }

    method IsExpired(now: nat) returns (expired: bool)
      modifies `deleted
      ensures expired <==> Clock.Expired(now, expireTime)
      ensures deleted == (old(deleted) || expired)
    {
      expired := now % Clock.CYCLE >= expireTime;
      if expired { deleted := true; }
    }

    method ClearNode()
      modifies `data, `deleted
      ensures data == null && deleted
    {
      data, deleted := null, true;
    }
  }

  // ---------------------------------------------------------------- Http.cpp

  class Http {
    const epoll: Epoll
    const channel: Channel
    const socket: Socket
    var readBuffer: string
    var writeBuffer: string
    var fields: RequestLine.Fields
    var headers: HeaderLines.HeaderMap
    var lineState: HeaderLines.LineState
    var keepAlive: bool
    var processState: ProcessState
    var connState: ConnectionState
    var hasError: bool
    var timer: TimerNode?
    ghost var closes: nat            // calls of HandleClose
    ghost var served: seq<Exchange>
    ghost var rounds: seq<Round>     // what ReadFromFd has reported
    ghost var writeFailed: bool      // a write failed after part of its bytes had gone out

    constructor (epoll: Epoll, fd: int, keepAlive: bool, socket: Socket)
      requires socket.user == null && socket.delivered == "" && socket.unread == socket.input
      requires socket.stops == [] && socket.refusals == []
      modifies socket`user
      ensures this.epoll == epoll && this.socket == socket && this.keepAlive == keepAlive
      ensures fresh(channel) && channel.fd == fd && channel.toListen == {} && IsNew()
    {
      this.epoll, this.keepAlive, this.socket := epoll, keepAlive, socket;
      channel := new Channel(epoll, fd);
      readBuffer, writeBuffer, headers := "", "", map[];
      fields := NEW_FIELDS;
      lineState, processState, connState := HeaderLines.START, PARSE_URI, CONNECTED;
      hasError, timer := false, null;
      closes, served, rounds, writeFailed := 0, [], [], false;
      new;
      socket.user := this;
    }

    ghost function Timers(): set<TimerNode>
      reads `timer
    {
      if timer == null then {} else {timer}
    }

    ghost predicate HasTimer()
      reads `timer, Timers()`alive
    {
      timer != null && timer.alive
    }

    /** Everything answered so far is on its way or still buffered, in order. */
    ghost predicate Ledger()
      reads `hasError, `writeFailed, `writeBuffer, `served, socket`user, socket`delivered
    {
      && socket.user == this
      && (!hasError && !writeFailed ==> socket.delivered + writeBuffer == Wire(served))
    }

    /** The parser waits for bytes. */
    ghost predicate Waiting()
      reads `processState, `lineState, `headers
    {
      && processState in {PARSE_URI, PARSE_HEADER, PARSE_BODY}
      && (processState == PARSE_URI ==> lineState == HeaderLines.START && headers == map[])
      && (processState == PARSE_HEADER ==> lineState != HeaderLines.END_LF)
    }

    /** No whole request line is left waiting in the buffer of an open connection. */
    ghost predicate Drained()
      reads `connState, `processState, `readBuffer
    {
      connState == CONNECTED && processState == PARSE_URI ==>
        RequestLine.TERMINATOR !in readBuffer
    }

    /** Some bytes of the answers will never be sent. */
    ghost predicate CutShort()
      reads `connState, `served, socket`delivered
    {
      connState == DISCONNECTED && socket.delivered < Wire(served)
    }

    lemma OwedOutput()
      requires Ledger()
      ensures connState == DISCONNECTED && !hasError && !writeFailed ==>
        (CutShort() <==> writeBuffer != "")
    {
    }

    /** A connection that is half closed after an event, with output left, is kept exactly when
        the event reported writability or something was answered; otherwise output is lost. */
    twostate predicate HalfCloseDecided(active: Events, listening: bool)
      reads `connState, `hasError, `writeFailed, `served, `writeBuffer, socket`delivered
    {
      && (old(connState) == DISCONNECTING ==>
            connState != CONNECTED && !hasError && served == old(served))
      && (connState != CONNECTED && !hasError && writeBuffer != "" ==>
            (connState == DISCONNECTING <==>
              listening || OUT in active || served != old(served)))
      && (old(connState) == DISCONNECTING && !listening && OUT !in active ==>
            connState == DISCONNECTED)
      && (connState == DISCONNECTED && !hasError && !writeFailed ==>
            (CutShort() <==> writeBuffer != ""))
    }

    function Snapshot(): Parser
      reads `processState, `lineState, `headers, `fields, `readBuffer
    {
      Parser(processState, lineState, headers, fields, readBuffer)
    }

    ghost function PhaseNow(): Phase
      reads `hasError, `rounds
    {
      if hasError then FAILED else if Ended(rounds) then ENDED else OPEN
    }

    /** The session that the connection implements. */
    ghost function SessionNow(): Session
      reads `processState, `lineState, `headers, `fields, `readBuffer, `hasError, `rounds, `served
    {
      Session(Snapshot(), PhaseNow(), served)
    }

    /** The same once a finished request is put away. */
    ghost function Rested(): Session
      reads `processState, `lineState, `headers, `fields, `readBuffer, `hasError, `rounds, `served
    {
      if processState == FINISH then Session(StartOver(fields, readBuffer), PhaseNow(), served)
      else SessionNow()
    }

    /** An open connection is half closed exactly when its input has ended, with nothing unread. */
    ghost predicate Fits()
      reads `connState, `rounds, socket`unread
    {
      && (Ended(rounds) ==> socket.unread == "")
      && (connState == CONNECTED ==> !Ended(rounds))
      && (connState == DISCONNECTING ==> Ended(rounds))
    }

    /** All its life: the rounds have read all bytes that the peer has sent so far, in order, and
        have led a new session to the answers given and to what the parser now keeps. */
    ghost predicate Lived()
      reads `processState, `lineState, `headers, `fields, `readBuffer, `hasError, `rounds, `served,
        socket`unread, socket`stops
    {
      && socket.input == Bytes(rounds) + socket.unread && socket.stops == Stops(rounds)
      && Runs(NEW_SESSION, rounds, SessionNow())
    }

    /** The conversation with the peer. */
    ghost function DialogueNow(): Dialogue
      reads `processState, `lineState, `headers, `fields, `readBuffer, `hasError, `rounds, `served,
        `keepAlive, `writeBuffer, `writeFailed
      reads socket`unread, socket`stops, socket`delivered, socket`refusals
    {
      Dialogue(SessionNow(), rounds, socket.unread, socket.stops, keepAlive, writeBuffer,
               socket.delivered, writeFailed, socket.refusals)
    }

    /** The same once a finished request is put away. */
    ghost function Paused(): Dialogue
      reads `processState, `lineState, `headers, `fields, `readBuffer, `hasError, `rounds, `served,
        `keepAlive, `writeBuffer, `writeFailed
      reads socket`unread, socket`stops, socket`delivered, socket`refusals
    {
      DialogueNow().(session := Rested())
    }

    /** Nothing was read or written so far. */
    ghost predicate DialogueIsNew()
      reads `processState, `lineState, `headers, `fields, `readBuffer, `hasError, `rounds, `served,
        `keepAlive, `writeBuffer, `writeFailed
      reads socket`unread, socket`stops, socket`delivered, socket`refusals
    {
      DialogueNow() == Dialogue(NEW_SESSION, [], socket.input, [], keepAlive, "", "", false, [])
    }

    /** A connection that no loop has taken in yet. */
    ghost predicate IsNew()
      reads this, channel, socket
    {
      && channel.epoll == epoll && channel.holder == null && timer == null
      && connState == CONNECTED && closes == 0 && !hasError && Waiting() && Drained()
      && Ledger() && Fits() && Lived() && DialogueIsNew()
    }

    /** What epoll watches for on behalf of the connection. */
    ghost function Mask(): Events
      reads `connState, epoll`kernel
    {
      if connState == DISCONNECTED || channel.fd !in epoll.kernel then {}
      else epoll.kernel[channel.fd]
    }

    ghost function AlarmNow(): Alarm
      reads `timer, Timers()`alive
    {
      if HasTimer() then On(timer.created, timer.timeout) else Off
    }

    /** All that can be seen of the connection between two events. */
    ghost function Look(): View
      reads this, Timers()`alive, socket, epoll`kernel
    {
      View(DialogueNow(), connState, Mask(), AlarmNow())
    }

    twostate lemma LivesOn(active: Events)
      requires old(Lived()) && Conversed(old(DialogueNow()), active, DialogueNow())
      ensures Lived()
    {
      hide Step, Serves, Http.SessionNow;
      if Readable(active) {
        var more := rounds[|old(rounds)|..];
        assert rounds == old(rounds) + more;
        BytesAppend(old(rounds), more);
        StopsAppend(old(rounds), more);
        ServesRuns(old(SessionNow()), more, SessionNow());
        RunsOn(NEW_SESSION, old(rounds), old(SessionNow()), more, SessionNow());
      }
    }

    /** Nothing of a connection is taken back. */
    twostate predicate Ages()
      reads `connState, `served, `rounds, socket`delivered
    {
      && (old(connState) == DISCONNECTED ==> connState == DISCONNECTED)
      && old(served) <= served && old(rounds) <= rounds
      && old(socket.delivered) <= socket.delivered
    }

    /** The kernel watches the connection for one direction, by edges. */
    ghost predicate Armed()
      reads epoll`kernel
    {
      channel.fd in epoll.kernel && epoll.kernel[channel.fd] in {{IN, ET}, {OUT, ET}}
    }

    lemma WatchedForWriting()
      requires Armed()
      ensures channel.fd in epoll.kernel
      ensures OUT in epoll.kernel[channel.fd] <==> epoll.kernel[channel.fd] == {OUT, ET}
    {
    }

    /** The connection between two events. */
    ghost predicate Quiet()
      reads this, Timers()`alive, socket
    {
      && (HasTimer() <==> connState == CONNECTED)
      && (hasError ==> connState == DISCONNECTED)
      && (!hasError ==> Waiting() && Drained())
      && Ledger() && Fits() && Lived()
    }

    /** One call of `WriteToFd` on the write buffer. */
    method WriteOut() returns (n: int)
      requires Ledger() && !hasError
      modifies `writeBuffer, `writeFailed, socket`delivered, socket`hiccups, socket`refusals
      ensures Ledger() && old(socket.delivered) <= socket.delivered
      ensures |writeBuffer| <= |old(writeBuffer)| && (old(writeFailed) ==> writeFailed)
      ensures Refused(old(socket.refusals), socket.refusals, writeBuffer != "", n < 0)
    {
      var rest; ghost var sent;
      n, rest, sent := WriteToFd(socket, writeBuffer);
      writeFailed := writeFailed || (n < 0 && sent > 0);
      writeBuffer := rest;
    }

    method HandleWrite()
      requires Ledger()
      modifies `writeBuffer, `writeFailed, channel`toListen, socket`delivered, socket`hiccups,
        socket`refusals
      ensures Ledger() && (old(writeFailed) ==> writeFailed)
      ensures if hasError || connState == DISCONNECTED
              then DialogueNow() == old(DialogueNow())
                   && channel.toListen == old(channel.toListen)
              else Flushed(old(DialogueNow()), old(channel.toListen),
                           DialogueNow(), channel.toListen)
    {
      if !hasError && connState != DISCONNECTED {
        var events := channel.toListen;
        var n := WriteOut();
        n := WriteOut();
        if |writeBuffer| > 0 {
          channel.toListen := events + {OUT};
        }
      }
    }

    method ParseURI() returns (v: RequestLine.UriVerdict)
      modifies `readBuffer, `fields
      ensures RequestLine.UriResult(v, readBuffer, fields)
           == RequestLine.ParseUri(old(readBuffer), RequestLine.TERMINATOR, old(fields))
      ensures |readBuffer| <= |old(readBuffer)|
      ensures if v == RequestLine.UriAgain then RequestLine.TERMINATOR !in readBuffer
              else |readBuffer| < |old(readBuffer)|
    {
      var pos := FindChar(readBuffer, RequestLine.TERMINATOR, 0);
      if pos < 0 { return RequestLine.UriAgain; }
      var line := readBuffer[..pos];
      if |readBuffer| > pos + 1 {
        readBuffer := readBuffer[pos + 1..];
      } else {
        readBuffer := "";
      }
      v := ParseRequestLine(line);
    }

    /** The method and the path of the cut line. */
    method ParseRequestLine(line: string) returns (v: RequestLine.UriVerdict)
      modifies `fields
      ensures (v, fields) == RequestLine.ParseLine(line, old(fields))
    {
      hide FindChar, Find, RequestLine.ParseTarget;
      var posGet := Find(line, "GET", 0);
      var posPost := Find(line, "POST", 0);
      var pos;
      if posGet >= 0 {
        pos := posGet;
        fields := fields.(verb := RequestLine.GET);
      } else if posPost >= 0 {
        pos := posPost;
        fields := fields.(verb := RequestLine.POST);
      } else {
        return RequestLine.UriError;
      }
      pos := FindChar(line, '/', pos);
      if pos < 0 {
        fields := fields.(path := "index.html", version := RequestLine.HTTP_11);
        return RequestLine.UriSuccess;
      }
      v := ParseRequestTarget(line, pos);
    }

    /** From the first slash: the path, then the version. */
    method ParseRequestTarget(line: string, slash: nat) returns (v: RequestLine.UriVerdict)
      requires slash < |line| && line[slash] == '/'
      modifies `fields
      ensures (v, fields) == RequestLine.ParseTarget(line, slash, old(fields))
    {
      hide FindChar;
      var space := FindChar(line, ' ', slash);
      if space < 0 { return RequestLine.UriError; }
      if space - slash > 1 {
        var path := line[slash + 1..space];
        var question := FindChar(path, '?', 0);
        if question >= 0 { path := path[..question]; }
        fields := fields.(path := path);
      } else {
        fields := fields.(path := "index.html");
      }
      assert fields.path == RequestLine.PathOf(line[slash + 1..space]);
      var pos := FindChar(line, '/', space);
      if pos < 0 || |line| - pos <= 3 { return RequestLine.UriError; }
      var version := line[pos + 1..pos + 4];
      if version == "1.0" {
        fields := fields.(version := RequestLine.HTTP_10);
      } else if version == "1.1" {
        fields := fields.(version := RequestLine.HTTP_11);
      } else {
        return RequestLine.UriError;
      }
      return RequestLine.UriSuccess;
    }

    method ParseHeaders() returns (v: HeaderLines.Verdict)
      modifies `readBuffer, `headers, `lineState
      ensures HeaderLines.ParseResult(v, readBuffer, lineState, headers)
           == HeaderLines.Parse(old(readBuffer), old(lineState), old(headers))
    {
      var keyStart, keyEnd, valueStart, valueEnd := -1, -1, -1, -1;
      var lineBegin := 0;
      var notFinish := true;
      var i := 0;
      ghost var all := HeaderLines.Parse(readBuffer, lineState, headers);
      while i < |readBuffer| && notFinish
        invariant 0 <= lineBegin <= i <= |readBuffer| && readBuffer == old(readBuffer)
        invariant notFinish ==> all == HeaderLines.Scan(readBuffer, i,
          HeaderLines.Cursor(lineState, keyStart, keyEnd, valueStart, valueEnd, lineBegin, headers))
        invariant !notFinish ==> lineState == HeaderLines.END_LF
        invariant !notFinish ==> all == HeaderLines.ParseResult(
          HeaderLines.HeaderSuccess, readBuffer[i..], lineState, headers)
        decreases |readBuffer| - i
      {
        var c := readBuffer[i];
        match lineState {
          case START =>
            if !(c == LF || c == CR) {
              lineState := HeaderLines.KEY;
              keyStart, lineBegin := i, i;
            }
          case KEY =>
            if c == ':' {
              keyEnd := i;
              if keyEnd - keyStart <= 0 { return HeaderLines.HeaderError; }
              lineState := HeaderLines.COLON;
            } else if c == LF || c == CR {
              return HeaderLines.HeaderError;
            }
          case COLON =>
            if c == ' ' {
              lineState := HeaderLines.SPACES_AFTER_COLON;
            } else {
              return HeaderLines.HeaderError;
            }
          case SPACES_AFTER_COLON =>
            lineState := HeaderLines.VALUE;
            valueStart := i;
          case VALUE =>
            if c == CR {
              lineState := HeaderLines.AFTER_CR;
              valueEnd := i;
              if valueEnd - valueStart <= 0 { return HeaderLines.HeaderError; }
            } else if i - valueStart > 255 {
              return HeaderLines.HeaderError;
            }
          case AFTER_CR =>
            if c == LF {
              lineState := HeaderLines.AFTER_LF;
              if !(0 <= keyStart <= keyEnd <= i && 0 <= valueStart <= valueEnd <= i) {
                return HeaderLines.HeaderUndefined;
              }
              var key := readBuffer[keyStart..keyEnd];
              var value := readBuffer[valueStart..valueEnd];
              headers := headers[key := value];
              lineBegin := i;
            } else {
              return HeaderLines.HeaderError;
            }
          case AFTER_LF =>
            if c == CR {
              lineState := HeaderLines.END_CR;
            } else {
              keyStart := i;
              lineState := HeaderLines.KEY;
            }
          case END_CR =>
            if c == LF {
              lineState := HeaderLines.END_LF;
            } else {
              return HeaderLines.HeaderError;
            }
          case END_LF =>
            notFinish := false;
            keyStart, lineBegin := i, i;
        }
        i := i + 1;
      }
      if lineState == HeaderLines.END_LF {
        readBuffer := readBuffer[i..];
        return HeaderLines.HeaderSuccess;
      }
      readBuffer := readBuffer[lineBegin..];
      return HeaderLines.HeaderAgain;
    }

    /** The error page goes straight to the descriptor. */
    method HandleError(header: string, body: string)
      modifies socket`delivered, socket`hiccups, socket`refusals
      ensures old(socket.delivered) <= socket.delivered && old(socket.refusals) <= socket.refusals
      ensures socket.delivered == old(socket.delivered) + header + body
           || socket.refusals != old(socket.refusals)
    {
      var n := WriteRaw(socket, header);
      n := WriteRaw(socket, body);
    }

    /** An answer from the file system, or an error after which the buffer is arbitrary. */
    method ProcessRequest() returns (success: bool)
      requires !hasError && Ledger()
      modifies `writeBuffer, `keepAlive, `served
      ensures success ==> Ledger() && |served| == |old(served)| + 1
      ensures keepAlive <==> old(keepAlive) || KeepsAlive(headers)
      ensures success ==> exists response ::
        && writeBuffer == old(writeBuffer) + response
        && served == old(served) + [Exchange(fields, headers, response)]
      ensures !success ==> served == old(served)
    {
      if "Connection" in headers {
        if headers["Connection"] == "Keep-Alive" || headers["Connection"] == "keep-alive" {
          keepAlive := true;
        }
      }
      success := *;
      if success {
        var response: string := *;
        ghost var before := Wire(served);
        served := served + [Exchange(fields, headers, response)];
        assert served[..|served| - 1] == old(served);
        assert socket.delivered + (writeBuffer + response)
            == (socket.delivered + writeBuffer) + response;
        writeBuffer := writeBuffer + response;
      } else {
        writeBuffer := *;
      }
    }

    /** `ParseHeaders`, with the memory outside the buffer read as the machine pleases when it
        is undefined: some verdict, some headers, and a cut of the buffer. */
    method ParseHeadersOrStray() returns (v: HeaderLines.Verdict)
      modifies `readBuffer, `headers, `lineState
      ensures v != HeaderLines.HeaderUndefined
      ensures |readBuffer| <= |old(readBuffer)|
      ensures v == HeaderLines.HeaderSuccess && old(lineState) != HeaderLines.END_LF ==>
        |readBuffer| < |old(readBuffer)|
      ensures var r := HeaderLines.Parse(old(readBuffer), old(lineState), old(headers));
              r.verdict != HeaderLines.HeaderUndefined ==>
                r == HeaderLines.ParseResult(v, readBuffer, lineState, headers)
      ensures v == HeaderLines.HeaderAgain ==> lineState != HeaderLines.END_LF
    {
      HeaderLines.ScanShrinks(readBuffer, 0, HeaderLines.Fresh(lineState, headers));
      v := ParseHeaders();
      if v == HeaderLines.HeaderUndefined {
        headers := *;
        var choice: int, cut: nat := *, *;
        lineState := HeaderLines.KEY;
        if choice == 0 {
          v := HeaderLines.HeaderAgain;
        } else if choice == 1 || readBuffer == "" {
          v := HeaderLines.HeaderError;
        } else {
          v := HeaderLines.HeaderSuccess;
          readBuffer := readBuffer[1..];
        }
        readBuffer := readBuffer[if cut <= |readBuffer| then cut else 0..];
      }
    }

    /** Bytes that are buffered or still to come; every pipelined request uses some. */
    ghost function Pending(): nat
      reads `readBuffer, socket`unread
    {
      |readBuffer| + |socket.unread|
    }

    /** The `do ... while (false)` of HandleRead: read, and take one request as far as it goes. */
    method ReadAndProcess() returns (r: Round)
      requires !hasError && connState != DISCONNECTED && Waiting() && Ledger() && Fits()
      modifies `readBuffer, `writeBuffer, `fields, `headers, `lineState, `keepAlive,
        `processState, `connState, `hasError, `served, `rounds, socket
      ensures Ledger() && Fits() && Processed(old(DialogueNow()), r, Paused())
      ensures Pending() <= old(Pending())
      ensures connState == old(connState) || connState == DISCONNECTING
      ensures !hasError && processState != FINISH ==>
        Waiting() && Drained() && served == old(served)
      ensures processState == FINISH ==> Pending() < old(Pending()) && !hasError
      ensures processState == FINISH <==> served != old(served)
      ensures old(connState) == DISCONNECTING ==>
        !hasError && processState == old(processState)
    {
      hide Parsed, Processed, Received, Wire, Ended;
      r := Receive();
      ghost var v, m := old(DialogueNow()), DialogueNow();
      if connState == DISCONNECTING {
        readBuffer := "";
        ReceivedWithoutParse(v, r, m, Paused());
        return;
      }
      if r.failed {
        Fail();
        ReceivedWithoutParse(v, r, m, Paused());
        return;
      } else if r.ended {
        connState := DISCONNECTING;
        if |r.bytes| == 0 {
          ReceivedWithoutParse(v, r, m, Paused());
          return;
        }
      }
      ProcessBuffered();
      ReceivedAndParsed(v, r, m, Paused());
    }

    /** The read, with what it reported. */
    method Receive() returns (r: Round)
      requires Fits() && !hasError
      modifies `readBuffer, `rounds, socket`unread, socket`hiccups, socket`stops
      ensures Received(old(DialogueNow()), r, DialogueNow())
      ensures |readBuffer| + |socket.unread| == old(Pending())
      ensures Ended(rounds) <==> old(Ended(rounds)) || r.ended
      ensures r.ended ==> socket.unread == "" && !r.failed
    {
      var readSize, buffer, zero := ReadFromFd(socket, readBuffer);
      r := Round(buffer[|readBuffer|..], zero, readSize < 0);
      assert buffer == readBuffer + r.bytes;
      rounds, readBuffer := rounds + [r], buffer;
    }

    /** The parsing and processing half of that block. */
    method ProcessBuffered()
      requires !hasError && connState != DISCONNECTED && Waiting() && Ledger()
      modifies `readBuffer, `writeBuffer, `fields, `headers, `lineState, `keepAlive,
        `processState, `hasError, `served, socket`delivered, socket`hiccups, socket`refusals
      ensures Ledger() && Parsed(old(DialogueNow()), Paused())
      ensures |readBuffer| <= |old(readBuffer)|
      ensures !hasError && processState != FINISH ==>
        Waiting() && Drained() && served == old(served)
      ensures processState == FINISH ==> |readBuffer| < |old(readBuffer)| && !hasError
      ensures processState == FINISH <==> served != old(served)
    {
      hide Parses, Wire, KeptAlive;
      ProcessLine();
      PassesOn();
    }

    twostate lemma PassesOn()
      requires !old(hasError) && Tells() && !(old(processState) == FINISH)
      requires Parses(old(Snapshot()), old(PhaseNow()), old(served), Rested())
      requires KeptAlive(old(served), old(keepAlive), served, keepAlive, hasError)
      requires rounds == old(rounds) && socket.unread == old(socket.unread)
      requires socket.stops == old(socket.stops) && writeFailed == old(writeFailed)
      requires !hasError && served == old(served) ==> writeBuffer == old(writeBuffer)
      requires !hasError && processState == PARSE_URI ==> readBuffer == old(readBuffer)
      requires processState == FINISH ==> served != old(served)
      ensures Parsed(old(DialogueNow()), Paused())
    {
      hide Parses, KeptAlive;
    }

    /** The request line, and what follows it. */
    method ProcessLine()
      requires !hasError && connState != DISCONNECTED && Waiting() && Ledger()
      modifies `readBuffer, `writeBuffer, `fields, `headers, `lineState, `keepAlive,
        `processState, `hasError, `served, socket`delivered, socket`hiccups, socket`refusals
      ensures Ledger() && Tells()
      ensures Parses(old(Snapshot()), old(PhaseNow()), old(served), Rested())
      ensures KeptAlive(old(served), old(keepAlive), served, keepAlive, hasError)
      ensures |readBuffer| <= |old(readBuffer)|
      ensures !hasError && processState != FINISH ==>
        Waiting() && Drained() && served == old(served)
      ensures processState == FINISH ==> |readBuffer| < |old(readBuffer)| && !hasError
      ensures processState == FINISH <==> served != old(served)
      ensures !hasError && processState == PARSE_URI ==> readBuffer == old(readBuffer)
      ensures !hasError && served == old(served) ==> writeBuffer == old(writeBuffer)
    {
      hide RequestLine.ParseUri, HeaderLines.Parse, Wire, KeptAlive, Parses;
      ghost var p, phase := Snapshot(), PhaseNow();
      KeptAsItWas(served, keepAlive, false);
      KeptAsItWas(served, keepAlive, true);
      if processState == PARSE_URI {
        RequestLine.MoreInputIsAppended(readBuffer, "", RequestLine.TERMINATOR, fields);
        var v := ParseURI();
        if v == RequestLine.UriAgain {
          LineWaits(p, phase, served);
          return;
        } else if v == RequestLine.UriError {
          Fail();
          LineFails(p, phase, served, Rested());
          return;
        }
        processState := PARSE_HEADER;
      }
      if processState == PARSE_HEADER {
        ghost var q := Snapshot();
        ProcessBlock();
        ParsesAlike(p, q, phase, old(served), Rested());
      } else {
        LineWaits(p, phase, served);
      }
    }

    /** The same behind the request line: the header block and the answer. */
    method ProcessBlock()
      requires !hasError && processState == PARSE_HEADER && lineState != HeaderLines.END_LF
      requires Ledger()
      modifies `readBuffer, `writeBuffer, `headers, `lineState, `keepAlive, `processState,
        `hasError, `served, socket`delivered, socket`hiccups, socket`refusals
      ensures Ledger() && Tells()
      ensures |readBuffer| <= |old(readBuffer)|
      ensures !hasError && processState != FINISH ==>
        Waiting() && processState != PARSE_URI && served == old(served)
      ensures processState == FINISH ==> |readBuffer| < |old(readBuffer)| && !hasError
      ensures Parses(old(Snapshot()), old(PhaseNow()), old(served), Rested())
      ensures processState == FINISH <==> served != old(served)
      ensures KeptAlive(old(served), old(keepAlive), served, keepAlive, hasError)
      ensures !hasError && served == old(served) ==> writeBuffer == old(writeBuffer)
    {
      hide HeaderLines.Parse, Wire, Takes, Waits, MayFail, KeptAlive, KeepsAlive;
      ghost var p := Snapshot();
      KeptAsItWas(served, keepAlive, false);
      KeptAsItWas(served, keepAlive, true);
      var v := ParseHeadersOrStray();
      if v == HeaderLines.HeaderAgain {
        BlockWaits(p, Snapshot());
        return;
      } else if v == HeaderLines.HeaderError {
        BlockFails(p);
        Fail();
        return;
      }
      processState := if fields.verb == RequestLine.POST then PARSE_BODY else PROCESS;
      if processState == PROCESS {
        BlockFails(p);
        var success := ProcessRequest();
        if !success {
          KeptAfterFailure(served, old(keepAlive), keepAlive);
          Fail();
          return;
        }
        ghost var e := served[|served| - 1];
        BlockTaken(p, e, readBuffer);
        KeptByAnswer(old(served), e, old(keepAlive));
        processState := FINISH;
      } else {
        BlockWaits(p, Snapshot());
      }
    }

    /** The kernel was told of an error, as far as it listened, and of nothing else. */
    twostate predicate Tells()
      reads `hasError, socket`delivered, socket`refusals
    {
      && old(socket.delivered) <= socket.delivered && old(socket.refusals) <= socket.refusals
      && ((socket.delivered != old(socket.delivered) || socket.refusals != old(socket.refusals))
            <==> hasError)
    }

    /** An error is recorded and answered at once. */
    method Fail()
      requires socket.user == this
      modifies `hasError, socket`delivered, socket`hiccups, socket`refusals
      ensures hasError && Ledger() && old(socket.delivered) <= socket.delivered
      ensures old(socket.refusals) <= socket.refusals
      ensures socket.delivered != old(socket.delivered) || socket.refusals != old(socket.refusals)
    {
      hasError := true;
      var header: string, body: string := *, *;
      HandleError("HTTP/1.1 400" + header, body);
    }

    /** Unlinks the timer: its node stays queued, flagged deleted. */
    method SeparateTimer()
      requires epoll.Core() && this in epoll.conns
      modifies `timer, Timers()`data, Timers()`deleted
      ensures epoll.Core() && timer == null
    {
      if timer != null && timer.alive {
        timer.ClearNode();
      }
      timer := null;
    }

    method HandleClose()
      requires epoll.Core() && this in epoll.conns && connState != DISCONNECTED
      modifies `connState, `closes, epoll`kernel, epoll`fd2channel, epoll`fd2http
      ensures epoll.Core() && connState == DISCONNECTED
      ensures epoll.Without(channel.fd)
    {
      closes := closes + 1;
      connState := DISCONNECTED;
      var erased := epoll.EpollDel(channel);
      assert erased == 1;
    }

    method Reset()
      requires epoll.Core() && this in epoll.conns
      modifies `fields, `processState, `lineState, `headers
      modifies `timer, Timers()`data, Timers()`deleted
      ensures epoll.Core() && timer == null && Waiting()
      ensures Snapshot() == StartOver(old(fields), readBuffer)
    {
      fields := fields.(path := "");
      processState, lineState := PARSE_URI, HeaderLines.START;
      headers := map[];
      SeparateTimer();
    }

    /** The first half of HandleRead: one round of input, and the output it caused. */
    method ReadAndAnswer() returns (r: Round)
      requires epoll.Core() && this in epoll.conns
      requires !hasError && connState != DISCONNECTED && Waiting() && Ledger() && Fits()
      modifies `readBuffer, `writeBuffer, `fields, `headers, `lineState, `keepAlive,
        `processState, `connState, `hasError, `served, `rounds, `writeFailed, channel`toListen,
        socket
      ensures epoll.Core() && Ledger() && Fits()
      ensures ReadOnce(old(DialogueNow()), old(channel.toListen), r, Paused(), channel.toListen)
      ensures connState == old(connState) || connState == DISCONNECTING
      ensures !hasError && processState != FINISH ==> Waiting() && Drained()
      ensures processState == FINISH ==> Pending() < old(Pending()) && !hasError
      ensures old(connState) == DISCONNECTING ==> !hasError && processState != FINISH
      ensures processState == FINISH <==> served != old(served)
    {
      hide Epoll.Core, Http.Ledger, Http.Drained, Step, KeptAlive, Processed, Spoken, Tried;
      r := ReadAndProcess();
      ghost var m, l := Paused(), channel.toListen;
      Flush();
      ProcessThenFlush(old(DialogueNow()), l, r, m, Paused(), channel.toListen);
      epoll.HalfCloseKeepsCore(this);
    }

    /** What is buffered is written at once. */
    method Flush()
      requires Ledger() && connState != DISCONNECTED
      modifies `writeBuffer, `writeFailed, channel`toListen, socket`delivered, socket`hiccups,
        socket`refusals
      ensures Ledger()
      ensures if !hasError && old(writeBuffer) != ""
              then Flushed(old(Paused()), old(channel.toListen), Paused(), channel.toListen)
              else Paused() == old(Paused()) && channel.toListen == old(channel.toListen)
    {
      hide Http.Ledger;
      if !hasError && |writeBuffer| > 0 {
        HandleWrite();
      }
    }

    method HandleRead()
      requires epoll.Core() && this in epoll.conns
      requires !hasError && connState != DISCONNECTED && Waiting() && Ledger() && Fits()
      modifies `readBuffer, `writeBuffer, `fields, `headers, `lineState, `keepAlive,
        `processState, `connState, `hasError, `served, `rounds, `writeFailed, `closes, `timer
      modifies Timers()`data, Timers()`deleted, channel`toListen, socket,
        epoll`kernel, epoll`fd2channel, epoll`fd2http
      ensures epoll.Core() && Ledger() && Fits() && Timers() <= old(Timers())
      ensures hasError <==> connState == DISCONNECTED
      ensures !hasError ==> Waiting() && Drained() && unchanged(epoll)
      ensures hasError ==> epoll.Without(channel.fd)
      ensures connState == old(connState) || connState == DISCONNECTING || hasError
      ensures old(connState) == DISCONNECTING ==>
        connState == DISCONNECTING && served == old(served)
      ensures ReadAll(old(DialogueNow()), old(channel.toListen), DialogueNow(), channel.toListen)
      decreases Pending(), 1
    {
      hide Epoll.Core, Step, Serves, Wire, Http.Snapshot, Lasts, Keeps, Spoken, Tried, Ended,
        ReadAll;
      var events := channel.toListen;
      var r := ReadAndAnswer();
      ghost var m, k := Paused(), channel.toListen;
      label Read:
      if hasError {
        HandleClose();
      } else if processState == FINISH {
        NextRequest();
      } else {
        channel.toListen := events + {IN};
        epoll.HalfCloseKeepsCore@Read(this);
      }
      ReadOnceAndOn(old(DialogueNow()), events, r, m, k, DialogueNow(), channel.toListen);
    }

    /** Pipelining: after a finished request the buffer may hold another one. */
    method NextRequest()
      requires epoll.Core() && this in epoll.conns
      requires !hasError && connState != DISCONNECTED && processState == FINISH && Ledger()
      requires Fits()
      modifies `readBuffer, `writeBuffer, `fields, `headers, `lineState, `keepAlive,
        `processState, `connState, `hasError, `served, `rounds, `writeFailed, `closes, `timer
      modifies Timers()`data, Timers()`deleted, channel`toListen, socket,
        epoll`kernel, epoll`fd2channel, epoll`fd2http
      ensures epoll.Core() && Ledger() && Fits() && Timers() <= old(Timers())
      ensures hasError <==> connState == DISCONNECTED
      ensures !hasError ==> Waiting() && Drained() && unchanged(epoll)
      ensures hasError ==> epoll.Without(channel.fd)
      ensures connState == old(connState) || connState == DISCONNECTING || hasError
      ensures old(connState) == DISCONNECTING ==>
        connState == DISCONNECTING && served == old(served)
      ensures if old(readBuffer) != "" && old(connState) != DISCONNECTING
              then ReadAll(old(Paused()), old(channel.toListen), DialogueNow(), channel.toListen)
              else DialogueNow() == old(Paused()) && channel.toListen == old(channel.toListen)
      decreases Pending(), 2
    {
      hide Epoll.Core, Step, Serves, Wire, ReadAll;
      Reset();
      if |readBuffer| > 0 && connState != DISCONNECTING {
        HandleRead();
      }
    }

    /** The write and read callbacks of one event, in the order that Channel::HandleEvents
        gives them. */
    method Talk(active: Events)
      requires epoll.Core() && this in epoll.conns && Quiet() && connState != DISCONNECTED
      modifies `readBuffer, `writeBuffer, `fields, `headers, `lineState, `keepAlive,
        `processState, `connState, `hasError, `served, `rounds, `writeFailed, `closes, `timer
      modifies Timers()`data, Timers()`deleted, channel`toListen, socket,
        epoll`kernel, epoll`fd2channel, epoll`fd2http
      ensures epoll.Core() && Ledger() && Fits() && Lived() && Timers() <= old(Timers())
      ensures hasError <==> connState == DISCONNECTED
      ensures !hasError ==> Waiting() && Drained() && unchanged(epoll)
      ensures hasError ==> epoll.Without(channel.fd)
      ensures old(connState) == DISCONNECTING ==>
        connState == DISCONNECTING && served == old(served)
      ensures Talked(old(DialogueNow()), old(channel.toListen), active,
                     DialogueNow(), channel.toListen)
      ensures Ages()
      ensures epoll.Deadlines() - {this} == old(epoll.Deadlines()) - {this}
    {
      hide Epoll.Deadlines, Epoll.Core, Http.Ledger, Http.Waiting, Http.Drained, Serves, Runs,
        AnyKeepsAlive;
      if OUT in active {
        HandleWrite();
        epoll.HalfCloseKeepsCore(this);
      }
      ghost var m, k := DialogueNow(), channel.toListen;
      if Readable(active) {
        HandleRead();
      }
      WriteThenRead(old(DialogueNow()), old(channel.toListen), active, m, k,
                    DialogueNow(), channel.toListen);
      LivesOn(active);
      epoll.DeadlinesApart(this);
    }

    /** The callbacks of one event. In between the channel listens for `k`, and the connection is
        in the state `mid`. */
    method Call(active: Events, now: nat) returns (ghost k: Events, ghost mid: ConnectionState)
      requires epoll.Core() && this in epoll.conns && Quiet() && connState != DISCONNECTED
      modifies `readBuffer, `writeBuffer, `fields, `headers, `lineState, `keepAlive,
        `processState, `connState, `hasError, `served, `rounds, `writeFailed, `closes, `timer
      modifies Timers()`data, Timers()`deleted, channel`toListen, socket
      modifies epoll`kernel, epoll`fd2channel, epoll`fd2http, epoll`queue
      ensures epoll.Core() && Quiet() && epoll.Grows(now) && (timer != null ==> timer.alive)
      ensures Ages() && Ledger() && epoll.KeepsOthers(channel.fd)
      ensures Talked(old(DialogueNow()), old(channel.toListen), active, DialogueNow(), k)
      ensures old(connState) == DISCONNECTING ==> mid == DISCONNECTING && served == old(served)
      ensures mid == if hasError then DISCONNECTED
                     else if Ended(rounds) then DISCONNECTING else CONNECTED
      ensures connState == Outcome(mid, k, keepAlive)
      ensures AlarmNow() == if connState == CONNECTED then On(now, Timeout(keepAlive)) else Off
      ensures match connState
              case CONNECTED =>
                && epoll.kernel == old(epoll.kernel)[channel.fd :=
                     if k == {} then {IN, ET} else {OUT, ET}]
                && epoll.fd2channel == old(epoll.fd2channel)
                && epoll.fd2http == old(epoll.fd2http)
              case DISCONNECTING => epoll.Same()
              case DISCONNECTED => epoll.Without(channel.fd)
      ensures epoll.Deadlines() ==
        if connState != CONNECTED then old(epoll.Deadlines()) - {this}
        else (old(epoll.Deadlines()) - {this})[this := Clock.Deadline(now, Timeout(keepAlive))]
    {
      hide Epoll.Deadlines, Epoll.Core, Http.Ledger, Http.Quiet, Wire, Http.Waiting, Http.Drained,
        Http.Lived, Http.DialogueNow, Talked, Ended;
      Talk(active);
      k, mid := channel.toListen, connState;
      HandleCurrentConn(now);
    }

    /** One event: the write, the read and the connection callback. */
    method React(active: Events, now: nat)
      requires epoll.Core() && this in epoll.conns && Quiet() && connState != DISCONNECTED
      modifies `readBuffer, `writeBuffer, `fields, `headers, `lineState, `keepAlive,
        `processState, `connState, `hasError, `served, `rounds, `writeFailed, `closes, `timer
      modifies Timers()`data, Timers()`deleted, channel`toListen, socket
      modifies epoll`kernel, epoll`fd2channel, epoll`fd2http, epoll`queue
      ensures epoll.Core() && Quiet() && epoll.Grows(now) && (timer != null ==> timer.alive)
      ensures Ages()
      ensures if connState == DISCONNECTED then epoll.Without(channel.fd)
              else epoll.fd2channel == old(epoll.fd2channel) && epoll.fd2http == old(epoll.fd2http)
      ensures old(channel.toListen) == {} ==> Event(old(Look()), active, now, Look())
      ensures HalfCloseDecided(active, OUT in old(channel.toListen))
      ensures epoll.KeepsOthers(channel.fd)
      ensures connState == CONNECTED ==> Armed()
      ensures connState == DISCONNECTING ==> epoll.kernel == old(epoll.kernel)
      ensures connState == CONNECTED && writeBuffer != "" && Ready(active) ==>
        channel.fd in epoll.kernel && epoll.kernel[channel.fd] == {OUT, ET}
      ensures epoll.Deadlines() ==
        if connState != CONNECTED then old(epoll.Deadlines()) - {this}
        else (old(epoll.Deadlines()) - {this})[this := Clock.Deadline(now, Timeout(keepAlive))]
    {
      hide Epoll.Deadlines, Epoll.Core, Http.Ledger, Http.Quiet, Http.CutShort, Wire, Http.Ages,
        Http.AlarmNow, Talked, Event, Ended;
      ghost var k, mid := Call(active, now);
      OutputDecides(old(DialogueNow()), old(channel.toListen), active, DialogueNow(), k);
      if old(channel.toListen) == {} {
        TalkedThenSettled(old(Look()), active, now, Look(), k, mid);
      }
      OwedOutput();
    }

    /** The channel learns its connection and what to listen for. */
    method Attach()
      requires epoll.Nodes() && this !in epoll.conns && timer == null
      modifies channel`holder, channel`toListen, epoll`conns
      ensures epoll.Nodes() && epoll.Deadlines() == old(epoll.Deadlines())
      ensures epoll.conns == old(epoll.conns) + {this}
      ensures channel.holder == this && channel.toListen == {IN, ET}
    {
      channel.holder := this;
      channel.toListen := {IN, ET};
      epoll.conns := epoll.conns + {this};
      epoll.NodesGrow(this);
    }

    /** The connection is taken into its loop, with its first timer. */
    method Init(now: nat)
      requires epoll.Core() && this !in epoll.conns && channel.fd !in epoll.fd2channel
      requires channel.epoll == epoll && channel.holder == null && timer == null
      requires connState == CONNECTED && closes == 0 && channel !in epoll.Links()
      modifies channel`holder, channel`toListen, `timer, epoll
      ensures epoll.Core() && AlarmNow() == On(now, DEFAULT_EXPIRE_TIME)
      ensures epoll.conns == old(epoll.conns) + {this} && epoll.IsRegistered(channel)
      ensures epoll.Grows(now)
      ensures epoll.fd2channel == old(epoll.fd2channel)[channel.fd := channel]
      ensures epoll.kernel == old(epoll.kernel)[channel.fd := {IN, ET}]
      ensures epoll.Deadlines()
           == old(epoll.Deadlines())[this := Clock.Deadline(now, DEFAULT_EXPIRE_TIME)]
    {
      hide Epoll.Deadlines;
      Attach();
      epoll.EpollAdd(channel, DEFAULT_EXPIRE_TIME, now);
      epoll.EntryKeepsMaps(this);
    }

    /** Init as the loop sees it. */
    method Join(now: nat)
      requires epoll.Boundary() && this !in epoll.conns && channel.fd !in epoll.fd2channel
      requires IsNew()
      requires channel !in epoll.Links() && channel !in epoll.Registered()
      modifies channel`holder, channel`toListen, `timer, epoll
      ensures epoll.Boundary() && epoll.Grows(now) && epoll.conns == old(epoll.conns) + {this}
      ensures Look() == NewView(socket.input, keepAlive, now)
      ensures epoll.fd2channel == old(epoll.fd2channel)[channel.fd := channel]
      ensures forall h :: h in old(epoll.conns) ==> h.Look() == old(h.Look())
      ensures old(epoll.Bare()) <= epoll.Bare()
      ensures forall o :: o in epoll.Repr() ==>
        o in old(epoll.Repr()) || fresh(o) || o in {this, channel, socket}
      ensures forall h :: h in old(epoll.conns) ==> h.Ages()
    {
      hide Epoll.Repr, Epoll.Bare, Http.Lived, Http.Ledger, Http.Fits, Http.Waiting, Http.Drained,
        Http.DialogueNow, Http.Look;
      Init(now);
      epoll.EntryKeepsQuiet(this);
      epoll.EntryLooksSame(this);
      LooksNew(now);
      epoll.EntryKeepsBare(this);
      epoll.EntryKeepsRepr(this);
    }

    lemma LooksNew(now: nat)
      requires DialogueIsNew() && AlarmNow() == On(now, DEFAULT_EXPIRE_TIME)
      requires connState == CONNECTED && channel.fd in epoll.kernel
      requires epoll.kernel[channel.fd] == {IN, ET}
      ensures Look() == NewView(socket.input, keepAlive, now) && Armed()
    {
    }

    /** What looks the same has not gone back. */
    twostate lemma SameAges()
      requires Look() == old(Look())
      ensures Ages()
    {
    }

    /** A connection that stays open is armed for one direction and gets a new deadline. */
    method KeepOpen(events: Events, now: nat)
      requires epoll.Core() && this in epoll.conns && timer == null
      requires connState == CONNECTED && (events != {} || keepAlive)
      modifies `timer, channel`toListen, epoll`kernel, epoll`queue
      ensures epoll.Core() && HasTimer()
      ensures epoll.Grows(now)
      ensures AlarmNow() == On(now, Timeout(keepAlive))
      ensures channel.toListen == if events == {} then {IN, ET} else {OUT, ET}
      ensures epoll.kernel == old(epoll.kernel)[channel.fd := channel.toListen]
      ensures epoll.Deadlines()
           == old(epoll.Deadlines())[this := Clock.Deadline(now, Timeout(keepAlive))]
    {
      channel.toListen := if events != {} then {OUT, ET} else {IN, ET};
      var timeout := Timeout(keepAlive);
      epoll.EpollModify(channel, timeout, now);
    }

    /** The last step of every event: arm the descriptor and a new timer, or close. */
    method HandleCurrentConn(now: nat)
      requires epoll.Core() && this in epoll.conns && Ledger() && Fits() && Lived()
      requires hasError <==> connState == DISCONNECTED
      requires !hasError ==> Waiting() && Drained()
      modifies `connState, `closes, `timer, Timers()`data, Timers()`deleted, channel`toListen,
        epoll`kernel, epoll`fd2channel, epoll`fd2http, epoll`queue
      ensures epoll.Core() && Quiet() && Ledger() && (timer != null ==> timer.alive)
      ensures epoll.Grows(now) && epoll.KeepsOthers(channel.fd)
      ensures Settled(old(epoll.Deadlines()) - {this}, now)
      ensures connState == Outcome(old(connState), old(channel.toListen), keepAlive)
      ensures AlarmNow() == if connState == CONNECTED then On(now, Timeout(keepAlive)) else Off
    {
      hide Epoll.Core, Http.Ledger, Http.Lived, Http.Waiting;
      SeparateTimer();
      epoll.DeadlinesWithout(this);
      Settle(now);
    }

    /** The decision that follows the unlinking of the timer. */
    method Settle(now: nat)
      requires epoll.Core() && this in epoll.conns && timer == null
      requires hasError <==> connState == DISCONNECTED
      modifies `connState, `closes, `timer, channel`toListen,
        epoll`kernel, epoll`fd2channel, epoll`fd2http, epoll`queue
      ensures epoll.Core() && (HasTimer() <==> connState == CONNECTED)
      ensures timer != null ==> timer.alive
      ensures epoll.Grows(now)
      ensures Settled(old(epoll.Deadlines()), now)
      ensures AlarmNow() == if connState == CONNECTED then On(now, Timeout(keepAlive)) else Off
    {
      hide Epoll.Deadlines;
      var events := channel.toListen;
      if !hasError && connState == CONNECTED {
        if events != {} || keepAlive {
          KeepOpen(events, now);
        } else {
          HandleClose();
          epoll.DeadlinesSame();
        }
      } else if !hasError && connState == DISCONNECTING {
        Linger(events);
        epoll.DeadlinesSame();
      }
    }

    /** A half-closed connection stays while output is announced, but is not armed for it. */
    method Linger(events: Events)
      requires epoll.Core() && this in epoll.conns && connState == DISCONNECTING
      modifies `connState, `closes, channel`toListen,
        epoll`kernel, epoll`fd2channel, epoll`fd2http
      ensures epoll.Core()
      ensures if OUT in events then connState == DISCONNECTING && unchanged(epoll)
              else connState == DISCONNECTED && epoll.Without(channel.fd)
    {
      if OUT in events {
        channel.toListen := {OUT, ET};
      } else {
        HandleClose();
      }
    }

    /** What HandleCurrentConn does to each kind of connection. */
    twostate predicate Settled(timers: map<Http, nat>, now: nat)
      reads *
    {
      var events, fd := old(channel.toListen), channel.fd;
      match old(connState)
      case CONNECTED =>
        if events == {} && !keepAlive then
          connState == DISCONNECTED && epoll.Without(fd) && epoll.Deadlines() == timers
        else
          && connState == CONNECTED
          && channel.toListen == (if events == {} then {IN, ET} else {OUT, ET})
          && epoll.kernel == old(epoll.kernel)[fd := channel.toListen]
          && epoll.fd2channel == old(epoll.fd2channel)
          && epoll.fd2http == old(epoll.fd2http)
          && epoll.Deadlines() == timers[this := Clock.Deadline(now, Timeout(keepAlive))]
      case DISCONNECTING =>
        && epoll.Deadlines() == timers
        && (if OUT in events
            then connState == DISCONNECTING && epoll.Same()
            else connState == DISCONNECTED && epoll.Without(fd))
      case DISCONNECTED =>
        connState == DISCONNECTED && epoll.Same() && epoll.Deadlines() == timers
    }
  }

  // ---------------------------------------------------------------- Epoll.cpp

  class Epoll {
    var kernel: map<int, Events>       // the interest set behind epoll_fd_
    var fd2channel: map<int, Channel?>
    var fd2http: map<int, Http?>
    var queue: set<TimerNode>          // timer_manager_.timer_node_queue_
    ghost var conns: set<Http>         // every connection that was ever initialised here

    constructor ()
      ensures kernel == map[] && fd2channel == map[] && fd2http == map[]
      ensures queue == {} && conns == {} && Nodes()
    {
      kernel, fd2channel, fd2http, queue, conns := map[], map[], map[], {}, {};
    }

    ghost function Links(): set<Channel>
      reads `conns
    {
      set h: Http | h in conns :: h.channel
    }

    ghost function Registered(): set<Channel>
      reads `fd2channel
    {
      set fd | fd in fd2channel && fd2channel[fd] != null :: fd2channel[fd]
    }

    ghost function ConnTimers(): set<TimerNode>
      reads `conns, conns`timer
    {
      set h: Http | h in conns && h.timer != null :: h.timer
    }

    /** The two maps and the kernel agree, and every entry is linked to its connection. */
    ghost predicate Maps()
      reads `kernel, `fd2channel, `fd2http, `conns, Registered()`holder
    {
      && kernel.Keys == fd2channel.Keys == fd2http.Keys
      && (forall fd :: fd in fd2channel ==>
            && fd2channel[fd] != null && fd2channel[fd].fd == fd
            && fd2channel[fd].epoll == this
            && fd2channel[fd].holder == fd2http[fd]
            && (fd2http[fd] != null ==>
                  fd2http[fd] in conns && fd2http[fd].channel == fd2channel[fd]))
    }

    ghost predicate IsRegistered(c: Channel)
      reads `fd2channel
    {
      c.fd in fd2channel && fd2channel[c.fd] == c
    }

    /** A connection is registered until its one close. */
    ghost predicate Lives()
      reads `fd2channel, `conns, conns`connState, conns`closes, Links()`holder
    {
      forall h :: h in conns ==>
        && h.epoll == this && h.channel.holder == h && h.channel.epoll == this
        && (h.connState != DISCONNECTED <==> IsRegistered(h.channel))
        && h.closes == (if h.connState == DISCONNECTED then 1 else 0)
    }

    /** A node is live, or flagged deleted without data; a live node is the timer of its data. */
    ghost predicate Nodes()
      reads `queue, `conns, conns`timer, queue, ConnTimers()
    {
      && (forall n :: n in queue ==>
            && n.alive && (n.deleted <==> n.data == null)
            && n.expireTime == Clock.Deadline(n.created, n.timeout)
            && (n.data != null ==> n.data in conns && n.data.timer == n))
      && (forall h :: h in conns && h.HasTimer() ==>
            h.timer in queue && h.timer.data == h)
    }

    /** What holds at every point outside the registry's own methods. */
    ghost predicate Core()
      reads `kernel, `fd2channel, `fd2http, `conns, Registered()`holder
      reads conns`connState, conns`closes, Links()`holder
      reads `queue, conns`timer, queue, ConnTimers()
    {
      Maps() && Lives() && Nodes()
    }

    /** A connection that changes in none of the shared fields, or is half closed, breaks none
        of this. */
    twostate lemma HalfCloseKeepsCore(h: Http)
      requires old(Core()) && h in old(conns)
      requires unchanged(this) && unchanged(conns - {h}) && unchanged(queue)
      requires unchanged(old(ConnTimers()))
      requires forall c :: c in Links() + Registered() ==> c.holder == old(c.holder)
      requires h.timer == old(h.timer) && h.closes == old(h.closes)
      requires h.connState != DISCONNECTED && old(h.connState) != DISCONNECTED
      ensures Core()
    {
    }

    /** The plain map that the queue of nodes stands for. */
    ghost function Deadlines(): map<Http, nat>
      reads `conns, conns`timer, ConnTimers()`alive
    {
      map h | h in conns && h.HasTimer() :: h.timer.expireTime
    }

    twostate lemma DeadlinesWithout(h: Http)
      requires conns == old(conns) && unchanged(conns - {h}) && h.timer == null
      requires forall n :: n in old(ConnTimers()) ==> n.alive == old(n.alive)
      ensures Deadlines() == old(Deadlines()) - {h}
    {
    }

    twostate lemma DeadlinesApart(h: Http)
      requires conns == old(conns) && unchanged(conns - {h})
      requires forall n :: n in old(ConnTimers()) ==> n.alive == old(n.alive)
      ensures Deadlines() - {h} == old(Deadlines()) - {h}
    {
    }

    twostate lemma NodesGrow(h: Http)
      requires conns == old(conns) + {h} && h.timer == null && old(allocated(h))
      requires forall o :: o in old(conns) ==> o.timer == old(o.timer)
      requires unchanged(old(ConnTimers())) && unchanged(old(queue)) && queue == old(queue)
      requires old(Nodes())
      ensures Nodes() && Deadlines() == old(Deadlines())
    {
    }

    /** Everything that belongs to the loop. */
    ghost function Repr(): set<object>
      reads `conns, `fd2channel, `queue, conns`timer
    {
      {this} + conns + Links() + (set h: Http | h in conns :: h.socket)
      + Registered() + queue + ConnTimers()
    }

    /** The channels without a connection: for waking up and for listening. */
    ghost function Bare(): set<Channel>
      reads `fd2channel, Registered()`holder
    {
      set c | c in Registered() && c.holder == null
    }

    /** Only connections leave the registry. */
    twostate predicate KeepsBare()
      reads this, Registered()
    {
      Registered() <= old(Registered()) && old(Bare()) <= Bare()
    }

    /** Closing a connection removes no other channel. */
    twostate lemma ClosingKeepsBare(h: Http)
      requires old(Maps()) && old(IsRegistered(h.channel)) && old(h.channel.holder) == h
      requires fd2channel == old(fd2channel) || Without(h.channel.fd)
      requires forall c :: c in old(Registered()) ==> c.holder == old(c.holder)
      ensures KeepsBare()
    {
      forall c | c in old(Bare())
        ensures c in Bare()
      {
        assert old(fd2channel)[c.fd] == c;
        assert c.fd in fd2channel && fd2channel[c.fd] == c;
      }
    }

    /** Connections are never forgotten and never reopened, and nothing of them is taken back. */
    twostate predicate Progress()
      reads this, conns, Registered(), set h | h in conns :: h.socket
    {
      && fresh(Repr() - old(Repr())) && old(conns) <= conns && old(Bare()) <= Bare()
      && forall h :: h in old(conns) ==> h.Ages()
    }

    twostate lemma EventProgress(h: Http)
      requires conns == old(conns) && unchanged(conns - {h})
      requires forall n :: n in queue && n !in old(queue) ==> fresh(n)
      requires h.timer != null ==> h.timer in queue
      requires h.Ages() && forall o :: o in conns && o.socket != h.socket ==> unchanged(o.socket)
      requires old(h.connState) != DISCONNECTED && old(h.channel.holder) == h
      requires old(Maps()) && old(IsRegistered(h.channel))
      requires fd2channel == old(fd2channel) || Without(h.channel.fd)
      requires forall c :: c in old(Registered()) ==> c.holder == old(c.holder)
      ensures Progress()
    {
      ClosingKeepsBare(h);
    }

    /** What holds between two steps of the loop. */
    ghost predicate Boundary()
      reads *
    {
      && Core()
      && forall h :: h in conns ==> h.Quiet() && (h.connState != DISCONNECTED ==> h.Armed())
    }

    /** A connection that is new to the loop leaves the others as they were. */
    twostate lemma EntryKeepsQuiet(h: Http)
      requires old(Boundary()) && h !in old(conns) && conns == old(conns) + {h}
      requires unchanged(old(conns)) && h.Quiet()
      requires forall o :: o in old(conns) ==> unchanged(o.socket)
      requires unchanged(old(ConnTimers()))
      ensures forall o :: o in conns ==> o.Quiet()
      ensures forall o :: o in old(conns) ==> o.DialogueNow() == old(o.DialogueNow())
      ensures forall o :: o in old(conns) ==> o.AlarmNow() == old(o.AlarmNow())
      ensures forall o :: o in old(conns) ==> o.Ages()
    {
    }

    /** Nor can anything be seen to have changed of them. */
    twostate lemma EntryLooksSame(h: Http)
      requires old(Boundary()) && unchanged(old(conns)) && h.channel.fd !in old(kernel)
      requires kernel == old(kernel)[h.channel.fd := {IN, ET}]
      requires forall o :: o in old(conns) ==>
        o.DialogueNow() == old(o.DialogueNow()) && o.AlarmNow() == old(o.AlarmNow())
      ensures forall o :: o in old(conns) ==> o.Look() == old(o.Look())
      ensures forall o :: o in old(conns) && o.connState != DISCONNECTED ==> o.Armed()
    {
      hide Http.Quiet, Http.DialogueNow, Http.AlarmNow;
      forall o | o in old(conns)
        ensures o.Look() == old(o.Look()) && (o.connState != DISCONNECTED ==> o.Armed())
      {
        if o.connState != DISCONNECTED {
          assert old(IsRegistered(o.channel) && o.Armed());
          assert o.channel.fd in old(kernel);
        }
      }
    }

    twostate lemma EntryKeepsBare(h: Http)
      requires fd2channel == old(fd2channel)[h.channel.fd := h.channel]
      requires h.channel.fd !in old(fd2channel) && h.channel !in old(Registered())
      requires forall c :: c in old(Registered()) ==> c.holder == old(c.holder)
      ensures old(Bare()) <= Bare()
    {
      forall c | c in old(Bare())
        ensures c in Bare()
      {
        var fd :| fd in old(fd2channel) && old(fd2channel)[fd] == c;
        assert fd in fd2channel && fd2channel[fd] == c;
      }
    }

    twostate lemma EntryKeepsRepr(h: Http)
      requires conns == old(conns) + {h} && unchanged(old(conns))
      requires fd2channel == old(fd2channel)[h.channel.fd := h.channel]
      requires h.timer != null && h.timer in queue
      requires forall n :: n in queue && n !in old(queue) ==> fresh(n)
      ensures forall o :: o in Repr() ==>
        o in old(Repr()) || fresh(o) || o in {h, h.channel, h.socket}
    {
    }

    /** A fresh descriptor enters all three maps at once. */
    twostate lemma EntryKeepsMaps(h: Http)
      requires old(Maps() && Lives()) && conns == old(conns) + {h} && h !in old(conns)
      requires h.channel.fd !in old(fd2channel)
      requires fd2channel == old(fd2channel)[h.channel.fd := h.channel]
      requires fd2http == old(fd2http)[h.channel.fd := h]
      requires kernel.Keys == old(kernel.Keys) + {h.channel.fd}
      requires h.epoll == this && h.channel.epoll == this && h.channel.holder == h
      requires h.connState == CONNECTED && h.closes == 0
      requires forall o :: o in old(conns) ==>
        o.connState == old(o.connState) && o.closes == old(o.closes)
      requires old(allocated(h.channel))
      requires forall c :: c in old(Links() + Registered()) && c != h.channel ==>
        c.holder == old(c.holder)
      requires h.channel !in old(Links())
      ensures Maps() && Lives()
    {
    }

    /** An event of one connection leaves the others as they were. */
    twostate lemma OthersStayQuiet(h: Http)
      requires old(Boundary()) && h in old(conns) && conns == old(conns)
      requires unchanged(conns - {h})
      requires forall o :: o in conns && o.socket != h.socket ==> unchanged(o.socket)
      requires forall o :: o in conns && o != h && o.timer != null ==>
        o.timer.alive == old(o.timer.alive)
      ensures forall o :: o in conns && o != h ==> o.Quiet()
    {
    }

    /** Nor does it change anything that can be seen of them. */
    twostate lemma OthersLookSame(h: Http)
      requires old(Boundary()) && h in old(conns) && conns == old(conns)
      requires unchanged(conns - {h}) && KeepsOthers(h.channel.fd)
      requires forall o :: o in conns && o.socket != h.socket ==> unchanged(o.socket)
      requires forall o :: o in conns && o != h && o.timer != null ==>
        o.timer.alive == old(o.timer.alive)
      requires old(h.connState) != DISCONNECTED
      ensures forall o :: o in conns && o != h ==> o.Look() == old(o.Look())
      ensures forall o :: o in conns && o != h && o.connState != DISCONNECTED ==> o.Armed()
    {
      forall o | o in conns && o != h
        ensures o.Look() == old(o.Look()) && (o.connState != DISCONNECTED ==> o.Armed())
      {
        assert old(o.Quiet() && h.Quiet());
        assert o.DialogueNow() == old(o.DialogueNow());
        if o.connState != DISCONNECTED {
          assert old(IsRegistered(o.channel) && IsRegistered(h.channel) && o.Armed());
          var fd := o.channel.fd;
          assert fd != h.channel.fd;
          assert fd in old(kernel) - {h.channel.fd} && fd in kernel - {h.channel.fd};
        }
      }
    }

    method EpollAdd(channel: Channel, timeout: nat, now: nat)
      requires Nodes() && (channel.holder != null ==> channel.holder in conns)
      requires channel.holder != null && timeout > 0 ==> !channel.holder.HasTimer()
      modifies `kernel, `fd2channel, `fd2http, `queue
      modifies (if channel.holder == null then {} else {channel.holder})`timer
      ensures Nodes() && conns == old(conns)
      ensures kernel == if channel.fd in old(kernel) then old(kernel)
                        else old(kernel)[channel.fd := channel.toListen]
      ensures fd2channel == if channel.fd in old(fd2channel) then old(fd2channel)
                            else old(fd2channel)[channel.fd := channel]
      ensures fd2http == if channel.fd in old(fd2http) then old(fd2http)
                         else old(fd2http)[channel.fd := channel.holder]
      ensures Grows(now)
      ensures timeout > 0 && channel.holder != null ==>
        channel.holder.AlarmNow() == On(now, timeout)
      ensures timeout == 0 ==> queue == old(queue)
      ensures Deadlines() ==
        if timeout > 0 && channel.holder != null
        then old(Deadlines())[channel.holder := Clock.Deadline(now, timeout)]
        else old(Deadlines())
    {
      hide Deadlines;
      if channel.fd !in kernel {
        kernel := kernel[channel.fd := channel.toListen];
      }
      DeadlinesSame();
      if timeout > 0 {
        AddTimer(channel, timeout, now);
      }
      label Queued:
      Insert(channel);
      DeadlinesSame@Queued();
    }

    /** `insert` on both maps leaves an existing entry alone. */
    method Insert(channel: Channel)
      modifies `fd2channel, `fd2http
      ensures fd2channel == if channel.fd in old(fd2channel) then old(fd2channel)
                            else old(fd2channel)[channel.fd := channel]
      ensures fd2http == if channel.fd in old(fd2http) then old(fd2http)
                         else old(fd2http)[channel.fd := channel.holder]
    {
      if channel.fd !in fd2channel {
        fd2channel := fd2channel[channel.fd := channel];
      }
      if channel.fd !in fd2http {
        fd2http := fd2http[channel.fd := channel.holder];
      }
    }

    twostate lemma DeadlinesSame()
      requires conns == old(conns)
      requires forall h :: h in conns ==> h.timer == old(h.timer)
      requires forall n :: n in old(ConnTimers()) ==> n.alive == old(n.alive)
      ensures Deadlines() == old(Deadlines())
    {
    }

    /** The registry has lost exactly this descriptor. */
    twostate predicate Without(fd: int)
      reads this
    {
      && kernel == old(kernel) - {fd}
      && fd2channel == old(fd2channel) - {fd}
      && fd2http == old(fd2http) - {fd}
    }

    /** The entries of all other descriptors are as they were. */
    twostate predicate KeepsOthers(fd: int)
      reads this
    {
      && kernel - {fd} == old(kernel) - {fd}
      && fd2channel - {fd} == old(fd2channel) - {fd}
      && fd2http - {fd} == old(fd2http) - {fd}
    }

    /** Only nodes made at `now` have been queued. */
    twostate predicate Grows(now: nat)
      reads `queue
    {
      && old(queue) <= queue
      && forall n :: n in queue && n !in old(queue) ==> fresh(n) && n.created == now
    }

    twostate predicate Same()
      reads this
    {
      kernel == old(kernel) && fd2channel == old(fd2channel) && fd2http == old(fd2http)
    }

    method EpollModify(channel: Channel, timeout: nat, now: nat)
      requires Core() && IsRegistered(channel)
      requires channel.holder != null ==> !channel.holder.HasTimer()
      modifies `kernel, `queue
      modifies (if channel.holder == null then {} else {channel.holder})`timer
      ensures Core()
      ensures kernel == old(kernel)[channel.fd := channel.toListen]
      ensures Grows(now)
      ensures timeout > 0 && channel.holder != null ==>
        channel.holder.AlarmNow() == On(now, timeout)
      ensures Deadlines() ==
        if timeout > 0 && channel.holder != null
        then old(Deadlines())[channel.holder := Clock.Deadline(now, timeout)]
        else old(Deadlines())
    {
      if channel.fd in kernel {
        kernel := kernel[channel.fd := channel.toListen];
      }
      if timeout > 0 {
        AddTimer(channel, timeout, now);
      }
    }

    /** Channels without a connection get no timer. */
    method AddTimer(channel: Channel, timeout: nat, now: nat)
      requires Nodes()
      requires channel.holder != null ==> channel.holder in conns && !channel.holder.HasTimer()
      modifies `queue, (if channel.holder == null then {} else {channel.holder})`timer
      ensures Nodes()
      ensures channel.holder != null ==> channel.holder.AlarmNow() == On(now, timeout)
      ensures Grows(now)
      ensures Deadlines() ==
        if channel.holder == null then old(Deadlines())
        else old(Deadlines())[channel.holder := Clock.Deadline(now, timeout)]
    {
      if channel.holder != null {
        AddTimerNode(channel.holder, timeout, now);
      }
    }

    /** The new node is the live one of its connection. */
    method AddTimerNode(data: Http, timeout: nat, now: nat)
      requires Nodes() && data in conns && !data.HasTimer()
      modifies `queue, data`timer
      ensures Nodes() && data.AlarmNow() == On(now, timeout)
      ensures Grows(now)
      ensures Deadlines() == old(Deadlines())[data := Clock.Deadline(now, timeout)]
    {
      var node := new TimerNode(data, timeout, now);
      queue := queue + {node};
      data.timer := node;
    }

    /** What epoll_wait may report: registered descriptors, each once. */
    ghost predicate Reportable(reported: seq<(int, Events)>)
      reads `kernel
    {
      && (forall i :: 0 <= i < |reported| ==> reported[i].0 in kernel)
      && (forall i, j :: 0 <= i < j < |reported| ==> reported[i].0 != reported[j].0)
    }

    lemma ReprContains()
      ensures forall h :: h in conns ==> h in Repr()
      ensures forall n :: n in queue ==> n in Repr()
      ensures forall c :: c in Registered() ==> c in Repr()
    {
    }

    twostate lemma ReprShrinks()
      requires conns == old(conns) && queue <= old(queue) && KeepsBare()
      requires forall h :: h in conns ==> h.timer == old(h.timer)
      ensures Repr() <= old(Repr())
    {
    }

    /** EpollWait as the loop sees it. */
    method Poll(reported: seq<(int, Events)>) returns (ready: seq<Channel>)
      requires Boundary() && Reportable(reported)
      modifies `fd2channel, Registered()`active, Registered()`toListen
      ensures Boundary() && KeepsBare() && fd2channel == old(fd2channel)
      ensures |ready| == |reported|
      ensures forall i :: 0 <= i < |ready| ==>
        && IsRegistered(ready[i]) && ready[i].toListen == {}
        && ready[i].fd == reported[i].0 && ready[i].active == reported[i].1
      ensures forall i, j :: 0 <= i < j < |ready| ==> ready[i].fd != ready[j].fd
      ensures forall h :: h in conns ==> h.Look() == old(h.Look())
    {
      hide Http.Lived, Http.Ledger, Http.Waiting, Http.Drained, Http.Fits, Http.DialogueNow,
        Http.Mask;
      ready := EpollWait(reported);
    }

    /** The channels of the reported descriptors, with their events; the indexing of the map
        never makes an entry. */
    method EpollWait(reported: seq<(int, Events)>) returns (ready: seq<Channel>)
      requires Maps() && Reportable(reported)
      modifies `fd2channel, Registered()`active, Registered()`toListen
      ensures fd2channel == old(fd2channel) && |ready| == |reported|
      ensures forall i :: 0 <= i < |ready| ==>
        && IsRegistered(ready[i]) && ready[i].fd == reported[i].0
        && ready[i].active == reported[i].1 && ready[i].toListen == {}
      ensures forall c :: c in Registered() && c !in ready ==>
        c.active == old(c.active) && c.toListen == old(c.toListen)
    {
      ready := [];
      for i := 0 to |reported|
        invariant fd2channel == old(fd2channel) && |ready| == i
        invariant forall j :: 0 <= j < i ==>
          && IsRegistered(ready[j]) && ready[j].fd == reported[j].0
          && ready[j].active == reported[j].1 && ready[j].toListen == {}
        invariant forall c :: c in Registered() && c !in ready ==>
          c.active == old(c.active) && c.toListen == old(c.toListen)
      {
        var fd := reported[i].0;
        fd2channel := if fd in fd2channel then fd2channel else fd2channel[fd := null];
        var channel := fd2channel[fd];
        if channel == null { continue; }
        channel.active := reported[i].1;
        channel.toListen := {};
        ready := ready + [channel];
      }
    }

    method EpollDel(channel: Channel) returns (erased: nat)
      modifies `kernel, `fd2channel, `fd2http
      ensures Without(channel.fd)
      ensures erased == if channel.fd in old(fd2channel) then 1 else 0
    {
      var fd := channel.fd;
      kernel := kernel - {fd};
      erased := if fd in fd2channel then 1 else 0;
      fd2channel := fd2channel - {fd};
      fd2http := fd2http - {fd};
    }

    /** A smallest node, as `top` of the priority queue gives it. */
    method Top() returns (node: TimerNode)
      requires queue != {}
      ensures node in queue && forall n :: n in queue ==> node.expireTime <= n.expireTime
    {
      ghost var least := Least(queue);
      node :| node in queue && forall n :: n in queue ==> node.expireTime <= n.expireTime;
    }

    static lemma {:induction false} Least(nodes: set<TimerNode>) returns (m: TimerNode)
      requires nodes != {}
      ensures m in nodes && forall n :: n in nodes ==> m.expireTime <= n.expireTime
      decreases nodes
    {
      var x :| x in nodes;
      var others := nodes - {x};
      m := x;
      if others != {} {
        var l := Least(others);
        if l.expireTime < x.expireTime { m := l; }
      }
      assert forall n :: n in nodes ==> n == x || n in others;
    }

    /** One round of HandleExpire: the top is popped and destroyed when it is expired or flagged,
        and destroying a node that still has data closes the connection. */
    method Inspect(node: TimerNode, now: nat) returns (popped: bool)
      requires Core() && node in queue
      requires node.data != null ==> node.data.connState != DISCONNECTED
      modifies `kernel, `fd2channel, `fd2http, `queue, node`deleted, node`alive
      modifies (if node.data == null then {} else {node.data})`connState
      modifies (if node.data == null then {} else {node.data})`closes
      ensures Core() && popped == (Clock.Expired(now, node.expireTime) || old(node.deleted))
      ensures node.data == old(node.data)
      ensures queue == if popped then old(queue) - {node} else old(queue)
      ensures node.alive == !popped
      ensures if popped && node.data != null
              then node.data.connState == DISCONNECTED && Without(node.data.channel.fd)
              else Same() && (node.data != null ==> node.data.connState == old(node.data.connState))
    {
      popped := node.IsExpired(now);
      popped := popped || node.deleted;
      if popped {
        queue := queue - {node};
        node.alive := false;
        if node.data != null {
          node.data.HandleClose();
        }
      }
    }

    /** One round keeps the boundary and touches no other connection. */
    method InspectTop(node: TimerNode, now: nat) returns (popped: bool)
      requires Boundary() && node in queue
      modifies `kernel, `fd2channel, `fd2http, `queue, node`deleted, node`alive
      modifies conns`connState, conns`closes
      ensures Boundary() && KeepsBare()
      ensures popped == (Clock.Expired(now, node.expireTime) || old(node.deleted))
      ensures queue == if popped then old(queue) - {node} else old(queue)
      ensures !popped ==> !node.deleted
      ensures forall h :: h in conns ==>
        h.connState == if popped && node.data == h then DISCONNECTED else old(h.connState)
      ensures forall h :: h in conns ==>
        h.Look() == if popped && node.data == h then Closed(old(h.Look())) else old(h.Look())
    {
      hide Http.Lived, Http.Ledger, Http.Waiting, Http.DialogueNow;
      var data := node.data;
      popped := Inspect(node, now);
      if data != null {
        OthersStayQuiet(data);
        OthersLookSame(data);
        ClosingKeepsBare(data);
      } else {
        FlaggedNodeIsNoTimer(node);
      }
    }

    /** A node without data is nobody's timer. */
    twostate lemma FlaggedNodeIsNoTimer(node: TimerNode)
      requires old(Boundary()) && conns == old(conns) && unchanged(conns) && Same()
      requires old(node in queue) && old(node.data) == null
      requires forall o :: o in conns ==> unchanged(o.socket)
      requires forall n :: n in old(ConnTimers()) && n != node ==> n.alive == old(n.alive)
      ensures forall h :: h in conns ==> h.Look() == old(h.Look())
    {
      hide Http.Quiet;
      forall h | h in conns
        ensures h.Look() == old(h.Look())
      {
        assert h.DialogueNow() == old(h.DialogueNow());
      }
    }

    /** A reading of the clock: between `lo` and `hi` within its cycle, at most `latest`, and not
        before a queued node was made. */
    ghost predicate InWindow(now: nat, lo: nat, hi: nat, latest: nat)
      reads `queue
    {
      && lo <= now % Clock.CYCLE <= hi && now <= latest
      && forall n :: n in queue ==> n.created <= now
    }

    /** The connections in `closed` were open and are closed; nothing else changed state. */
    twostate predicate Closes(new closed: set<Http>)
      reads this, conns
    {
      forall h :: h in conns && h in old(conns) ==>
        h.connState == if h in closed then DISCONNECTED else old(h.connState)
    }

    /** Nothing else can be seen to have changed. */
    twostate predicate LooksClosed(new closed: set<Http>)
      reads *
    {
      forall h :: h in conns && h in old(conns) ==>
        h.Look() == if h in closed then Closed(old(h.Look())) else old(h.Look())
    }

    /** Their timers have run out, by the clock and by the deadline. */
    ghost predicate RunOut(closed: set<Http>, hi: nat, latest: nat)
      reads `conns, closed`timer
    {
      forall h :: h in closed ==>
        && h in conns && h.timer != null && h.timer.expireTime <= hi
        && h.timer.created + h.timer.timeout <= latest
    }

    /** The top is neither expired nor flagged, and nothing is due before it. */
    ghost predicate Swept(lo: nat)
      reads `queue, queue`deleted
    {
      && (forall n :: n in queue ==> n.expireTime > lo)
      && (queue != {} ==> exists top :: top in queue && LiveTop(top))
    }

    ghost predicate LiveTop(top: TimerNode)
      reads `queue, top`deleted
    {
      && !top.deleted
      && forall n :: n in queue ==> top.expireTime <= n.expireTime
    }

    /** What a round closes had a timer that has run out. */
    method ExpireTop(node: TimerNode, now: nat, ghost lo: nat, ghost hi: nat, ghost latest: nat)
        returns (popped: bool, ghost closed: set<Http>)
      requires Boundary() && node in queue && InWindow(now, lo, hi, latest)
      modifies `kernel, `fd2channel, `fd2http, `queue, node`deleted, node`alive
      modifies conns`connState, conns`closes
      ensures Boundary() && KeepsBare()
      ensures queue == if popped then old(queue) - {node} else old(queue)
      ensures !popped ==> !node.deleted && node.expireTime > lo
      ensures Closes(closed) && RunOut(closed, hi, latest) && LooksClosed(closed)
      ensures forall h :: h in closed ==> old(h.HasTimer())
    {
      hide Http.Quiet;
      if Clock.Expired(now, node.expireTime) {
        Clock.NeverEarly(node.created, node.timeout, now);
      }
      popped := InspectTop(node, now);
      closed := if popped && node.data != null then {node.data} else {};
    }

    /** The same for the top of the queue. */
    method ExpireNext(now: nat, ghost lo: nat, ghost hi: nat, ghost latest: nat)
        returns (popped: bool, ghost closed: set<Http>)
      requires Boundary() && queue != {} && InWindow(now, lo, hi, latest)
      modifies `kernel, `fd2channel, `fd2http, `queue, queue`deleted, queue`alive
      modifies conns`connState, conns`closes
      ensures Boundary() && KeepsBare()
      ensures if popped then queue < old(queue) else queue == old(queue) && Swept(lo)
      ensures Closes(closed) && RunOut(closed, hi, latest) && LooksClosed(closed)
      ensures forall h :: h in closed ==> old(h.HasTimer())
    {
      hide Http.Quiet, Epoll.Core;
      var node := Top();
      popped, closed := ExpireTop(node, now, lo, hi, latest);
      assert !popped ==> LiveTop(node);
    }

    /** The loop of HandleExpire. `readings` is what the clock says from call to call. */
    method PopExpired(readings: nat -> nat, ghost lo: nat, ghost hi: nat, ghost latest: nat)
        returns (ghost closed: set<Http>)
      requires Boundary()
      requires forall k: nat :: InWindow(readings(k), lo, hi, latest)
      modifies `kernel, `fd2channel, `fd2http, `queue, queue`deleted, queue`alive
      modifies conns`connState, conns`closes
      ensures Boundary() && KeepsBare() && queue <= old(queue) && Swept(lo)
      ensures Closes(closed) && RunOut(closed, hi, latest) && LooksClosed(closed)
      ensures forall h :: h in closed ==> old(h.HasTimer())
    {
      hide Http.Quiet, Http.Armed, Http.Look, Epoll.Maps, Epoll.Lives;
      var k := 0;
      closed := {};
      while queue != {}
        invariant Boundary() && KeepsBare() && queue <= old(queue)
        invariant Closes(closed) && RunOut(closed, hi, latest) && LooksClosed(closed)
        invariant forall h :: h in closed ==> old(h.HasTimer())
        decreases queue
      {
        var popped; ghost var one;
        popped, one := ExpireNext(readings(k), lo, hi, latest);
        k, closed := k + 1, closed + one;
        assert Closes(closed) && RunOut(closed, hi, latest);
        if !popped { break; }
      }
    }

    /** All that is due at `lo`, and nothing that is not due at `hi`. */
    ghost predicate Due(deadlines: map<Http, nat>, closed: set<Http>, lo: nat, hi: nat) {
      && closed <= deadlines.Keys
      && forall h :: h in deadlines ==>
           (deadlines[h] <= lo ==> h in closed) && (h in closed ==> deadlines[h] <= hi)
    }

    /** The queue refines the map of deadlines: exactly the connections whose deadline has been
        reached are closed, and never one whose full timeout has not passed. */
    method HandleExpire(readings: nat -> nat, ghost lo: nat, ghost hi: nat, ghost latest: nat)
        returns (ghost closed: set<Http>)
      requires Boundary()
      requires forall k: nat :: InWindow(readings(k), lo, hi, latest)
      modifies `kernel, `fd2channel, `fd2http, `queue, queue`deleted, queue`alive
      modifies conns`connState, conns`closes
      ensures Boundary() && KeepsBare() && queue <= old(queue) && Swept(lo)
      ensures Closes(closed) && RunOut(closed, hi, latest) && LooksClosed(closed)
      ensures Due(old(Deadlines()), closed, lo, hi) && Deadlines() == old(Deadlines()) - closed
    {
      closed := PopExpired(readings, lo, hi, latest);
      DeadlinesWithoutClosed(closed, lo, hi);
    }

    /** Between boundaries the open connections are those with a deadline. */
    twostate lemma DeadlinesWithoutClosed(new closed: set<Http>, new lo: nat, new hi: nat)
      requires old(Boundary()) && Boundary() && conns == old(conns) && Closes(closed)
      requires forall h :: h in conns ==> h.timer == old(h.timer)
      requires Swept(lo)
      requires forall h :: h in closed ==>
        h in conns && old(h.HasTimer()) && h.timer.expireTime <= hi
      ensures Due(old(Deadlines()), closed, lo, hi)
      ensures Deadlines() == old(Deadlines()) - closed
    {
      hide Http.Lived, Http.Ledger, Http.Waiting, Http.Drained, Http.Fits;
      forall h | h in conns
        ensures h.HasTimer() <==> old(h.HasTimer()) && h !in closed
      {
        assert old(h.Quiet()) && h.Quiet();
      }
    }
  }
}
