/** The loop (src/Server/EventLoop.cpp:35-73): wait, handle the events, run the queued Init
    callbacks, expire timers. The kernel, the clock and the accepted connections are arbitrary. */
module EventLoops {
  import opened Reactor
  import opened Connections
  import opened Utils
  import Clock

  /** A connection that waits to be initialised. */
  datatype Accepted = Accepted(fd: int, keepAlive: bool, input: string, hiccups: nat)

  class EventLoop {
    const epoll: Epoll
    const wakeupChannel: Channel
    var looping: bool
    var time: nat  // total milliseconds; it only grows
    ghost var repr: set<object>  // at least everything that belongs to the epoll

    constructor (wakeupFd: int)
      ensures Steady() && fresh(repr) && epoll.conns == {}
    {
      var e := new Epoll();
      epoll := e;
      wakeupChannel := new Channel(e, wakeupFd);
      looping, time, repr := true, 0, {e};
      new;
      Start();
    }

    /** The wake-up channel is registered, without a timer. */
    method Start()
      requires epoll.conns == {} && epoll.queue == {} && epoll.kernel == map[]
      requires epoll.fd2channel == map[] && epoll.fd2http == map[]
      requires wakeupChannel.epoll == epoll && wakeupChannel.holder == null
      requires epoll in repr && this !in repr
      modifies epoll, wakeupChannel`toListen, `repr
      ensures Steady() && epoll.conns == {} && repr == old(repr) + {epoll, wakeupChannel}
    {
      hide Epoll.Boundary, Epoll.Repr, Epoll.Bare;
      wakeupChannel.toListen := {IN, ET};
      epoll.EpollAdd(wakeupChannel, 0, 0);
      StartsSteady(epoll, wakeupChannel);
      Absorb();
    }

    /** An epoll with nothing but the wake-up channel is in order. */
    static lemma StartsSteady(e: Epoll, w: Channel)
      requires e.conns == {} && e.queue == {} && w.epoll == e && w.holder == null
      requires e.kernel.Keys == {w.fd} && e.fd2channel == map[w.fd := w]
      requires e.fd2http == map[w.fd := null]
      ensures e.Boundary() && w in e.Bare() && e.Repr() == {e, w}
    {
      assert e.fd2channel[w.fd] == w;
    }

    /** The invariant of the loop. */
    ghost predicate Steady()
      reads *
    {
      && this !in repr && epoll in repr && epoll.Repr() <= repr
      && Ordered()
    }

    ghost predicate Ordered()
      reads *
    {
      && epoll.Boundary() && wakeupChannel in epoll.Bare()
      && forall n :: n in epoll.queue ==> n.created <= time
    }

    /** What is new in the epoll is taken into account. */
    ghost method Absorb()
      requires Ordered() && this !in repr && epoll in repr && this !in epoll.Repr()
      modifies `repr
      ensures Steady() && repr == old(repr) + epoll.Repr() && epoll.Repr() == old(epoll.Repr())
      ensures forall h :: h in epoll.conns ==> h.Look() == old(h.Look())
    {
      hide Http.Quiet;
      repr := repr + epoll.Repr();
    }

    /** Connections are never forgotten and never reopened; the rounds of reading, the answers and
        the delivered bytes of a connection are only added to. */
    twostate predicate Advance()
      reads *
    {
      && fresh(repr - old(repr)) && old(time) <= time && old(epoll.conns) <= epoll.conns
      && forall h :: h in old(epoll.conns) ==> h.Ages()
    }

    /** Nothing can be seen to have changed of the connections that were there. */
    twostate predicate Unseen()
      reads *
    {
      forall h :: h in old(epoll.conns) ==> h.Look() == old(h.Look())
    }

    method Tick()
      requires Steady()
      modifies `time
      ensures Steady() && old(time) <= time && Unseen()
    {
      hide Http.Quiet;
      var elapsed: nat :| true;
      time := time + elapsed;
    }

    method TickTo(now: nat)
      requires Steady() && time <= now
      modifies `time
      ensures Steady() && time == now && Unseen()
    {
      hide Http.Quiet;
      time := now;
    }

    /** One reported event of a channel whose listen mask the wait has emptied: its connection
        makes the step of an event, and of no other anything can be seen to change. */
    method Handle(channel: Channel)
      requires Steady() && epoll.IsRegistered(channel) && channel.toListen == {}
      modifies repr, `repr
      ensures Steady() && Advance() && time == old(time) && epoll.conns == old(epoll.conns)
      ensures epoll.fd2channel == old(epoll.fd2channel) || epoll.Without(channel.fd)
      ensures epoll.KeepsOthers(channel.fd)
      ensures forall c :: c in old(epoll.Registered()) ==>
        c.active == old(c.active) && (c != channel ==> c.toListen == old(c.toListen))
      ensures forall h :: h in old(epoll.conns) ==>
        if h.channel == channel && !channel.Ignored()
        then Event(old(h.Look()), channel.active, time, h.Look())
        else h.Look() == old(h.Look())
    {
      hide Epoll.Repr, Epoll.Bare, Channel.Handled, Http.HalfCloseDecided, Http.Quiet,
        Http.Armed, Http.Ages, Epoll.Nodes, Http.Look;
      channel.FootprintIsInside();
      channel.HandleEvents(time);
      Absorb();
    }

    /** A connection accepted elsewhere, with a descriptor that is free here, is initialised. */
    method Enlist(a: Accepted) returns (http: Http)
      requires Steady() && a.fd !in epoll.fd2channel
      modifies repr, `repr
      ensures Steady() && Advance() && time == old(time) && Unseen()
      ensures fresh(http) && epoll.conns == old(epoll.conns) + {http} && http.channel.fd == a.fd
      ensures http.Look() == NewView(a.input, a.keepAlive, time)
      ensures epoll.fd2channel.Keys == old(epoll.fd2channel.Keys) + {a.fd}
    {
      hide Epoll.Repr, Epoll.Bare, Epoll.Core, Http.Quiet, Http.Look, Http.IsNew, Http.Ages;
      http := Accept(a);
      label Made:
      http.Join(time);
      assert forall o :: o in epoll.Repr() ==> o in old@Made(epoll.Repr()) || fresh(o);
      assert old@Made(epoll.Repr()) <= repr;
      Absorb();
      forall h | h in old(epoll.conns) ensures h.Ages() {
        h.SameAges();
      }
    }

    /** The connection object, made before it is taken in. */
    method Accept(a: Accepted) returns (http: Http)
      requires Steady()
      ensures Steady() && Unseen() && repr == old(repr) && epoll.conns == old(epoll.conns)
      ensures fresh(http) && fresh(http.channel) && fresh(http.socket) && http.epoll == epoll
      ensures http.IsNew() && http.channel.fd == a.fd && http.keepAlive == a.keepAlive
      ensures http.socket.input == a.input
      ensures http.channel !in epoll.Links() && http.channel !in epoll.Registered()
      ensures epoll.Repr() == old(epoll.Repr())
    {
      hide Http.Quiet, Http.IsNew, Http.DialogueNow, Http.Mask, Epoll.Nodes, Epoll.Bare;
      var socket := new Socket(a.input, a.hiccups);
      http := new Http(epoll, a.fd, a.keepAlive, socket);
    }

    /** What the clock may say during a sweep, reading by reading. */
    method Readings() returns (readings: nat -> nat, latest: nat)
      requires Steady()
      ensures Steady() && Unseen()
      ensures time <= latest && forall k: nat :: time <= readings(k) <= latest
    {
      var elapsed: nat :| true;
      var now, ticks: nat -> nat := time, *;
      var end := now + elapsed;
      readings := (k: nat) => if now <= ticks(k) <= end then ticks(k) else now;
      latest := end;
    }

    /** What a sweep did that ended at `now`. Unless the reading has wrapped meanwhile, everything
        due at the start is closed and nothing is left that was; in any case nothing is closed
        before its full timeout, and the top is live. */
    twostate predicate Cleaned(new closed: set<Http>, now: nat)
      reads *
    {
      var start := old(time) % Clock.CYCLE;
      && epoll.conns == old(epoll.conns) && epoll.Closes(closed) && epoll.LooksClosed(closed)
      && (forall h :: h in closed ==> old(allocated(h)) && h.timer == old(h.timer))
      && epoll.Deadlines() == old(epoll.Deadlines()) - closed
      && closed <= old(epoll.Deadlines()).Keys
      && epoll.RunOut(closed, Clock.CYCLE - 1, now) && epoll.Swept(0)
      && (old(time) / Clock.CYCLE == now / Clock.CYCLE ==>
            && epoll.Swept(start)
            && epoll.Due(old(epoll.Deadlines()), closed, start, now % Clock.CYCLE))
    }

    /** HandleExpire while the clock runs on. */
    method Expire(readings: nat -> nat, latest: nat) returns (ghost closed: set<Http>)
      requires Steady() && time <= latest
      requires forall k: nat :: time <= readings(k) <= latest
      modifies repr
      ensures Steady() && Advance() && Cleaned(closed, latest) && time == old(time)
      ensures forall h :: h in old(epoll.conns) ==>
        Sweep(old(h.Look()), old(time), latest, h.Look())
    {
      hide Epoll.Boundary, Epoll.Core, Epoll.Repr, Epoll.Bare, Epoll.Deadlines, Http.Look;
      epoll.ReprContains();
      ghost var unwrapped := time / Clock.CYCLE == latest / Clock.CYCLE;
      ghost var lo := if unwrapped then time % Clock.CYCLE else 0;
      ghost var hi := if unwrapped then latest % Clock.CYCLE else Clock.CYCLE - 1;
      closed := epoll.HandleExpire(readings, lo, hi, latest);
      epoll.ReprShrinks();
      forall h | h in old(epoll.conns)
        ensures Sweep(old(h.Look()), old(time), latest, h.Look())
      {
        SweepsOne(h, closed, latest);
      }
    }

    /** The sweep, as one connection sees it. */
    twostate lemma SweepsOne(h: Http, new closed: set<Http>, new now: nat)
      requires old(Steady()) && Cleaned(closed, now) && h in old(epoll.conns)
      ensures Sweep(old(h.Look()), old(time), now, h.Look())
    {
      hide Http.Quiet, Http.DialogueNow, Http.Mask, Epoll.Maps, Epoll.Lives, Epoll.Swept;
      if old(h.HasTimer()) {
        assert old(h.timer in epoll.queue);
        assert old(h in epoll.Deadlines() && epoll.Deadlines()[h] == h.timer.expireTime);
      } else {
        assert h !in old(epoll.Deadlines()) && h !in closed;
      }
    }

    /** The sweep, for whatever the clock says meanwhile. */
    method EndRound()
      requires Steady()
      modifies `time, repr
      ensures Steady() && Advance() && epoll.conns == old(epoll.conns)
      ensures forall h :: h in old(epoll.conns) ==>
        Sweep(old(h.Look()), old(time), time, h.Look())
      ensures old(time) / Clock.CYCLE == time / Clock.CYCLE ==>
        epoll.Swept(old(time) % Clock.CYCLE)
    {
      hide Epoll.Boundary, Epoll.Core, Epoll.Repr, Epoll.Bare, EventLoop.Steady, Http.Look, Sweep,
        Epoll.LooksClosed, Epoll.Closes, Epoll.Due, Epoll.RunOut;
      var readings, now := Readings();
      ghost var closed := Expire(readings, now);
      TickTo(now);
    }

    /** Some report that the kernel may give. */
    method KernelReport() returns (reported: seq<(int, Events)>)
      ensures epoll.Reportable(reported) && Unseen()
    {
      reported := [];
      var attempts: nat :| true;
      for i := 0 to attempts
        invariant epoll.Reportable(reported)
      {
        var fd: int, events: Events := *, *;
        if fd in epoll.kernel && forall k :: 0 <= k < |reported| ==> reported[k].0 != fd {
          reported := reported + [(fd, events)];
        }
      }
    }

    /** The channels from one on are ready: registered, of different descriptors, and listening
        for nothing yet. */
    ghost predicate Distinct(ready: seq<Channel>, from: nat)
      reads epoll`fd2channel, ready`toListen
    {
      && (forall i :: from <= i < |ready| ==>
            epoll.IsRegistered(ready[i]) && ready[i].toListen == {})
      && (forall i, j :: from <= i < j < |ready| ==> ready[i].fd != ready[j].fd)
    }

    /** The ready channels are those of the report, with its events. */
    ghost predicate Answers(ready: seq<Channel>, reported: seq<(int, Events)>)
      reads ready`active
    {
      && |ready| == |reported|
      && forall i :: 0 <= i < |ready| ==>
           ready[i].fd == reported[i].0 && ready[i].active == reported[i].1
    }

    method Wait(reported: seq<(int, Events)>) returns (ready: seq<Channel>)
      requires Steady() && epoll.Reportable(reported)
      modifies repr
      ensures Steady() && Advance() && Distinct(ready, 0) && Answers(ready, reported)
      ensures time == old(time) && epoll.conns == old(epoll.conns) && Unseen()
      ensures epoll.fd2channel == old(epoll.fd2channel)
    {
      hide Epoll.Boundary, Epoll.Core, Epoll.Repr, Epoll.Bare, Http.Look;
      epoll.ReprContains();
      ready := epoll.Poll(reported);
      epoll.ReprShrinks();
    }

    /** What the first `n` ready channels mean for a connection. */
    ghost function ReportFor(h: Http, ready: seq<Channel>, n: nat): Report
      requires n <= |ready|
      reads h.channel`active
    {
      if h.channel in ready[..n] then Reported(h.channel.active) else Nothing
    }

    /** The events of one batch: every connection whose channel is ready makes the step of its
        event, and no other can be seen to change. */
    method Dispatch(ready: seq<Channel>)
      requires Steady() && Distinct(ready, 0)
      modifies `time, `repr, repr
      ensures Steady() && Advance() && epoll.conns == old(epoll.conns)
      ensures epoll.fd2channel.Keys <= old(epoll.fd2channel.Keys)
      ensures forall h :: h in old(epoll.conns) ==>
        Noticed(old(h.Look()), old(ReportFor(h, ready, |ready|)), old(time), time, h.Look())
    {
      hide Epoll.Boundary, Epoll.Core, Epoll.Repr, Epoll.Bare, EventLoop.Steady, Http.Look, Event;
      ReadyIsOpen(ready, 0);
      for i := 0 to |ready|
        invariant Steady() && Advance() && Distinct(ready, i) && epoll.conns == old(epoll.conns)
        invariant epoll.fd2channel.Keys <= old(epoll.fd2channel.Keys)
        invariant forall j :: i <= j < |ready| ==> ready[j].active == old(ready[j].active)
        invariant forall h :: h in old(epoll.conns) ==>
          Noticed(old(h.Look()), old(ReportFor(h, ready, i)), old(time), time, h.Look())
      {
        Tick();
        label Ticked:
        Handle(ready[i]);
        assert ready[..i + 1] == ready[..i] + [ready[i]];
        forall h | h in old(epoll.conns)
          ensures Noticed(old(h.Look()), old(ReportFor(h, ready, i + 1)), old(time), time,
                          h.Look())
        {
          ghost var v, seen := old(h.Look()), old@Ticked(h.Look());
          NoticedLater(v, old(ReportFor(h, ready, i)), old(time), old@Ticked(time), time, seen);
          if h.channel == ready[i] {
            assert h.channel !in ready[..i];
            assert seen == v;
          } else {
            assert h.Look() == seen;
          }
        }
      }
    }

    /** A registered channel belongs to a connection that is not closed. */
    lemma ReadyIsOpen(ready: seq<Channel>, from: nat)
      requires Steady() && Distinct(ready, from)
      ensures forall h, i :: h in epoll.conns && from <= i < |ready| && h.channel == ready[i] ==>
        h.Look().conn != DISCONNECTED
    {
    }

    /** A connection has been taken in since then, at some time up to now. */
    twostate predicate TakenIn(a: Accepted, new h: Http, now: nat)
      reads *
    {
      && h in epoll.conns && h !in old(epoll.conns) && h.channel.fd == a.fd
      && old(time) <= now <= time && h.Look() == NewView(a.input, a.keepAlive, now)
    }

    /** The queued Init callbacks, for descriptors that are free at the time. */
    method DoCallbacks(queued: seq<Accepted>)
      requires Steady()
      requires forall i, j :: 0 <= i < j < |queued| ==> queued[i].fd != queued[j].fd
      modifies `time, `repr, repr
      ensures Steady() && Advance() && Unseen()
      ensures forall i :: 0 <= i < |queued| && queued[i].fd !in old(epoll.fd2channel) ==>
        exists h, now :: TakenIn(queued[i], h, now)
    {
      hide Epoll.Boundary, Epoll.Core, Epoll.Repr, Epoll.Bare, EventLoop.Steady, Http.Look;
      ghost var made: map<nat, Http>, at: map<nat, nat> := map[], map[];
      for i := 0 to |queued|
        invariant Steady() && Advance() && Unseen()
        invariant forall j :: i <= j < |queued| && queued[j].fd !in old(epoll.fd2channel) ==>
          queued[j].fd !in epoll.fd2channel
        invariant forall j: nat :: j < i && queued[j].fd !in old(epoll.fd2channel) ==>
          j in made && j in at && TakenIn(queued[j], made[j], at[j])
      {
        Tick();
        if queued[i].fd !in epoll.fd2channel {
          var h := Enlist(queued[i]);
          made, at := made[i := h], at[i := time];
        }
      }
    }

    /** Another thread may have called Quit. */
    method PollQuit()
      requires Steady()
      modifies `looping
      ensures Steady() && Unseen()
    {
      hide Http.Quiet;
      looping := *;
    }

    /** For a connection that is not closed, the ready channels say what was reported. */
    lemma ReportsAgree(h: Http, ready: seq<Channel>, reported: seq<(int, Events)>)
      requires Steady() && Distinct(ready, 0) && Answers(ready, reported) && h in epoll.conns
      ensures h.Look().conn == DISCONNECTED
           || ReportFor(h, ready, |ready|) == ReportOn(reported, h.channel.fd)
    {
      hide Http.Quiet, Http.Armed, Epoll.Nodes;
      if h.connState == DISCONNECTED { return; }
      assert ready[..|ready|] == ready && epoll.IsRegistered(h.channel);
      if h.channel in ready {
        var i :| 0 <= i < |ready| && ready[i] == h.channel;
        assert forall j :: 0 <= j < i ==> reported[j].0 == ready[j].fd != ready[i].fd;
        ReportIs(reported, i);
      } else {
        forall j | 0 <= j < |reported| ensures reported[j].0 != h.channel.fd {
          assert epoll.IsRegistered(ready[j]) && ready[j].fd == reported[j].0;
        }
        NoReport(reported, h.channel.fd);
      }
    }

    /** A queued connection was taken in at some time and has then been through the sweep. */
    twostate predicate Admitted(a: Accepted, new h: Http, made: nat, swept: nat)
      reads *
    {
      && h in epoll.conns && h !in old(epoll.conns) && h.channel.fd == a.fd
      && old(time) <= made <= swept <= time
      && Sweep(NewView(a.input, a.keepAlive, made), swept, time, h.Look())
    }

    /** Waiting for the events and handling them. */
    method Serve(reported: seq<(int, Events)>)
      requires Steady() && epoll.Reportable(reported)
      modifies `time, `repr, repr
      ensures Steady() && Advance() && epoll.conns == old(epoll.conns)
      ensures epoll.fd2channel.Keys <= old(epoll.fd2channel.Keys)
      ensures forall h :: h in old(epoll.conns) ==>
        Noticed(old(h.Look()), ReportOn(reported, h.channel.fd), old(time), time, h.Look())
    {
      hide Epoll.Boundary, Epoll.Core, Epoll.Repr, Epoll.Bare, EventLoop.Steady, Http.Look, Noticed,
        EventLoop.ReportFor;
      var ready := Wait(reported);
      label Waited:
      forall h | h in epoll.conns
        ensures h.Look().conn == DISCONNECTED
             || ReportFor(h, ready, |ready|) == ReportOn(reported, h.channel.fd)
      {
        ReportsAgree(h, ready, reported);
      }
      Dispatch(ready);
      forall h | h in old(epoll.conns)
        ensures Noticed(old(h.Look()), ReportOn(reported, h.channel.fd), old(time), time, h.Look())
      {
        NoticedAs(old(h.Look()), old@Waited(ReportFor(h, ready, |ready|)),
                  ReportOn(reported, h.channel.fd), old(time), time, h.Look());
      }
    }

    /** One round of the loop, for any report and any callbacks: every connection that was there
        goes through its event and the sweep, and every callback with a free descriptor is run. */
    method Round(reported: seq<(int, Events)>, queued: seq<Accepted>) returns (ghost lap: Lap)
      requires Steady() && epoll.Reportable(reported)
      requires forall i, j :: 0 <= i < j < |queued| ==> queued[i].fd != queued[j].fd
      modifies `time, `looping, `repr, repr
      ensures Steady() && Advance() && lap == Lap(reported, old(time), time, !looping)
      ensures forall h :: h in old(epoll.conns) ==>
        Rounded(old(h.Look()), h.channel.fd, lap, h.Look())
      ensures forall i :: 0 <= i < |queued| && queued[i].fd !in old(epoll.fd2channel) ==>
        exists h, made, swept :: Admitted(queued[i], h, made, swept)
      ensures old(time) / Clock.CYCLE == time / Clock.CYCLE ==>
        epoll.Swept(old(time) % Clock.CYCLE)
    {
      hide Epoll.Boundary, Epoll.Core, Epoll.Repr, Epoll.Bare, EventLoop.Steady, Http.Look, Noticed,
        Sweep, Rounded;
      Serve(reported);
      label Served:
      DoCallbacks(queued);
      label Called:
      EndRound();
      label Swept:
      PollQuit();
      lap := Lap(reported, old(time), time, !looping);
      forall h | h in old(epoll.conns)
        ensures Rounded(old(h.Look()), h.channel.fd, lap, h.Look())
      {
        RoundedBy(old(h.Look()), h.channel.fd, lap, old@Called(h.Look()), old@Served(time),
                  old@Called(time), h.Look());
      }
      forall i | 0 <= i < |queued| && queued[i].fd !in old(epoll.fd2channel)
        ensures exists h, made, swept :: Admitted(queued[i], h, made, swept)
      {
        var h, now :| old@Called(allocated(h)) && h in old@Called(epoll.conns)
          && h !in old@Served(epoll.conns) && h.channel.fd == queued[i].fd
          && old@Served(time) <= now <= old@Called(time)
          && old@Called(h.Look()) == NewView(queued[i].input, queued[i].keepAlive, now);
        assert Admitted(queued[i], h, now, old@Called(time));
      }
    }

    /** Some connections that another thread may have queued. */
    method Arrivals() returns (queued: seq<Accepted>)
      ensures Unseen()
      ensures forall i, j :: 0 <= i < j < |queued| ==> queued[i].fd != queued[j].fd
    {
      queued := [];
      var attempts: nat :| true;
      for i := 0 to attempts
        invariant forall i, j :: 0 <= i < j < |queued| ==> queued[i].fd != queued[j].fd
      {
        var fd: int, keepAlive: bool, input: string := *, *, *;
        var hiccups: nat :| true;
        if forall k :: 0 <= k < |queued| ==> queued[k].fd != fd {
          queued := queued + [Accepted(fd, keepAlive, input, hiccups)];
        }
      }
    }

    /** What the invariant says of every connection that was ever initialised. */
    lemma SteadyClosesOnce()
      requires Steady()
      ensures forall h :: h in epoll.conns ==>
        h.closes <= 1 && h.Quiet() && (h.connState != DISCONNECTED ==> h.Armed())
    {
    }

    /** Every run, however long it is watched. The loop goes on round by round until Quit or until
        five waits have returned nothing. Every connection goes through all the rounds, by what
        the kernel reports of it; it is closed at most once and never reopened, and nothing of it
        is taken back. */
    method Loop(rounds: nat) returns (ghost laps: seq<Lap>)
      requires Steady()
      modifies `time, `looping, `repr, repr
      ensures Steady() && Advance()
      ensures forall h :: h in epoll.conns ==>
        h.closes <= 1 && h.Quiet() && (h.connState != DISCONNECTED ==> h.Armed())
      ensures forall h :: h in old(epoll.conns) ==>
        Follows(old(h.Look()), h.channel.fd, laps, h.Look())
      ensures Goes(laps) && |laps| <= rounds
      ensures looping == if laps == [] then old(looping) else !laps[|laps| - 1].quit
      ensures |laps| < rounds ==> !looping || Idle(laps) == MAX_IDLE_WAITS
      ensures laps != [] ==> old(looping)
    {
      hide Epoll.Boundary, Epoll.Core, Epoll.Repr, Epoll.Bare, EventLoop.Steady, Http.Look, Rounded,
        Follows, Goes, Idle;
      var timeouts, round := 0, 0;
      laps := [];
      LoopBegins();
      while looping && timeouts < MAX_IDLE_WAITS && round < rounds
        invariant Steady() && Advance() && Goes(laps)
        invariant |laps| == round <= rounds && timeouts == Idle(laps) <= MAX_IDLE_WAITS
        invariant looping == if laps == [] then old(looping) else !laps[|laps| - 1].quit
        invariant laps != [] ==> old(looping)
        invariant forall h :: h in old(epoll.conns) ==>
          Follows(old(h.Look()), h.channel.fd, laps, h.Look())
        decreases rounds - round
      {
        var reported := KernelReport();
        var queued := Arrivals();
        label Before:
        ghost var lap := Round(reported, queued);
        if |reported| == 0 {
          timeouts := timeouts + 1;
        }
        GoesOn(laps, lap);
        forall h | h in old(epoll.conns)
          ensures Follows(old(h.Look()), h.channel.fd, laps + [lap], h.Look())
        {
          FollowsOn(old(h.Look()), h.channel.fd, laps, old@Before(h.Look()), lap, h.Look());
        }
        laps := laps + [lap];
        round := round + 1;
      }
      SteadyClosesOnce();
    }

    static lemma LoopBegins()
      ensures Goes([]) && Idle([]) == 0
      ensures forall v, fd :: Follows(v, fd, [], v)
    {
    }
  }
}
