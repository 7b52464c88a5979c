/** The life of a connection (ircevent/irc.go): Connect, Loop, Quit, Reconnect and the
    goroutines of a connection, under every interleaving. Each mutex section is one atomic
    step; timers and the network are nondeterministic. */
module Lifecycle {
  import opened ByteStrings
  import Configuration

  /** The goroutines Connect starts and waitForStop waits for: readLoop, writeLoop, pingLoop. */
  datatype Worker = Reader | Writer | Pinger

  const WORKERS: set<Worker> := {Reader, Writer, Pinger}

  /** The fields guarded by stateMutex. `end` numbers the successive end channels; 0 is the
      nil channel of a connection that never got past Connect. A socket has the number of the
      end channel made with it; 0 is nil. */
  datatype Fields = Fields(
    running: bool,
    end: nat,
    openEnds: set<nat>,
    closes: multiset<nat>, // one entry for each close(end)
    socket: nat,
    openSockets: set<nat>, // not only the current one: the client may lose track of a socket
    lastError: bool, // lastError != nil
    pingSent: bool,
    quit: bool,
    quitAt: int)

  const INITIAL_FIELDS := Fields(false, 0, {}, multiset{}, 0, {}, false, false, false, 0)

  // ----- the critical sections -----

  function WithEndClosed(f: Fields): (r: Fields) {
    if f.running then f.(running := false, openEnds := f.openEnds - {f.end}, closes := f.closes + multiset{f.end})
    else f
  }

  function WithError(f: Fields): (r: Fields) {
    if f.lastError then f else WithEndClosed(f.(lastError := true))
  }

  /** The first section of Connect, once it has seen that the client has not quit. */
  function Guarded(f: Fields): (r: Fields) {
    f.(running := false, socket := 0, lastError := false, pingSent := false)
  }

  /** The section of Connect that sets up a dialed connection. */
  function Established(f: Fields): (r: Fields) {
    f.(running := true,
       end := f.end + 1, openEnds := f.openEnds + {f.end + 1},
       socket := f.end + 1, openSockets := f.openSockets + {f.end + 1})
  }

  /** What waitForStop does once the three goroutines are gone. */
  function WithSocketClosed(f: Fields): (r: Fields) {
    f.(openSockets := f.openSockets - {f.socket})
  }

  /** processTick decides to give up if the server ignores QUIT or the last PING. */
  predicate TickFails(f: Fields, now: int, timeout: int) {
    (f.quit && now - f.quitAt >= timeout) || f.pingSent
  }

  /** Every KeepAlive, counted in ticks of length Timeout. */
  predicate PingDue(tick: nat, c: Configuration.Config)
    requires Configuration.Usable(c) && c.timeout > 0
  {
    Configuration.PingModulusPositive(c);
    tick % (c.keepAlive / c.timeout) == 0
  }

  lemma {:induction false} MultipleIff(n: nat, m: nat)
    requires m > 0
    ensures n % m == 0 <==> exists j: nat :: n == j * m
  {
    if n % m == 0 {
      assert n == n / m * m;
    }
    forall j: nat | n == j * m ensures n % m == 0 {
      MultipleMod(j, m);
    }
  }

  lemma {:induction false} MultipleMod(j: nat, m: nat)
    requires m > 0
    ensures j * m % m == 0
  {
    if j > 0 {
      MultipleMod(j - 1, m);
      assert j * m == (j - 1) * m + m;
      AddModulus((j - 1) * m, m);
    }
  }

  lemma {:induction false} AddModulus(n: nat, m: nat)
    requires m > 0
    ensures (n + m) % m == n % m
  {
    var q, r := n / m, n % m;
    assert n + m == m * (q + 1) + r by {
      assert n == m * q + r;
      assert m * (q + 1) == m * q + m;
    }
    QuotientUnique(n + m, m, q + 1, r);
  }

  lemma {:induction false} QuotientUnique(n: nat, m: nat, q: nat, r: nat)
    requires m > 0 && r < m && n == m * q + r
    ensures n % m == r
  {
    var d := n / m - q;
    assert n == m * (n / m) + n % m;
    assert m * d == r - n % m by {
      assert m * (n / m) - m * q == m * d;
    }
    assert 0 - m < m * d < m;
    SmallMultiple(m, d);
  }

  lemma {:induction false} SmallMultiple(m: nat, d: int)
    requires m > 0 && 0 - m < m * d < m
    ensures d == 0
  {
  }

  /** A ping is due at the multiples of KeepAlive / Timeout. */
  lemma {:induction false} PingDueIff(tick: nat, c: Configuration.Config)
    requires Configuration.Usable(c) && c.timeout > 0
    ensures PingDue(tick, c) <==> exists j: nat :: tick == j * (c.keepAlive / c.timeout)
  {
    Configuration.PingModulusPositive(c);
    MultipleIff(tick, c.keepAlive / c.timeout);
  }

  /** Among any KeepAlive / Timeout successive ticks a ping is due at exactly one. */
  lemma {:induction false} OnePingPerPeriod(first: nat, c: Configuration.Config) returns (t: nat)
    requires Configuration.Usable(c) && c.timeout > 0
    ensures first <= t < first + c.keepAlive / c.timeout
    ensures forall k: nat :: first <= k < first + c.keepAlive / c.timeout ==> (PingDue(k, c) <==> k == t)
  {
    Configuration.PingModulusPositive(c);
    var m := c.keepAlive / c.timeout;
    var q, r := first / m, first % m;
    assert first == q * m + r;
    t := if r == 0 then first else first - r + m;
    assert t % m == 0 by {
      if r == 0 {
        assert t == first;
      } else {
        assert t == (q + 1) * m;
        MultipleMod(q + 1, m);
      }
    }
    forall k: nat | first <= k < first + m
      ensures k % m == 0 <==> k == t
    {
      if k % m == 0 {
        assert k == m * (k / m) && t == m * (t / m);
        var d := k / m - t / m;
        assert m * d == k - t;
        SmallMultiple(m, d);
      }
    }
  }

  datatype ConnectError = ClientHasQuit | BadConfig(err: Configuration.Error)

  class Connection {
    var config: Configuration.Config
    var currentNick: string
    var running: bool
    var end: nat
    var openEnds: set<nat>
    var closes: multiset<nat>
    var socket: nat
    var openSockets: set<nat>
    var lastError: bool
    var pingSent: bool
    var quit: bool
    var quitAt: int

    function View(): (f: Fields)
      reads this
    {
      Fields(running, end, openEnds, closes, socket, openSockets, lastError, pingSent, quit, quitAt)
    }

    constructor (settings: Configuration.Config)
      ensures View() == INITIAL_FIELDS && config == settings && currentNick == ""
    {
      config, currentNick := settings, "";
      running, end, openEnds, closes := false, 0, {}, multiset{};
      socket, openSockets := 0, {};
      lastError, pingSent, quit, quitAt := false, false, false, 0;
    }

    method CloseEndNoMutex()
      modifies this`running, this`openEnds, this`closes
      ensures View() == WithEndClosed(old(View()))
      ensures View() ==
              if old(running) then
                old(View()).(running := false, openEnds := old(openEnds) - {end}, closes := old(closes) + multiset{end})
              else old(View())
    {
      if running {
        running := false;
        openEnds := openEnds - {end};
        closes := closes + multiset{end};
      }
    }

    method SetError()
      modifies this`lastError, this`running, this`openEnds, this`closes
      ensures View() == WithError(old(View()))
      ensures old(lastError) ==> View() == old(View())
      ensures !old(lastError) && !old(running) ==> View() == old(View()).(lastError := true)
      ensures !old(lastError) && old(running) ==>
                View() == old(View()).(lastError := true, running := false, openEnds := old(openEnds) - {end},
                                       closes := old(closes) + multiset{end})
    {
      if !lastError {
        lastError := true;
        CloseEndNoMutex();
      }
    }

    /** The first section of Connect. */
    method EnterConnect() returns (err: Option<ConnectError>)
      modifies this`running, this`socket, this`lastError, this`pingSent, this`currentNick, this`config
      ensures old(quit) ==>
                err == Some(ClientHasQuit) && View() == old(View()) && config == old(config) && currentNick == old(currentNick)
      ensures !old(quit) ==>
                && View() == Guarded(old(View())) && currentNick == ""
                && View() == old(View()).(running := false, socket := 0, lastError := false, pingSent := false)
                && config == Configuration.Configured(old(config)).0
                && err == match Configuration.Configured(old(config)).1 case None => None case Some(e) => Some(BadConfig(e))
      ensures err.None? ==> Configuration.Usable(config)
    {
      if quit {
        return Some(ClientHasQuit);
      }
      running, socket, lastError, pingSent, currentNick := false, 0, false, false, "";
      var bad;
      Configuration.AcceptedIff(config);
      hide Configuration.Configured;
      hide Configuration.Usable;
      config, bad := Configuration.Configure(config);
      match bad {
        case None => return None;
        case Some(e) => return Some(BadConfig(e));
      }
    }

    method Establish()
      modifies this`running, this`end, this`openEnds, this`socket, this`openSockets
      ensures View() == Established(old(View()))
      ensures View() == old(View()).(running := true, end := old(end) + 1, openEnds := old(openEnds) + {end},
                                     socket := end, openSockets := old(openSockets) + {end})
    {
      running := true;
      end := end + 1;
      openEnds := openEnds + {end};
      socket := end;
      openSockets := openSockets + {socket};
    }

    method CloseSocket()
      modifies this`openSockets
      ensures View() == WithSocketClosed(old(View())) 
      ensures View() == old(View()).(openSockets := old(openSockets) - {socket})
    {
      openSockets := openSockets - {socket};
    }

    method Quit(now: int)
      modifies this`quit, this`quitAt
      ensures View() == old(View()).(quit := true, quitAt := now)
    {
      quit := true;
      quitAt := now;
    }

    /** processTick up to its deferred part. */
    method ProcessTick(tick: nat, now: int) returns (fail: bool, shouldPing: bool, shouldRenick: bool)
      requires Configuration.Usable(config) && config.timeout > 0
      modifies this`pingSent
      ensures fail <==> (quit && now - quitAt >= config.timeout) || old(pingSent)
      ensures shouldPing <==> !fail && exists j: nat :: tick == j * (config.keepAlive / config.timeout)
      ensures shouldRenick == (shouldPing && currentNick != config.nick)
      ensures View() == old(View()).(pingSent := old(pingSent) || shouldPing)
    {
      PingDueIff(tick, config);
      if quit && now - quitAt >= config.timeout {
        return true, false, false;
      }
      if pingSent {
        return true, false, false;
      }
      if PingDue(tick, config) {
        pingSent := true;
        return false, true, currentNick != config.nick;
      }
      return false, false, false;
    }
  }

  // ----- the system -----

  type Duration = d: int | d > 0 witness 1

  /** irc.Timeout, whatever it is. */
  const TIMEOUT: Duration

  /** Where the client goroutine that runs Connect and Loop stands. */
  datatype Control =
    | Idle // between calls
    | Dialing(inLoop: bool) // past Connect's guard
    | Negotiating(inLoop: bool) // connection set up, goroutines started
    | Cleaning(inLoop: bool) // negotiation failed: `end` closed, in waitForStop
    | Waiting // Loop in waitForStop
    | Checking // Loop about to ask whether the client has quit
    | Sleeping // Loop waiting to reconnect
    | LoopReturned // Loop has returned; the client may call again

  /** readMsgLoop, which readLoop starts and nobody waits for. */
  datatype MsgLoop =
    | Reading // in ReadLine, possibly blocked
    | Offering(failed: bool) // in the select with a line or an error

  datatype State = State(
    f: Fields,
    control: Control,
    live: set<Worker>,
    deciding: set<Worker>, // about to call setError
    spawned: bool, // readLoop has started its readMsgLoop
    msgLoops: map<nat, MsgLoop>, // those alive, by the end channel each was given
    now: int)

  const INITIAL := State(INITIAL_FIELDS, Idle, {}, {}, false, map[], 0)

  datatype Action =
    | CallConnect(valid: bool) // by the user; `valid` is the configuration check
    | CallLoop
    | DialFails
    | DialSucceeds
    | Registers // negotiation and registration succeed
    | NegotiationFails
    | CleanedUp
    | WaitOver
    | CheckQuit
    | Reconnects(valid: bool) // Loop calls Connect again
    | StartReading // readLoop starts readMsgLoop
    | ReadReturns(e: nat, failed: bool) // a ReadLine of that readMsgLoop returns
    | Deliver(pong: bool) // readLoop takes a line
    | ReadFails // readLoop takes an error
    | MsgLoopExits(e: nat) // a readMsgLoop sees its own `end` closed
    | WriteFails
    | Tick(pingDue: bool)
    | Report(w: Worker) // setError
    | Exit(w: Worker) // a goroutine sees `end` closed
    | CallQuit
    | CallReconnect
    | Pass(until: int) // time passes

  function AfterFailure(inLoop: bool): (c: Control) {
    if inLoop then Waiting else Idle
  }

  function EnterConnect(s: State, inLoop: bool, valid: bool): (r: State) {
    if s.f.quit then s.(control := AfterFailure(inLoop))
    else s.(f := Guarded(s.f), control := if valid then Dialing(inLoop) else AfterFailure(inLoop))
  }

  /** The client goroutine is in no call. */
  predicate Resting(c: Control) {
    c == Idle || c == LoopReturned
  }

  /** `<-end` succeeds: the channel exists and is closed. */
  predicate EndClosed(s: State) {
    s.f.end > 0 && s.f.end !in s.f.openEnds
  }

  /** The goroutine is in its select loop. */
  predicate Listening(s: State, w: Worker) {
    w in s.live && w !in s.deciding && (w == Reader ==> s.spawned)
  }

  predicate Offers(s: State, e: nat, failed: bool) {
    e in s.msgLoops && s.msgLoops[e] == Offering(failed)
  }

  predicate Enabled(s: State, a: Action) {
    match a
    case CallConnect(_) => Resting(s.control) && !s.f.running && s.live == {}
    case CallLoop => Resting(s.control)
    case DialFails => s.control.Dialing?
    case DialSucceeds => s.control.Dialing?
    case Registers => s.control.Negotiating?
    case NegotiationFails => s.control.Negotiating?
    case CleanedUp => s.control.Cleaning? && EndClosed(s) && s.live == {}
    case WaitOver => s.control == Waiting && EndClosed(s) && s.live == {}
    case CheckQuit => s.control == Checking
    case Reconnects(_) => s.control == Sleeping
    case StartReading => Reader in s.live && !s.spawned
    case ReadReturns(e, _) => e in s.msgLoops && s.msgLoops[e] == Reading
    case Deliver(_) => Listening(s, Reader) && Offers(s, s.f.end, false)
    case ReadFails => Listening(s, Reader) && Offers(s, s.f.end, true)
    case MsgLoopExits(e) => (Offers(s, e, false) || Offers(s, e, true)) && e !in s.f.openEnds
    case WriteFails => Listening(s, Writer)
    case Tick(_) => Listening(s, Pinger)
    case Report(w) => w in s.deciding
    case Exit(w) => Listening(s, w) && EndClosed(s)
    case CallQuit => true
    case CallReconnect => true
    case Pass(until) => s.now <= until
  }

  function Apply(s: State, a: Action): (r: State)
    requires Enabled(s, a)
  {
    match a
    case CallConnect(valid) => EnterConnect(s, false, valid)
    case CallLoop => s.(control := Waiting)
    case DialFails => s.(control := AfterFailure(s.control.inLoop))
    case DialSucceeds =>
      s.(f := Established(s.f), control := Negotiating(s.control.inLoop), live := WORKERS, spawned := false)
    case Registers => s.(control := if s.control.inLoop then Waiting else Idle)
    case NegotiationFails => s.(f := WithEndClosed(s.f), control := Cleaning(s.control.inLoop))
    case CleanedUp => s.(f := WithSocketClosed(s.f), control := AfterFailure(s.control.inLoop))
    case WaitOver => s.(f := WithSocketClosed(s.f), control := Checking)
    case CheckQuit => s.(control := if s.f.quit then LoopReturned else Sleeping)
    case Reconnects(valid) => EnterConnect(s, true, valid)
    case StartReading => s.(spawned := true, msgLoops := s.msgLoops[s.f.end := Reading])
    case ReadReturns(e, failed) => s.(msgLoops := s.msgLoops[e := Offering(failed)])
    case Deliver(pong) =>
      s.(f := s.f.(pingSent := s.f.pingSent && !pong), msgLoops := s.msgLoops[s.f.end := Reading])
    case ReadFails => s.(deciding := s.deciding + {Reader}, msgLoops := s.msgLoops - {s.f.end})
    case MsgLoopExits(e) => s.(msgLoops := s.msgLoops - {e})
    case WriteFails => s.(deciding := s.deciding + {Writer})
    case Tick(pingDue) =>
      if TickFails(s.f, s.now, TIMEOUT) then s.(deciding := s.deciding + {Pinger})
      else s.(f := s.f.(pingSent := s.f.pingSent || pingDue))
    case Report(w) => s.(f := WithError(s.f), deciding := s.deciding - {w})
    case Exit(w) => s.(live := s.live - {w})
    case CallQuit => s.(f := s.f.(quit := true, quitAt := s.now))
    case CallReconnect => s.(f := WithEndClosed(s.f))
    case Pass(until) => s.(now := until)
  }

  // ----- safety -----

  /** `running` says whether the current end channel is open; every other one has been closed, once. */
  ghost predicate EndsSound(f: Fields) {
    && f.openEnds == (if f.running then {f.end} else {})
    && (f.running ==> f.end > 0)
    && (forall e: nat :: f.closes[e] == if 0 < e <= f.end && e !in f.openEnds then 1 else 0)
  }

  /** The client goroutine is in Loop. */
  predicate InLoop(c: Control) {
    match c
    case Idle => false
    case Dialing(inLoop) => inLoop
    case Negotiating(inLoop) => inLoop
    case Cleaning(inLoop) => inLoop
    case _ => true
  }

  /** Loop is past its first waitForStop. */
  predicate Underway(c: Control) {
    InLoop(c) && c != Waiting
  }

  ghost predicate ControlSound(s: State) {
    && (s.control.Dialing? ==> !s.f.running && !s.f.lastError && s.live == {})
    && (s.control.Cleaning? || s.control.Checking? || s.control.Sleeping? || s.control.LoopReturned? ==> !s.f.running)
    && (s.control.Checking? || s.control.Sleeping? || s.control.LoopReturned? ==> s.live == {})
    && (s.control.Negotiating? || s.control.Cleaning? || Underway(s.control) ==> s.f.end > 0)
  }

  ghost predicate Inv(s: State) {
    && EndsSound(s.f)
    && (s.f.lastError ==> !s.f.running)
    && s.deciding <= s.live
    && (s.f.running ==> s.live == WORKERS)
    && (Reader in s.deciding ==> s.spawned)
    && ControlSound(s)
  }

  lemma {:induction false} CloseEndSound(f: Fields)
    requires EndsSound(f)
    ensures EndsSound(WithEndClosed(f)) && !WithEndClosed(f).running
    ensures EndsSound(WithError(f))
    ensures (f.lastError ==> !f.running) ==> !WithError(f).running
  {
  }

  /** Connect's guard clears `running` without closing `end`: it is sound exactly when the
      connection is already stopped. */
  lemma {:induction false} GuardNeedsStopped(f: Fields)
    requires EndsSound(f)
    ensures EndsSound(Guarded(f)) <==> !f.running
  {
    if f.running {
      assert f.end in Guarded(f).openEnds;
    }
  }

  lemma {:induction false} EstablishedSound(f: Fields)
    requires EndsSound(f) && !f.running
    ensures EndsSound(Established(f))
  {
  }

  /** EndsSound looks at `running` and the end channels only. */
  lemma {:induction false} SoundFrame(f: Fields, g: Fields)
    requires EndsSound(f) && g.running == f.running && g.end == f.end && g.openEnds == f.openEnds && g.closes == f.closes
    ensures EndsSound(g)
  {
  }

  lemma {:induction false} EndsStep(s: State, a: Action)
    requires Inv(s) && Enabled(s, a)
    ensures EndsSound(Apply(s, a).f)
  {
    hide EndsSound;
    var r := Apply(s, a);
    match a {
      case DialSucceeds => EstablishedSound(s.f);
      case NegotiationFails => CloseEndSound(s.f);
      case CallReconnect => CloseEndSound(s.f);
      case Report(w) => CloseEndSound(s.f);
      case _ => SoundFrame(s.f, r.f);
    }
  }

  lemma {:induction false} StepKeeps(s: State, a: Action)
    requires Inv(s) && Enabled(s, a)
    ensures Inv(Apply(s, a))
  {
    EndsStep(s, a);
    assert s.f.running ==> s.f.end in s.f.openEnds;
    hide EndsSound;
  }

  // ----- runs -----

  /** The state after some actions, from a given state; None if one was not enabled. */
  function RunFrom(s: State, actions: seq<Action>): (r: Option<State>) {
    if actions == [] then Some(s)
    else
      match RunFrom(s, actions[..|actions| - 1])
      case None => None
      case Some(t) =>
        var a := actions[|actions| - 1];
        if Enabled(t, a) then Some(Apply(t, a)) else None
  }

  lemma {:induction false} RunInv(s: State, actions: seq<Action>)
    requires Inv(s) && RunFrom(s, actions).Some?
    ensures Inv(RunFrom(s, actions).value)
  {
    hide Inv;
    hide Enabled;
    hide Apply;
    if actions != [] {
      var n := |actions| - 1;
      RunInv(s, actions[..n]);
      StepKeeps(RunFrom(s, actions[..n]).value, actions[n]);
    }
  }

  lemma {:induction false} RunOne(s: State, a: Action)
    ensures RunFrom(s, [a]) == if Enabled(s, a) then Some(Apply(s, a)) else None
  {
    assert [a][..0] == [];
  }

  lemma {:induction false} RunSplit(s: State, a: seq<Action>, b: seq<Action>)
    requires RunFrom(s, a).Some?
    ensures RunFrom(s, a + b) == RunFrom(RunFrom(s, a).value, b)
  {
    hide Apply;
    hide Enabled;
    if b == [] {
      assert a + b == a;
    } else {
      var n := |b| - 1;
      assert (a + b)[..|a| + n] == a + b[..n];
      RunSplit(s, a, b[..n]);
    }
  }

  lemma {:induction false} RunPrefix(s: State, a: seq<Action>, b: seq<Action>)
    requires RunFrom(s, a + b).Some?
    ensures RunFrom(s, a).Some?
  {
    hide Apply;
    hide Enabled;
    if b == [] {
      assert a + b == a;
    } else {
      var n := |b| - 1;
      assert (a + b)[..|a| + n] == a + b[..n];
      RunPrefix(s, a, b[..n]);
    }
  }

  /** A step and then a run. */
  lemma {:induction false} RunCons(s: State, a: Action, actions: seq<Action>)
    requires Enabled(s, a)
    ensures RunFrom(s, [a] + actions) == RunFrom(Apply(s, a), actions)
  {
    hide Apply;
    hide Enabled;
    RunOne(s, a);
    RunSplit(s, [a], actions);
  }

  /** In every interleaving: running exactly while the current end channel is open, no end
      channel closed twice, and no recorded error on a running connection. */
  lemma {:induction false} LifecycleSafety(actions: seq<Action>, e: nat)
    requires RunFrom(INITIAL, actions).Some?
    ensures var f := RunFrom(INITIAL, actions).value.f;
            && (f.running <==> f.end in f.openEnds)
            && f.openEnds <= {f.end}
            && f.closes[e] <= 1
            && (f.lastError ==> !f.running)
  {
    RunInv(INITIAL, actions);
  }

  /** Every setError leaves the connection stopped and its end channel closed. */
  lemma {:induction false} SetErrorStops(actions: seq<Action>, w: Worker)
    requires RunFrom(INITIAL, actions).Some? && Enabled(RunFrom(INITIAL, actions).value, Report(w))
    ensures var r := Apply(RunFrom(INITIAL, actions).value, Report(w));
            !r.f.running && r.f.lastError && r.f.openEnds == {}
  {
    RunInv(INITIAL, actions);
    StepKeeps(RunFrom(INITIAL, actions).value, Report(w));
  }

  // ----- a failed Connect -----

  /** The steps in which Connect may return an error. */
  predicate MayFail(a: Action) {
    a.DialFails? || a.CleanedUp? || a.CallConnect? || a.Reconnects?
  }

  /** The step is the return of an error by Connect. */
  predicate Fails(s: State, a: Action)
    requires Enabled(s, a)
  {
    MayFail(a) && !Apply(s, a).control.Dialing?
  }

  /** Whenever Connect returns an error, the three goroutines it waits for are gone, nothing is
      running and every end channel is closed, that of any readMsgLoop still alive included. */
  lemma {:induction false} FailedConnectStops(actions: seq<Action>, a: Action)
    requires RunFrom(INITIAL, actions).Some? && Enabled(RunFrom(INITIAL, actions).value, a)
    requires Fails(RunFrom(INITIAL, actions).value, a)
    ensures var r := Apply(RunFrom(INITIAL, actions).value, a);
            r.live == {} && !r.f.running && r.f.openEnds == {}
  {
    RunInv(INITIAL, actions);
    StepKeeps(RunFrom(INITIAL, actions).value, a);
  }
}
