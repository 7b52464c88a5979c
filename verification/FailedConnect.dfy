/** What a failed Connect leaves behind (ircevent/irc.go): sockets, and the readMsgLoop that
    waitForStop does not wait for. */
module FailedConnect {
  import opened ByteStrings
  import opened Lifecycle

  // ----- sockets -----

  /** A Connect has succeeded and Loop has not waited for the end of its connection since. */
  predicate Held(actions: seq<Action>) {
    if actions == [] then false
    else
      var n := |actions| - 1;
      actions[n].Registers? || (!actions[n].WaitOver? && Held(actions[..n]))
  }

  predicate HasQuit(actions: seq<Action>) {
    if actions == [] then false
    else var n := |actions| - 1; actions[n].CallQuit? || HasQuit(actions[..n])
  }

  /** Connect was called while such a connection was held, before any Quit. */
  predicate Forgot(actions: seq<Action>) {
    if actions == [] then false
    else
      var n := |actions| - 1;
      Forgot(actions[..n]) || (actions[n].CallConnect? && Held(actions[..n]) && !HasQuit(actions[..n]))
  }

  /** Open sockets the client no longer knows. */
  function Lost(f: Fields): (r: set<nat>) {
    f.openSockets - {f.socket}
  }

  /** Connect is at work on a connection. */
  predicate Connecting(c: Control) {
    c.Dialing? || c.Negotiating? || c.Cleaning?
  }

  /** What is known of sockets in any run. */
  predicate SocketsSound(s: State) {
    && (forall n :: n in s.f.openSockets ==> 0 < n <= s.f.end)
    && (s.control.Dialing? ==> s.f.socket == 0)
    && (s.control.Negotiating? || s.control.Cleaning? ==> s.f.socket in s.f.openSockets)
    && (s.control.Checking? || s.control.Sleeping? || s.control.LoopReturned? ==> s.f.socket !in s.f.openSockets)
  }

  /** As long as no socket was forgotten, the only open one is that of a connection that is
      held or being set up. */
  predicate Careful(s: State, held: bool) {
    && Lost(s.f) == {}
    && (if Connecting(s.control) then !held else held <==> s.f.socket in s.f.openSockets)
  }

  ghost predicate Accounted(s: State, actions: seq<Action>) {
    && SocketsSound(s)
    && (s.f.quit <==> HasQuit(actions))
    && (if Forgot(actions) then Lost(s.f) != {} else Careful(s, Held(actions)))
  }

  lemma {:induction false} SocketsStep(s: State, a: Action)
    requires Enabled(s, a) && SocketsSound(s)
    ensures SocketsSound(Apply(s, a)) && (Apply(s, a).f.quit <==> s.f.quit || a.CallQuit?)
  {
  }

  lemma {:induction false} CarefulStep(s: State, a: Action, held: bool)
    requires Enabled(s, a) && SocketsSound(s) && Careful(s, held) && !(a.CallConnect? && held && !s.f.quit)
    ensures Careful(Apply(s, a), a.Registers? || (!a.WaitOver? && held))
  {
  }

  lemma {:induction false} LostStep(s: State, a: Action)
    requires Enabled(s, a) && SocketsSound(s)
    requires Lost(s.f) != {} || (Careful(s, true) && a.CallConnect? && !s.f.quit)
    ensures Lost(Apply(s, a).f) != {}
  {
    var r := Apply(s, a);
    if Lost(s.f) != {} {
      var n :| n in Lost(s.f);
      assert n in Lost(r.f);
    } else {
      assert s.f.socket in Lost(r.f);
    }
  }

  lemma {:induction false} RunAccounts(actions: seq<Action>)
    requires RunFrom(INITIAL, actions).Some?
    ensures Accounted(RunFrom(INITIAL, actions).value, actions)
  {
    hide Enabled;
    hide Apply;
    hide SocketsSound;
    hide Careful;
    hide Lost;
    if actions == [] {
      NothingOpen();
    } else {
      var n := |actions| - 1;
      var front, a := actions[..n], actions[n];
      RunAccounts(front);
      var s := RunFrom(INITIAL, front).value;
      SocketsStep(s, a);
      if Forgot(actions) {
        LostStep(s, a);
      } else {
        CarefulStep(s, a, Held(front));
      }
    }
  }

  lemma {:induction false} NothingOpen()
    ensures SocketsSound(INITIAL) && Careful(INITIAL, false) && !INITIAL.f.quit
  {
  }

  /** A Connect that returns an error leaves every socket closed if and only if no socket was
      ever forgotten, by calling Connect instead of Loop after a success, and no connection is
      held (which after Quit makes Connect fail without touching it). */
  lemma {:induction false} FailedConnectSockets(actions: seq<Action>, a: Action)
    requires RunFrom(INITIAL, actions).Some? && Enabled(RunFrom(INITIAL, actions).value, a)
    requires Fails(RunFrom(INITIAL, actions).value, a)
    ensures Apply(RunFrom(INITIAL, actions).value, a).f.openSockets == {} <==> !Forgot(actions + [a]) && !Held(actions)
  {
    hide Held;
    hide HasQuit;
    var s := RunFrom(INITIAL, actions).value;
    RunAccounts(actions);
    var all := actions + [a];
    assert all[..|actions|] == actions && all[|actions|] == a;
    if Forgot(all) {
      LostStep(s, a);
    }
  }

  // ----- readMsgLoop after a failed Connect -----

  /** A readMsgLoop with nobody left to talk to. */
  predicate Abandoned(s: State, e: nat) {
    && e !in s.f.openEnds && e <= s.f.end
    && (e == s.f.end ==> Reader !in s.live)
  }

  /** The steps a readMsgLoop takes part in. */
  predicate Moves(s: State, a: Action, e: nat) {
    || (a.ReadReturns? && a.e == e)
    || (a.MsgLoopExits? && a.e == e)
    || (a.Deliver? && s.f.end == e)
    || (a.ReadFails? && s.f.end == e)
    || (a.StartReading? && s.f.end == e)
  }

  /** What is left of a readMsgLoop's life. */
  function StepsLeft(s: State, e: nat): (n: nat) {
    if e !in s.msgLoops then 0 else if s.msgLoops[e] == Reading then 2 else 1
  }

  predicate Bounded(s: State) {
    forall e :: e in s.msgLoops ==> e <= s.f.end
  }

  lemma {:induction false} BoundedStep(s: State, a: Action)
    requires Bounded(s) && Enabled(s, a)
    ensures Bounded(Apply(s, a))
  {
  }

  lemma {:induction false} RunBounded(actions: seq<Action>)
    requires RunFrom(INITIAL, actions).Some?
    ensures Bounded(RunFrom(INITIAL, actions).value)
  {
    hide Bounded;
    hide Enabled;
    hide Apply;
    if actions == [] {
      NoMsgLoops();
    } else {
      var n := |actions| - 1;
      RunBounded(actions[..n]);
      BoundedStep(RunFrom(INITIAL, actions[..n]).value, actions[n]);
    }
  }

  lemma {:induction false} NoMsgLoops()
    ensures Bounded(INITIAL)
  {
  }

  lemma {:induction false} AbandonedStep(s: State, a: Action, e: nat)
    requires EndsSound(s.f) && Abandoned(s, e) && Enabled(s, a)
    ensures Abandoned(Apply(s, a), e)
    ensures Moves(s, a, e) ==> Leaves(a, e) && StepsLeft(Apply(s, a), e) + 1 == StepsLeft(s, e)
    ensures !Moves(s, a, e) ==> StepsLeft(Apply(s, a), e) == StepsLeft(s, e)
  {
  }

  /** On its way out: its last ReadLine returns, or it sees its `end` closed. */
  predicate Leaves(a: Action, e: nat) {
    (a.ReadReturns? && a.e == e) || a == MsgLoopExits(e)
  }

  /** In a run, the readMsgLoop takes no other step. */
  ghost predicate OnlyLeaves(s: State, actions: seq<Action>, e: nat)
    requires RunFrom(s, actions).Some?
  {
    if actions == [] then true
    else
      var n := |actions| - 1;
      OnlyLeaves(s, actions[..n], e) && (Moves(RunFrom(s, actions[..n]).value, actions[n], e) ==> Leaves(actions[n], e))
  }

  /** How many steps of a run a readMsgLoop takes part in. */
  function MovesIn(s: State, actions: seq<Action>, e: nat): (n: nat)
    requires RunFrom(s, actions).Some?
  {
    if actions == [] then 0
    else
      var n := |actions| - 1;
      MovesIn(s, actions[..n], e) + if Moves(RunFrom(s, actions[..n]).value, actions[n], e) then 1 else 0
  }

  lemma {:induction false} InvEnds(s: State)
    requires Inv(s)
    ensures EndsSound(s.f)
  {
  }

  lemma {:induction false} AbandonedRun(s: State, more: seq<Action>, e: nat)
    requires Inv(s) && Abandoned(s, e) && RunFrom(s, more).Some?
    ensures Abandoned(RunFrom(s, more).value, e) && OnlyLeaves(s, more, e)
    ensures MovesIn(s, more, e) + StepsLeft(RunFrom(s, more).value, e) == StepsLeft(s, e)
  {
    hide Inv;
    hide Apply;
    hide Enabled;
    hide Abandoned;
    hide Moves;
    hide Leaves;
    hide StepsLeft;
    hide EndsSound;
    if more != [] {
      var n := |more| - 1;
      AbandonedRun(s, more[..n], e);
      RunInv(s, more[..n]);
      var t := RunFrom(s, more[..n]).value;
      InvEnds(t);
      AbandonedStep(t, more[n], e);
    }
  }

  /** Stuck in ReadLine until the peer sends something: with its socket closed it cannot be. */
  predicate MayBlock(s: State, e: nat) {
    e in s.msgLoops && s.msgLoops[e] == Reading && e in s.f.openSockets
  }

  /** A readMsgLoop that is alive when Connect returns an error has its own end channel closed
      and, if the condition above holds, its socket closed, so that it cannot block. Whatever happens later, it takes at most two more steps, the return of its ReadLine
      and its exit, and one of them can be taken as long as it is alive. */
  lemma {:induction false} LeftoverOnlyLeaves(actions: seq<Action>, a: Action, more: seq<Action>, e: nat)
    requires RunFrom(INITIAL, actions).Some? && Enabled(RunFrom(INITIAL, actions).value, a)
    requires Fails(RunFrom(INITIAL, actions).value, a)
    requires var r := Apply(RunFrom(INITIAL, actions).value, a); e in r.msgLoops && RunFrom(r, more).Some?
    ensures var r := Apply(RunFrom(INITIAL, actions).value, a);
            var t := RunFrom(r, more).value;
            && e !in r.f.openEnds
            && (!Forgot(actions + [a]) && !Held(actions) ==> e !in r.f.openSockets && !MayBlock(r, e))
            && OnlyLeaves(r, more, e)
            && MovesIn(r, more, e) <= 2
            && (e in t.msgLoops ==> MovesIn(r, more, e) < 2 && exists b :: Leaves(b, e) && Enabled(t, b))
  {
    var s := RunFrom(INITIAL, actions).value;
    var r := Apply(s, a);
    var t := RunFrom(r, more).value;
    LeftoverAbandoned(actions, a, e);
    hide Inv;
    hide Apply;
    hide Abandoned;
    hide Forgot;
    hide Held;
    hide Fails;
    FailedConnectSockets(actions, a);
    AbandonedRun(r, more, e);
    if e in t.msgLoops {
      CanLeave(t, e);
    }
  }

  lemma {:induction false} LeftoverAbandoned(actions: seq<Action>, a: Action, e: nat)
    requires RunFrom(INITIAL, actions).Some? && Enabled(RunFrom(INITIAL, actions).value, a)
    requires Fails(RunFrom(INITIAL, actions).value, a)
    requires e in Apply(RunFrom(INITIAL, actions).value, a).msgLoops
    ensures var r := Apply(RunFrom(INITIAL, actions).value, a); Inv(r) && Abandoned(r, e) && e !in r.f.openEnds
  {
    var s := RunFrom(INITIAL, actions).value;
    RunInv(INITIAL, actions);
    StepKeeps(s, a);
    FailedConnectStops(actions, a);
    RunBounded(actions);
    BoundedStep(s, a);
  }

  lemma {:induction false} CanLeave(s: State, e: nat)
    requires Abandoned(s, e) && e in s.msgLoops
    ensures exists b :: Leaves(b, e) && Enabled(s, b)
  {
    var b := if s.msgLoops[e] == Reading then ReadReturns(e, true) else MsgLoopExits(e);
    assert Leaves(b, e) && Enabled(s, b);
  }

  // ----- two concrete runs -----

  /** All three goroutines see `end` closed. */
  const ALL_EXIT := [Exit(Reader), Exit(Writer), Exit(Pinger)]

  lemma {:induction false} AllExit(s: State)
    requires s.live == WORKERS && s.deciding == {} && s.spawned && EndClosed(s)
    ensures RunFrom(s, ALL_EXIT) == Some(s.(live := {}))
  {
    var s1 := s.(live := {Writer, Pinger});
    var s2 := s.(live := {Pinger});
    assert WORKERS - {Reader} == {Writer, Pinger} && {Writer, Pinger} - {Writer} == {Pinger} && {Pinger} - {Pinger} == {};
    assert Apply(s, Exit(Reader)) == s1 && Apply(s1, Exit(Writer)) == s2 && Apply(s2, Exit(Pinger)) == s.(live := {});
    RunOne(s2, Exit(Pinger));
    RunCons(s1, Exit(Writer), [Exit(Pinger)]);
    RunCons(s, Exit(Reader), [Exit(Writer), Exit(Pinger)]);
    assert ALL_EXIT == [Exit(Reader)] + [Exit(Writer), Exit(Pinger)];
    assert [Exit(Writer), Exit(Pinger)] == [Exit(Writer)] + [Exit(Pinger)];
  }

  /** The first connection, at the given point, with its readMsgLoop in ReadLine. */
  function First(f: Fields, c: Control, live: set<Worker>): (s: State) {
    State(f, c, live, {}, true, map[1 := Reading], 0)
  }

  const FIRST_UP: Fields := Established(INITIAL_FIELDS)

  lemma {:induction false} FirstStarts()
    ensures RunFrom(INITIAL, [CallConnect(true), DialSucceeds, StartReading]) == Some(First(FIRST_UP, Negotiating(false), WORKERS))
  {
    var s1 := INITIAL.(control := Dialing(false));
    var s2 := State(FIRST_UP, Negotiating(false), WORKERS, {}, false, map[], 0);
    assert Apply(INITIAL, CallConnect(true)) == s1 && Apply(s1, DialSucceeds) == s2;
    RunOne(s2, StartReading);
    RunCons(s1, DialSucceeds, [StartReading]);
    RunCons(INITIAL, CallConnect(true), [DialSucceeds, StartReading]);
    assert [CallConnect(true), DialSucceeds, StartReading] == [CallConnect(true)] + [DialSucceeds, StartReading];
    assert [DialSucceeds, StartReading] == [DialSucceeds] + [StartReading];
  }

  /** A failed Connect may return while its readMsgLoop is still alive, in ReadLine. */
  lemma {:induction false} MsgLoopOutlivesConnect() returns (actions: seq<Action>)
    ensures RunFrom(INITIAL, actions).Some? && Enabled(RunFrom(INITIAL, actions).value, CleanedUp)
    ensures Fails(RunFrom(INITIAL, actions).value, CleanedUp)
    ensures Apply(RunFrom(INITIAL, actions).value, CleanedUp).msgLoops == map[1 := Reading]
  {
    hide RunFrom;
    FirstStarts();
    var start := [CallConnect(true), DialSucceeds, StartReading];
    var s1 := First(FIRST_UP, Negotiating(false), WORKERS);
    var s2 := First(WithEndClosed(FIRST_UP), Cleaning(false), WORKERS);
    assert Apply(s1, NegotiationFails) == s2;
    AllExit(s2);
    RunCons(s1, NegotiationFails, ALL_EXIT);
    actions := start + ([NegotiationFails] + ALL_EXIT);
    RunSplit(INITIAL, start, [NegotiationFails] + ALL_EXIT);
  }

  /** A Connect called again after a success whose connection has ended: its failure leaves
      the first connection's socket open and its readMsgLoop blocked on it. */
  lemma {:induction false} ForgottenSocket() returns (actions: seq<Action>)
    ensures RunFrom(INITIAL, actions).Some? && Enabled(RunFrom(INITIAL, actions).value, DialFails)
    ensures Fails(RunFrom(INITIAL, actions).value, DialFails)
    ensures MayBlock(Apply(RunFrom(INITIAL, actions).value, DialFails), 1)
  {
    hide RunFrom;
    FirstStarts();
    var start := [CallConnect(true), DialSucceeds, StartReading];
    var s1 := First(FIRST_UP, Negotiating(false), WORKERS);
    var s2 := First(FIRST_UP, Idle, WORKERS);
    var s3 := First(WithEndClosed(FIRST_UP), Idle, WORKERS);
    var s4 := First(WithEndClosed(FIRST_UP), Idle, {});
    assert Apply(s1, Registers) == s2 && Apply(s2, CallReconnect) == s3;
    AllExit(s3);
    RunOne(s4, CallConnect(true));
    RunSplit(s3, ALL_EXIT, [CallConnect(true)]);
    var tail := ALL_EXIT + [CallConnect(true)];
    RunCons(s2, CallReconnect, tail);
    RunCons(s1, Registers, [CallReconnect] + tail);
    actions := start + ([Registers] + ([CallReconnect] + tail));
    RunSplit(INITIAL, start, [Registers] + ([CallReconnect] + tail));
  }
}
