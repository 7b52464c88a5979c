/** Quit is final, and Loop returns (ircevent/irc.go). */
module QuitAndLoop {
  import opened ByteStrings
  import opened Lifecycle

  // ----- Quit is final -----

  /** Connects that were already past the guard. */
  function Committed(s: State): (n: nat) {
    if s.control.Dialing? then 1 else 0
  }

  function Connections(actions: seq<Action>): (n: nat) {
    if actions == [] then 0
    else Connections(actions[..|actions| - 1]) + if actions[|actions| - 1].DialSucceeds? then 1 else 0
  }

  /** After Quit, at most the one attempt already past Connect's guard becomes a connection. */
  lemma {:induction false} NoNewConnections(s: State, actions: seq<Action>)
    requires s.f.quit && RunFrom(s, actions).Some?
    ensures RunFrom(s, actions).value.f.quit
    ensures Connections(actions) + Committed(RunFrom(s, actions).value) <= Committed(s)
  {
    hide Apply;
    hide Enabled;
    if actions != [] {
      var n := |actions| - 1;
      NoNewConnections(s, actions[..n]);
      ConnectionStep(RunFrom(s, actions[..n]).value, actions[n]);
    }
  }

  lemma {:induction false} ConnectionStep(s: State, a: Action)
    requires Enabled(s, a)
    ensures Apply(s, a).f.end == s.f.end + if a.DialSucceeds? then 1 else 0
    ensures s.f.quit ==> Apply(s, a).f.quit && Committed(Apply(s, a)) + (if a.DialSucceeds? then 1 else 0) <= Committed(s)
  {
  }

  /** Once the client has quit and is not running or dialing, it never runs again. */
  lemma {:induction false} QuitIsFinal(s: State, actions: seq<Action>)
    requires s.f.quit && !s.f.running && !s.control.Dialing? && RunFrom(s, actions).Some?
    ensures var r := RunFrom(s, actions).value;
            r.f.quit && !r.f.running && !r.control.Dialing?
  {
    hide Apply;
    hide Enabled;
    if actions != [] {
      var n := |actions| - 1;
      QuitIsFinal(s, actions[..n]);
      StaysQuit(RunFrom(s, actions[..n]).value, actions[n]);
    }
  }

  lemma {:induction false} StaysQuit(s: State, a: Action)
    requires Enabled(s, a) && s.f.quit && !s.f.running && !s.control.Dialing?
    ensures var r := Apply(s, a); r.f.quit && !r.f.running && !r.control.Dialing?
  {
  }

  /** A tick at least Timeout after the latest Quit condemns the connection: until its
      setError the pinger has nothing else to do, and after it the client never runs again. */
  lemma {:induction false} LateTickEndsConnection(s: State, pingDue: bool, between: seq<Action>, after: seq<Action>)
    requires Inv(s) && Enabled(s, Tick(pingDue)) && s.f.quit && s.now - s.f.quitAt >= TIMEOUT
    requires RunFrom(Apply(s, Tick(pingDue)), between + [Report(Pinger)] + after).Some?
    ensures !RunFrom(Apply(s, Tick(pingDue)), between + [Report(Pinger)] + after).value.f.running
  {
    var t := Apply(s, Tick(pingDue));
    StepKeeps(s, Tick(pingDue));
    RunPrefix(t, between + [Report(Pinger)], after);
    RunSplit(t, between + [Report(Pinger)], after);
    RunPrefix(t, between, [Report(Pinger)]);
    RunSplit(t, between, [Report(Pinger)]);
    var u := RunFrom(t, between).value;
    RunInv(t, between);
    NoNewConnections(t, between);
    RunOne(u, Report(Pinger));
    StepKeeps(u, Report(Pinger));
    CloseEndSound(u.f);
    var v := Apply(u, Report(Pinger));
    QuitIsFinal(v, after);
  }

  // ----- Loop -----

  /** How many control steps a Loop has before it at most, once the client has quit. */
  function Rank(c: Control): (n: nat) {
    match c
    case Idle => 0
    case Dialing(_) => 5
    case Negotiating(_) => 4
    case Cleaning(_) => 3
    case Sleeping => 3
    case Waiting => 2
    case Checking => 1
    case LoopReturned => 0
  }

  /** The steps of a run that move the client goroutine. */
  function ControlSteps(s: State, actions: seq<Action>): (n: nat)
    requires RunFrom(s, actions).Some?
  {
    if actions == [] then 0
    else
      var front := actions[..|actions| - 1];
      ControlSteps(s, front) +
      if RunFrom(s, actions).value.control != RunFrom(s, front).value.control then 1 else 0
  }

  predicate IsCall(a: Action) {
    a.CallConnect? || a.CallLoop?
  }

  predicate NoCalls(actions: seq<Action>) {
    forall i :: 0 <= i < |actions| ==> !IsCall(actions[i])
  }

  lemma {:induction false} LoopStep(s: State, a: Action)
    requires s.f.quit && InLoop(s.control) && Enabled(s, a)
    ensures IsCall(a) ==> s.control == LoopReturned
    ensures !IsCall(a) ==>
              var r := Apply(s, a);
              && r.f.quit && InLoop(r.control)
              && (r.control != s.control ==> Rank(r.control) < Rank(s.control))
  {
  }

  /** After Quit a Loop, wherever it stands, takes at most five more control steps until the
      client calls Connect or Loop again: it cannot go on reconnecting. */
  lemma {:induction false} LoopWindsDown(s: State, actions: seq<Action>)
    requires s.f.quit && InLoop(s.control) && RunFrom(s, actions).Some? && NoCalls(actions)
    ensures var r := RunFrom(s, actions).value;
            && r.f.quit && InLoop(r.control)
            && ControlSteps(s, actions) + Rank(r.control) <= Rank(s.control) <= 5
            && (Rank(r.control) == 0 <==> r.control == LoopReturned)
  {
    hide Apply;
    hide Enabled;
    if actions != [] {
      var n := |actions| - 1;
      LoopWindsDown(s, actions[..n]);
      LoopStep(RunFrom(s, actions[..n]).value, actions[n]);
    }
  }

  /** And the client cannot call again before Loop has returned. */
  lemma {:induction false} NextCallAfterReturn(s: State, actions: seq<Action>, call: Action)
    requires s.f.quit && InLoop(s.control) && RunFrom(s, actions).Some? && NoCalls(actions)
    requires IsCall(call) && Enabled(RunFrom(s, actions).value, call)
    ensures RunFrom(s, actions).value.control == LoopReturned
  {
    hide Enabled;
    LoopWindsDown(s, actions);
    LoopStep(RunFrom(s, actions).value, call);
  }

  /** Steps that need neither the server nor the user: the client's own goroutines, its timers,
      and attempts that fail by running into them. */
  predicate Local(a: Action) {
    || a.DialFails? || a.NegotiationFails? || a.CleanedUp? || a.WaitOver? || a.CheckQuit? || a.Reconnects?
    || a.StartReading? || a.Tick? || a.Report? || a.Exit? || a.Pass?
  }

  predicate AllLocal(actions: seq<Action>) {
    forall i :: 0 <= i < |actions| ==> Local(actions[i])
  }

  /** A stopped connection can lose its last goroutines. */
  lemma {:induction false} CanStop(s: State) returns (actions: seq<Action>)
    requires Inv(s) && s.f.end > 0 && !s.f.running
    ensures AllLocal(actions) && RunFrom(s, actions).Some?
    ensures var t := RunFrom(s, actions).value;
            Inv(t) && t.live == {} && !t.f.running && t.control == s.control && t.f.end == s.f.end && t.f.quit == s.f.quit
    decreases s.live, s.deciding, !s.spawned
  {
    if s.live == {} {
      return [];
    }
    var a: Action;
    if s.deciding != {} {
      var w :| w in s.deciding;
      a := Report(w);
    } else if Reader in s.live && !s.spawned {
      a := StartReading;
    } else {
      var w :| w in s.live;
      a := Exit(w);
    }
    StepKeeps(s, a);
    var rest := CanStop(Apply(s, a));
    RunCons(s, a, rest);
    actions := [a] + rest;
  }

  /** After Quit, time and the pinger suffice to end a running connection. */
  lemma {:induction false} CanEnd(s: State) returns (actions: seq<Action>)
    requires Inv(s) && s.f.end > 0 && s.f.quit
    ensures AllLocal(actions) && RunFrom(s, actions).Some?
    ensures var t := RunFrom(s, actions).value;
            Inv(t) && !t.f.running && t.control == s.control && t.f.end == s.f.end && t.f.quit
  {
    if !s.f.running {
      return [];
    } else if Pinger in s.deciding {
      actions := CanReport(s);
    } else {
      var late := if s.now < s.f.quitAt + TIMEOUT then s.f.quitAt + TIMEOUT else s.now;
      var s1 := s.(now := late);
      var s2 := s1.(deciding := s.deciding + {Pinger});
      assert Apply(s, Pass(late)) == s1 && Apply(s1, Tick(false)) == s2;
      StepKeeps(s, Pass(late));
      StepKeeps(s1, Tick(false));
      hide Inv;
      actions := CanReport(s2);
      RunCons(s1, Tick(false), actions);
      RunCons(s, Pass(late), [Tick(false)] + actions);
      actions := [Pass(late)] + ([Tick(false)] + actions);
    }
  }

  lemma {:induction false} CanReport(s: State) returns (actions: seq<Action>)
    requires Inv(s) && Pinger in s.deciding
    ensures AllLocal(actions) && RunFrom(s, actions).Some?
    ensures var t := RunFrom(s, actions).value;
            Inv(t) && !t.f.running && t.control == s.control && t.f.end == s.f.end && t.f.quit == s.f.quit
  {
    StepKeeps(s, Report(Pinger));
    CloseEndSound(s.f);
    RunOne(s, Report(Pinger));
    actions := [Report(Pinger)];
  }

  /** The rest of waitForStop and the check behind it. */
  lemma {:induction false} CanReturnFromWait(s: State) returns (actions: seq<Action>)
    requires Inv(s) && s.f.quit && s.control == Waiting && s.f.end > 0
    ensures AllLocal(actions) && RunFrom(s, actions).Some? && RunFrom(s, actions).value.control == LoopReturned
  {
    var ending := CanEnd(s);
    var s1 := RunFrom(s, ending).value;
    var stopping := CanStop(s1);
    var s2 := RunFrom(s1, stopping).value;
    var s3 := Apply(s2, WaitOver);
    RunOne(s3, CheckQuit);
    RunCons(s2, WaitOver, [CheckQuit]);
    RunSplit(s1, stopping, [WaitOver] + [CheckQuit]);
    actions := stopping + ([WaitOver] + [CheckQuit]);
    RunSplit(s, ending, actions);
    actions := ending + actions;
  }

  /** A failed attempt brings a Loop back to waitForStop. */
  lemma {:induction false} CanReachWait(s: State) returns (actions: seq<Action>)
    requires Inv(s) && s.f.quit && InLoop(s.control) && Rank(s.control) > 2
    ensures AllLocal(actions) && RunFrom(s, actions).Some?
    ensures var t := RunFrom(s, actions).value; Inv(t) && t.f.quit && t.control == Waiting && t.f.end > 0
  {
    if s.control.Cleaning? {
      actions := CanCleanUp(s);
    } else if s.control.Negotiating? {
      var t := Apply(s, NegotiationFails);
      StepKeeps(s, NegotiationFails);
      var rest := CanCleanUp(t);
      RunCons(s, NegotiationFails, rest);
      return [NegotiationFails] + rest;
    } else {
      var a := if s.control.Dialing? then DialFails else Reconnects(true);
      StepKeeps(s, a);
      RunOne(s, a);
      return [a];
    }
  }

  lemma {:induction false} CanCleanUp(s: State) returns (actions: seq<Action>)
    requires Inv(s) && s.f.quit && s.control == Cleaning(true)
    ensures AllLocal(actions) && RunFrom(s, actions).Some?
    ensures var t := RunFrom(s, actions).value; Inv(t) && t.f.quit && t.control == Waiting && t.f.end > 0
  {
    actions := CanStop(s);
    var t := RunFrom(s, actions).value;
    StepKeeps(t, CleanedUp);
    RunOne(t, CleanedUp);
    RunSplit(s, actions, [CleanedUp]);
    actions := actions + [CleanedUp];
  }

  /** The actions lead a Loop to its return. */
  predicate Returns(s: State, actions: seq<Action>) {
    RunFrom(s, actions).Some? && RunFrom(s, actions).value.control == LoopReturned
  }

  /** After Quit a Loop can return from wherever it stands, by local steps alone, if and only if
      a connection was ever set up; if none was, no schedule at all makes it return. */
  lemma {:induction false} LoopCanReturnIff(actions: seq<Action>)
    requires RunFrom(INITIAL, actions).Some?
    requires var s := RunFrom(INITIAL, actions).value; s.f.quit && InLoop(s.control)
    ensures var s := RunFrom(INITIAL, actions).value;
            && (Connections(actions) > 0 ==> exists more :: AllLocal(more) && Returns(s, more))
            && (Connections(actions) == 0 ==> forall more :: !Returns(s, more))
  {
    RunInv(INITIAL, actions);
    EndCounts(actions);
    var s := RunFrom(INITIAL, actions).value;
    if s.f.end > 0 {
      var more := LoopReturnSchedule(s);
      assert Returns(s, more);
    } else {
      forall more ensures !Returns(s, more) {
        if Returns(s, more) {
          LoopWithoutConnectionHangs(s, more);
          assert false;
        }
      }
    }
  }

  lemma {:induction false} LoopReturnSchedule(s: State) returns (actions: seq<Action>)
    requires Inv(s) && s.f.quit && InLoop(s.control) && s.f.end > 0
    ensures AllLocal(actions) && RunFrom(s, actions).Some? && RunFrom(s, actions).value.control == LoopReturned
  {
    if Rank(s.control) > 2 {
      var first := CanReachWait(s);
      var t := RunFrom(s, first).value;
      var rest := CanReturnFromWait(t);
      RunSplit(s, first, rest);
      return first + rest;
    } else if s.control == Waiting {
      actions := CanReturnFromWait(s);
    } else if s.control == Checking {
      RunOne(s, CheckQuit);
      return [CheckQuit];
    } else {
      return [];
    }
  }

  /** The comment in Loop holds: after every failed reconnect the stop check returns at once. */
  lemma {:induction false} FailedReconnectStopsAtOnce(actions: seq<Action>, a: Action)
    requires RunFrom(INITIAL, actions).Some? && Enabled(RunFrom(INITIAL, actions).value, a)
    requires Fails(RunFrom(INITIAL, actions).value, a)
    ensures var r := Apply(RunFrom(INITIAL, actions).value, a); r.control == Waiting ==> Enabled(r, WaitOver)
  {
    RunInv(INITIAL, actions);
    FailedConnectStops(actions, a);
  }

  /** On a stopped connection Loop passes its stop check if and only if some Connect has got as
      far as setting up a connection. */
  lemma {:induction false} StopCheckIff(actions: seq<Action>)
    requires RunFrom(INITIAL, actions).Some?
    requires var s := RunFrom(INITIAL, actions).value; s.control == Waiting && s.live == {} && !s.f.running
    ensures Enabled(RunFrom(INITIAL, actions).value, WaitOver) <==> Connections(actions) > 0
  {
    RunInv(INITIAL, actions);
    EndCounts(actions);
  }

  lemma {:induction false} EndCounts(actions: seq<Action>)
    requires RunFrom(INITIAL, actions).Some?
    ensures RunFrom(INITIAL, actions).value.f.end == Connections(actions)
  {
    hide Apply;
    hide Enabled;
    if actions != [] {
      var n := |actions| - 1;
      EndCounts(actions[..n]);
      ConnectionStep(RunFrom(INITIAL, actions[..n]).value, actions[n]);
    }
  }

  /** A Loop entered before any Connect got as far as setting up a connection waits forever,
      because the nil end channel never closes. */
  lemma {:induction false} LoopWithoutConnectionHangs(s: State, actions: seq<Action>)
    requires s.control == Waiting && s.f.end == 0 && RunFrom(s, actions).Some?
    ensures RunFrom(s, actions).value.control == Waiting && RunFrom(s, actions).value.f.end == 0
  {
    hide Apply;
    hide Enabled;
    if actions != [] {
      var n := |actions| - 1;
      LoopWithoutConnectionHangs(s, actions[..n]);
      HangStep(RunFrom(s, actions[..n]).value, actions[n]);
    }
  }

  lemma {:induction false} HangStep(s: State, a: Action)
    requires s.control == Waiting && s.f.end == 0 && Enabled(s, a)
    ensures Apply(s, a).control == Waiting && Apply(s, a).f.end == 0
  {
  }

  /** Such a Loop is reached by ignoring the error of a first Connect. */
  lemma {:induction false} HangIsReachable()
    ensures RunFrom(INITIAL, [CallConnect(true), DialFails, CallLoop]) == Some(INITIAL.(control := Waiting))
  {
    var s1 := INITIAL.(control := Dialing(false));
    assert Apply(INITIAL, CallConnect(true)) == s1 && Apply(s1, DialFails) == INITIAL;
    RunOne(INITIAL, CallLoop);
    RunCons(s1, DialFails, [CallLoop]);
    RunCons(INITIAL, CallConnect(true), [DialFails, CallLoop]);
    assert [CallConnect(true), DialFails, CallLoop] == [CallConnect(true)] + [DialFails, CallLoop];
    assert [DialFails, CallLoop] == [DialFails] + [CallLoop];
  }
}
