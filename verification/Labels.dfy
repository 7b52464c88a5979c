/** Labeled responses (ircevent/irc_callback.go, ircevent/irc.go): the table of pending
    callbacks, and every interleaving of senders, the read loop and shutdown within one
    connection. Each mutex section is one atomic step. */
module Labels {
  import opened ByteStrings
  import LabelText

  /** Identifies one call of SendWithLabel, and so its callback. */
  type Call = nat

  // ----- the table -----

  datatype Pending = Pending(createdAt: int, callback: Call)

  /** labelCounter and labelCallbacks. */
  datatype Table = Table(counter: int, pending: map<int, Pending>)

  const EMPTY_TABLE := Table(0, map[])

  function Register(t: Table, c: Call, now: int): (r: Table) {
    Table(t.counter + 1, t.pending[t.counter + 1 := Pending(now, c)])
  }

  function Remove(t: Table, labels: set<int>): (r: Table) {
    t.(pending := t.pending - labels)
  }

  /** The callbacks registered under the given labels. */
  function CallbacksOf(t: Table, labels: set<int>): (r: set<Call>) {
    set l | l in labels && l in t.pending :: t.pending[l].callback
  }

  lemma {:induction false} SomeMember(s: set<int>)
    ensures s == {} || exists l :: l in s
  {
    assert (forall l :: l !in s) ==> s == {};
  }

  /** Where a finished top-level batch goes. */
  datatype Route = ToCallback(c: Call) | ToHandlers | UnknownLabel

  class LabelTable {
    var counter: int
    var pending: map<int, Pending>

    function View(): (t: Table)
      reads this
    {
      Table(counter, pending)
    }

    constructor ()
      ensures View() == EMPTY_TABLE
    {
      counter, pending := 0, map[];
    }

    method RegisterLabel(c: Call, now: int) returns (text: Bytes)
      modifies this
      ensures View() == Register(old(View()), c, now)
      ensures counter == old(counter) + 1 && pending == old(pending)[old(counter) + 1 := Pending(now, c)]
      ensures text == LabelText.Serialize(counter)
    {
      counter := counter + 1;
      pending := pending[counter := Pending(now, c)];
      text := LabelText.Serialize(counter);
    }

    method UnregisterLabel(text: Bytes)
      modifies this`pending
      ensures forall l :: l in pending <==> l in old(pending) && (l != LabelText.Deserialize(text) || l == 0)
      ensures forall l :: l in pending ==> pending[l] == old(pending)[l]
      ensures View() == Remove(old(View()), if LabelText.Deserialize(text) == 0 then {} else {LabelText.Deserialize(text)})
    {
      var n := LabelText.Deserialize(text);
      if n == 0 {
        assert pending - {} == pending;
        return;
      }
      pending := pending - {n};
    }

    /** getLabelCallback: look a label up and take its entry out. */
    method GetLabelCallback(n: int) returns (callback: Option<Call>)
      modifies this`pending
      ensures callback == if n in old(pending) then Some(old(pending)[n].callback) else None
      ensures View() == Remove(old(View()), {n}) && pending == old(pending) - {n}
    {
      callback := None;
      if n in pending {
        callback := Some(pending[n].callback);
      } else {
        assert pending - {n} == pending;
      }
      pending := pending - {n};
    }

    /** The end of handleBatchCommand for a finished batch whose start carried label `n`, 0 for
        none: a label nobody waits for drops the batch. */
    method RouteFinished(n: int) returns (r: Route)
      modifies this`pending
      ensures r.ToHandlers? <==> n == 0
      ensures r.UnknownLabel? <==> n != 0 && n !in old(pending)
      ensures r.ToCallback? ==> n in old(pending) && r.c == old(pending)[n].callback
      ensures View() == Remove(old(View()), if n == 0 then {} else {n})
    {
      if n == 0 {
        assert pending - {} == pending;
        return ToHandlers;
      }
      var callback := GetLabelCallback(n);
      match callback {
        case Some(c) => return ToCallback(c);
        case None => return UnknownLabel;
      }
    }

    /** The part of expireBatches that collects callbacks to fail; `order` lists their labels. */
    method ExpireLabels(force: bool, now: int, keepAlive: int) returns (failed: seq<Call>, ghost order: seq<int>)
      modifies this`pending
      ensures forall l :: l in order <==> l in old(pending) && (force || now - old(pending)[l].createdAt > keepAlive)
      ensures forall i, j :: 0 <= i < j < |order| ==> order[i] != order[j]
      ensures |failed| == |order|
      ensures forall i :: 0 <= i < |failed| ==> order[i] in old(pending) && failed[i] == old(pending)[order[i]].callback
      ensures View() == Remove(old(View()), set l | l in order)
    {
      ghost var all := pending;
      var left: set<int> := pending.Keys;
      failed, order := [], [];
      assert pending == all - (set l | l in order);
      while left != {}
        invariant left <= all.Keys && left <= pending.Keys
        invariant forall l :: l in order <==> l in all && l !in left && (force || now - all[l].createdAt > keepAlive)
        invariant forall i, j :: 0 <= i < j < |order| ==> order[i] != order[j]
        invariant |failed| == |order|
        invariant forall i :: 0 <= i < |failed| ==> order[i] in all && failed[i] == all[order[i]].callback
        invariant pending == all - (set l | l in order)
      {
        SomeMember(left);
        var l :| l in left;
        if force || now - pending[l].createdAt > keepAlive {
          failed := failed + [pending[l].callback];
          pending := pending - {l};
          order := order + [l];
        }
        left := left - {l};
      }
    }
  }

  /** What ExpireLabels collects is what the entries it removes hold, each callback once, as
      long as different labels hold different callbacks. */
  lemma {:induction false} CollectedOnce(t: Table, labels: set<int>, order: seq<int>, failed: seq<Call>)
    requires forall l :: l in labels <==> l in order
    requires forall i, j :: 0 <= i < j < |order| ==> order[i] != order[j]
    requires |failed| == |order|
    requires forall i :: 0 <= i < |failed| ==> order[i] in t.pending && failed[i] == t.pending[order[i]].callback
    requires forall k, l :: k in t.pending && l in t.pending && t.pending[k].callback == t.pending[l].callback ==> k == l
    ensures multiset(failed) == multiset(CallbacksOf(t, labels))
  {
    if order != [] {
      var n := |order| - 1;
      var last, c := order[n], failed[n];
      var fewer := labels - {last};
      assert order == order[..n] + [last] && failed == failed[..n] + [c];
      CollectedOnce(t, fewer, order[..n], failed[..n]);
      assert last in labels && CallbacksOf(t, labels) == CallbacksOf(t, fewer) + {c};
      assert c !in CallbacksOf(t, fewer);
    }
  }

  // ----- the protocol -----

  /** How far one SendWithLabel call has come. */
  datatype Progress =
    | Registered // registerLabel done
    | Checked // sendInternal saw `running` and holds this connection's channels
    | Failing // the send failed; unregisterLabel is next
    | Returned(ok: bool)

  datatype Sender = Sender(labelID: int, progress: Progress)

  /** The connection from its start to the end of waitForStop. */
  datatype Phase =
    | Up // running, `end` open
    | Ended // `end` closed, the read loop may still be at work
    | Stopped // the read loop has exited
    | Draining // waitForStop has emptied the table and is failing the callbacks
    | Finished // waitForStop is over

  datatype State = State(
    table: Table,
    senders: map<Call, Sender>,
    phase: Phase,
    readerHand: multiset<Call>, // taken out of the table by the read loop, not yet invoked
    drainHand: multiset<Call>, // the same for waitForStop
    fired: multiset<Call>)

  const INITIAL := State(EMPTY_TABLE, map[], Up, multiset{}, multiset{}, multiset{})

  datatype Action =
    | Begin(c: Call, now: int) // registerLabel
    | CannotAssemble(c: Call) // the message is refused by the printer
    | Check(c: Call) // sendInternal's critical section
    | Enqueue(c: Call) // pwrite accepts the line
    | SeesEnd(c: Call) // the select takes the closed `end`
    | GiveUp(c: Call) // unregisterLabel
    | Reply(labelID: int) // a labeled line, or the close of a labeled batch
    | Expire(labels: set<int>) // the periodic sweep of the read loop
    | ReaderFires(c: Call)
    | CloseEnd
    | ReaderExits
    | Drain // expireBatches(true)
    | DrainFires(c: Call)
    | DrainDone

  predicate At(s: State, c: Call, p: Progress) {
    c in s.senders && s.senders[c].progress == p
  }

  predicate ReaderIdle(s: State) {
    (s.phase == Up || s.phase == Ended) && s.readerHand == multiset{}
  }

  predicate Enabled(s: State, a: Action) {
    match a
    case Begin(c, _) => c !in s.senders && s.table.counter < LabelText.MAX_INT64
    case CannotAssemble(c) => At(s, c, Registered)
    case Check(c) => At(s, c, Registered)
    case Enqueue(c) => At(s, c, Checked)
    case SeesEnd(c) => At(s, c, Checked) && s.phase != Up
    case GiveUp(c) => At(s, c, Failing)
    case Reply(_) => ReaderIdle(s)
    case Expire(labels) => ReaderIdle(s) && labels <= s.table.pending.Keys
    case ReaderFires(c) => c in s.readerHand
    case CloseEnd => s.phase == Up
    case ReaderExits => s.phase == Ended && s.readerHand == multiset{}
    case Drain => s.phase == Stopped || s.phase == Finished
    case DrainFires(c) => c in s.drainHand
    case DrainDone => s.phase == Draining && s.drainHand == multiset{}
  }

  function Moved(s: State, c: Call, p: Progress): (r: State)
    requires c in s.senders
  {
    s.(senders := s.senders[c := s.senders[c].(progress := p)])
  }

  function Apply(s: State, a: Action): (r: State)
    requires Enabled(s, a)
  {
    match a
    case Begin(c, now) =>
      s.(table := Register(s.table, c, now), senders := s.senders[c := Sender(s.table.counter + 1, Registered)])
    case CannotAssemble(c) => Moved(s, c, Failing)
    case Check(c) => Moved(s, c, if s.phase == Up then Checked else Failing)
    case Enqueue(c) => Moved(s, c, Returned(true))
    case SeesEnd(c) => Moved(s, c, Failing)
    case GiveUp(c) => Moved(s, c, Returned(false)).(table := Remove(s.table, {s.senders[c].labelID}))
    case Reply(l) => s.(table := Remove(s.table, {l}), readerHand := multiset(CallbacksOf(s.table, {l})))
    case Expire(labels) => s.(table := Remove(s.table, labels), readerHand := multiset(CallbacksOf(s.table, labels)))
    case ReaderFires(c) => s.(readerHand := s.readerHand - multiset{c}, fired := s.fired + multiset{c})
    case CloseEnd => s.(phase := Ended)
    case ReaderExits => s.(phase := Stopped)
    case Drain =>
      s.(phase := Draining,
         table := Remove(s.table, s.table.pending.Keys),
         drainHand := multiset(CallbacksOf(s.table, s.table.pending.Keys)))
    case DrainFires(c) => s.(drainHand := s.drainHand - multiset{c}, fired := s.fired + multiset{c})
    case DrainDone => s.(phase := Finished)
  }

  // ----- invariants -----

  /** Entries of the table belong to the senders that registered them, under distinct labels. */
  ghost predicate Linked(s: State) {
    && (forall l :: l in s.table.pending ==>
          s.table.pending[l].callback in s.senders && s.senders[s.table.pending[l].callback].labelID == l)
    && (forall c :: c in s.senders ==>
          0 < s.senders[c].labelID <= s.table.counter
          && (s.senders[c].labelID in s.table.pending ==> s.table.pending[s.senders[c].labelID].callback == c))
    && (forall c, d :: c in s.senders && d in s.senders && s.senders[c].labelID == s.senders[d].labelID ==> c == d)
    && 0 <= s.table.counter <= LabelText.MAX_INT64
  }

  /** How often a callback exists: pending, taken but not yet invoked, or invoked. */
  function Copies(s: State, c: Call): (n: nat) {
    (if c in s.senders && s.senders[c].labelID in s.table.pending then 1 else 0)
    + s.readerHand[c] + s.drainHand[c] + s.fired[c]
  }

  /** Conservation: a registered callback exists exactly once until its sender gives up. */
  ghost predicate ConservedFor(s: State, c: Call) {
    && (c in s.senders ==> Copies(s, c) <= 1)
    && (c in s.senders && s.senders[c].progress != Returned(false) ==> Copies(s, c) == 1)
    && (c in s.readerHand || c in s.drainHand || c in s.fired ==> c in s.senders)
  }

  ghost predicate Conserved(s: State) {
    forall c :: ConservedFor(s, c)
  }

  /** After the drain, whatever is still or again in the table has not been sent and never will be. */
  ghost predicate Drained(s: State) {
    && (s.phase == Stopped || s.phase == Draining || s.phase == Finished ==> s.readerHand == multiset{})
    && (s.phase != Draining ==> s.drainHand == multiset{})
    && (s.phase == Draining || s.phase == Finished ==>
          forall l :: l in s.table.pending && s.table.pending[l].callback in s.senders ==>
            s.senders[s.table.pending[l].callback].progress == Registered
            || s.senders[s.table.pending[l].callback].progress == Failing)
  }

  ghost predicate Inv(s: State) {
    Linked(s) && Conserved(s) && Drained(s)
  }

  lemma {:induction false} LinkedMove(s: State, c: Call, p: Progress)
    requires Linked(s) && c in s.senders
    ensures Linked(Moved(s, c, p))
  {
  }

  lemma {:induction false} LinkedRemove(s: State, labels: set<int>)
    requires Linked(s)
    ensures Linked(s.(table := Remove(s.table, labels)))
  {
  }

  lemma {:induction false} LinkedRegister(s: State, c: Call, now: int)
    requires Linked(s) && c !in s.senders && s.table.counter < LabelText.MAX_INT64
    ensures Linked(Apply(s, Begin(c, now)))
  {
  }

  /** Linked looks at the table and the senders only. */
  lemma {:induction false} LinkedFrame(s: State, r: State)
    requires Linked(s) && r.table == s.table && r.senders == s.senders
    ensures Linked(r)
  {
  }

  lemma {:induction false} LinkedStep(s: State, a: Action)
    requires Linked(s) && Enabled(s, a)
    ensures Linked(Apply(s, a))
  {
    hide Linked;
    match a {
      case Begin(c, now) =>
        LinkedRegister(s, c, now);
      case CannotAssemble(c) =>
        LinkedMove(s, c, Failing);
      case Check(c) =>
        LinkedMove(s, c, if s.phase == Up then Checked else Failing);
      case Enqueue(c) =>
        LinkedMove(s, c, Returned(true));
      case SeesEnd(c) =>
        LinkedMove(s, c, Failing);
      case GiveUp(c) =>
        LinkedMove(s, c, Returned(false));
        LinkedRemove(Moved(s, c, Returned(false)), {s.senders[c].labelID});
      case Reply(l) =>
        LinkedRemove(s, {l});
        LinkedFrame(s.(table := Remove(s.table, {l})), Apply(s, a));
      case Expire(labels) =>
        LinkedRemove(s, labels);
        LinkedFrame(s.(table := Remove(s.table, labels)), Apply(s, a));
      case Drain =>
        LinkedRemove(s, s.table.pending.Keys);
        LinkedFrame(s.(table := Remove(s.table, s.table.pending.Keys)), Apply(s, a));
      case _ =>
        LinkedFrame(s, Apply(s, a));
    }
  }

  lemma {:induction false} DrainedStep(s: State, a: Action)
    requires Linked(s) && Drained(s) && Enabled(s, a)
    ensures Drained(Apply(s, a))
  {
  }

  /** Taking entries out of the table puts each of their callbacks into a hand, once. */
  lemma {:induction false} TakenOnce(s: State, labels: set<int>, c: Call)
    requires Linked(s)
    ensures multiset(CallbacksOf(s.table, labels))[c] ==
            if c in s.senders && s.senders[c].labelID in labels && s.senders[c].labelID in s.table.pending then 1 else 0
  {
    if c in s.senders && s.senders[c].labelID in labels && s.senders[c].labelID in s.table.pending {
      assert c in CallbacksOf(s.table, labels);
    }
  }

  lemma {:induction false} ConservedTake(s: State, labels: set<int>, c: Call)
    requires Linked(s) && ConservedFor(s, c)
    ensures s.readerHand == multiset{} ==>
              ConservedFor(s.(table := Remove(s.table, labels), readerHand := multiset(CallbacksOf(s.table, labels))), c)
    ensures s.drainHand == multiset{} ==>
              ConservedFor(s.(table := Remove(s.table, labels), drainHand := multiset(CallbacksOf(s.table, labels))), c)
  {
    hide Linked;
    hide CallbacksOf;
    TakenOnce(s, labels, c);
  }

  lemma {:induction false} ConservedBegin(s: State, d: Call, now: int, c: Call)
    requires Linked(s) && ConservedFor(s, c) && Enabled(s, Begin(d, now))
    ensures ConservedFor(Apply(s, Begin(d, now)), c)
  {
    var r := Apply(s, Begin(d, now));
    if c == d {
      assert Copies(r, c) == 1;
    } else if c in s.senders {
      assert Copies(r, c) == Copies(s, c);
    }
  }

  lemma {:induction false} ConservedMove(s: State, d: Call, p: Progress, c: Call)
    requires ConservedFor(s, c) && d in s.senders && s.senders[d].progress != Returned(false)
    ensures ConservedFor(Moved(s, d, p), c)
  {
    assert Copies(Moved(s, d, p), c) == Copies(s, c);
  }

  lemma {:induction false} ConservedGiveUp(s: State, d: Call, c: Call)
    requires Linked(s) && ConservedFor(s, c) && Enabled(s, GiveUp(d))
    ensures ConservedFor(Apply(s, GiveUp(d)), c)
  {
    var r := Apply(s, GiveUp(d));
    if c in s.senders {
      assert c != d ==> Copies(r, c) == Copies(s, c);
      assert Copies(r, c) <= Copies(s, c);
    }
  }

  lemma {:induction false} ConservedFire(s: State, d: Call, c: Call)
    requires ConservedFor(s, c)
    ensures d in s.readerHand ==> ConservedFor(Apply(s, ReaderFires(d)), c)
    ensures d in s.drainHand ==> ConservedFor(Apply(s, DrainFires(d)), c)
  {
  }

  lemma {:induction false} ConservedForStep(s: State, a: Action, c: Call)
    requires Linked(s) && Drained(s) && Enabled(s, a) && ConservedFor(s, c)
    ensures ConservedFor(Apply(s, a), c)
  {
    hide CallbacksOf;
    hide Linked;
    hide ConservedFor;
    match a {
      case Begin(d, now) => ConservedBegin(s, d, now, c);
      case CannotAssemble(d) => ConservedMove(s, d, Failing, c);
      case Check(d) => ConservedMove(s, d, if s.phase == Up then Checked else Failing, c);
      case Enqueue(d) => ConservedMove(s, d, Returned(true), c);
      case SeesEnd(d) => ConservedMove(s, d, Failing, c);
      case GiveUp(d) => ConservedGiveUp(s, d, c);
      case Reply(l) => ConservedTake(s, {l}, c);
      case Expire(labels) => ConservedTake(s, labels, c);
      case ReaderFires(d) => ConservedFire(s, d, c);
      case DrainFires(d) => ConservedFire(s, d, c);
      case Drain =>
        ConservedTake(s, s.table.pending.Keys, c);
        ConservedPhase(s.(table := Remove(s.table, s.table.pending.Keys),
                          drainHand := multiset(CallbacksOf(s.table, s.table.pending.Keys))), Draining, c);
      case CloseEnd => ConservedPhase(s, Ended, c);
      case ReaderExits => ConservedPhase(s, Stopped, c);
      case DrainDone => ConservedPhase(s, Finished, c);
    }
  }

  lemma {:induction false} ConservedPhase(s: State, p: Phase, c: Call)
    requires ConservedFor(s, c)
    ensures ConservedFor(s.(phase := p), c)
  {
  }

  lemma {:induction false} ConservedStep(s: State, a: Action)
    requires Inv(s) && Enabled(s, a)
    ensures Conserved(Apply(s, a))
  {
    hide ConservedFor;
    hide Linked;
    hide Drained;
    var r := Apply(s, a);
    hide Apply;
    forall c: Call
      ensures ConservedFor(r, c)
    {
      ConservedForStep(s, a, c);
    }
  }

  lemma {:induction false} TableMeans(t: Table, labels: set<int>, c: Call, now: int)
    ensures Register(t, c, now) == Table(t.counter + 1, t.pending[t.counter + 1 := Pending(now, c)])
    ensures Remove(t, labels).counter == t.counter && Remove(t, labels).pending == t.pending - labels
  {
  }

  // ----- every run -----

  function Run(actions: seq<Action>): (r: Option<State>) {
    if actions == [] then Some(INITIAL)
    else
      var before := Run(actions[..|actions| - 1]);
      var a := actions[|actions| - 1];
      if before.Some? && Enabled(before.value, a) then Some(Apply(before.value, a)) else None
  }

  lemma {:induction false} RunInv(actions: seq<Action>)
    requires Run(actions).Some?
    ensures Inv(Run(actions).value)
  {
    if actions != [] {
      var n := |actions| - 1;
      RunInv(actions[..n]);
      var s := Run(actions[..n]).value;
      LinkedStep(s, actions[n]);
      ConservedStep(s, actions[n]);
      DrainedStep(s, actions[n]);
    }
  }

  /** In every interleaving no callback is invoked twice; and once waitForStop is over, the
      callback of every SendWithLabel that returned nil (or still will) has been invoked
      exactly once. */
  lemma {:induction false} CallbacksExactlyOnce(actions: seq<Action>, c: Call)
    requires Run(actions).Some?
    ensures Run(actions).value.fired[c] <= 1
    ensures var s := Run(actions).value;
            s.phase == Finished && (At(s, c, Returned(true)) || At(s, c, Checked)) ==> s.fired[c] == 1
  {
    RunInv(actions);
    assert ConservedFor(Run(actions).value, c);
  }

  /** Labels handed out in one connection are distinct, as numbers and as texts, and a text
      read back from the server is the label it was printed from. */
  lemma {:induction false} LabelsAreDistinct(actions: seq<Action>, c: Call, d: Call)
    requires Run(actions).Some?
    requires c in Run(actions).value.senders && d in Run(actions).value.senders && c != d
    ensures var s := Run(actions).value;
            && LabelText.Serialize(s.senders[c].labelID) != LabelText.Serialize(s.senders[d].labelID)
            && LabelText.Deserialize(LabelText.Serialize(s.senders[c].labelID)) == s.senders[c].labelID != 0
  {
    RunInv(actions);
    var s := Run(actions).value;
    LabelText.LabelRoundTrip(s.senders[c].labelID);
    LabelText.LabelRoundTrip(s.senders[d].labelID);
  }

  /** Other calls' registrations and removals do not touch a callback. */
  lemma {:induction false} CopiesOfOthers(s: State, a: Action, c: Call)
    requires Linked(s) && Enabled(s, a) && c in s.senders
    requires a.Begin? || (a.GiveUp? && a.c != c)
    ensures c in Apply(s, a).senders && Apply(s, a).senders[c] == s.senders[c]
    ensures Copies(Apply(s, a), c) == Copies(s, c)
  {
    assert a.GiveUp? ==> s.senders[a.c].labelID != s.senders[c].labelID;
  }

  /** Taking entries out of the table moves a callback, at most. */
  lemma {:induction false} CopiesTaken(s: State, a: Action, c: Call)
    requires Linked(s) && Drained(s) && Enabled(s, a) && c in s.senders
    requires a.Reply? || a.Expire? || a.Drain?
    ensures Apply(s, a).senders == s.senders && Copies(Apply(s, a), c) == Copies(s, c)
  {
    hide CallbacksOf;
    var labels := match a case Reply(l) => {l} case Expire(labels) => labels case _ => s.table.pending.Keys;
    TakenOnce(s, labels, c);
    hide Linked;
  }

  /** A call that has given up keeps the copies of its callback it gave up with. */
  lemma {:induction false} GivenUpStep(s: State, a: Action, c: Call)
    requires Linked(s) && Drained(s) && Enabled(s, a) && At(s, c, Returned(false))
    ensures At(Apply(s, a), c, Returned(false)) && Copies(Apply(s, a), c) == Copies(s, c)
  {
    hide CallbacksOf;
    hide Linked;
    hide Drained;
    if a.Begin? || a.GiveUp? {
      CopiesOfOthers(s, a, c);
    } else if a.Reply? || a.Expire? || a.Drain? {
      CopiesTaken(s, a, c);
    }
  }

  lemma {:induction false} RunPrefix(actions: seq<Action>, k: nat)
    requires Run(actions).Some? && k <= |actions|
    ensures Run(actions[..k]).Some?
    ensures k > 0 ==>
              && Run(actions[..k - 1]).Some?
              && Enabled(Run(actions[..k - 1]).value, actions[k - 1])
              && Run(actions[..k]).value == Apply(Run(actions[..k - 1]).value, actions[k - 1])
  {
    hide Apply;
    hide Enabled;
    var n := |actions| - 1;
    if k < |actions| {
      RunPrefix(actions[..n], k);
      assert actions[..n][..k] == actions[..k];
      assert k > 0 ==> actions[..n][..k - 1] == actions[..k - 1];
    } else {
      assert actions[..k] == actions;
    }
  }

  lemma {:induction false} GivenUpSettles(actions: seq<Action>, n: nat, c: Call, k: nat)
    requires Run(actions).Some? && n < k <= |actions| && actions[n] == GiveUp(c)
    ensures Run(actions[..n]).Some? && c in Run(actions[..n]).value.senders && Run(actions[..k]).Some?
    ensures var before, s := Run(actions[..n]).value, Run(actions[..k]).value;
            && At(s, c, Returned(false))
            && Copies(s, c) == if before.senders[c].labelID in before.table.pending then 0 else 1
    decreases k
  {
    hide Run;
    RunPrefix(actions, k);
    RunInv(actions[..k - 1]);
    var s := Run(actions[..k - 1]).value;
    if k == n + 1 {
      assert ConservedFor(s, c);
    } else {
      GivenUpSettles(actions, n, c, k - 1);
      GivenUpStep(s, actions[k - 1], c);
    }
  }

  /** Exactly when a failed SendWithLabel runs its callback: it does if and only if the label
      had already left the table when the sender came to unregister it. */
  lemma {:induction false} FailedSendFiresIff(actions: seq<Action>, n: nat, c: Call)
    requires Run(actions).Some? && n < |actions| && actions[n] == GiveUp(c)
    requires Run(actions).value.phase == Finished
    ensures Run(actions[..n]).Some? && c in Run(actions[..n]).value.senders
    ensures var before := Run(actions[..n]).value;
            Run(actions).value.fired[c] == if before.senders[c].labelID in before.table.pending then 0 else 1
  {
    GivenUpSettles(actions, n, c, |actions|);
    assert actions[..|actions|] == actions;
    RunInv(actions);
  }

  // ----- the same, read off the schedule -----

  /** The step takes the label's entry out of the table. */
  predicate Takes(a: Action, labelID: int) {
    a == Drain || a == Reply(labelID) || (a.Expire? && labelID in a.labels)
  }

  /** The number of calls begun: the label of the last of them. */
  function Begun(actions: seq<Action>): (n: nat) {
    if actions == [] then 0
    else Begun(actions[..|actions| - 1]) + if actions[|actions| - 1].Begin? then 1 else 0
  }

  predicate TakenBetween(actions: seq<Action>, b: nat, k: nat, labelID: int) {
    exists i :: b < i < k && i < |actions| && Takes(actions[i], labelID)
  }

  lemma {:induction false} CounterCounts(actions: seq<Action>)
    requires Run(actions).Some?
    ensures Run(actions).value.table.counter == Begun(actions)
  {
    hide CallbacksOf;
    if actions != [] {
      CounterCounts(actions[..|actions| - 1]);
    }
  }

  lemma {:induction false} EntryStep(s: State, a: Action, c: Call)
    requires Linked(s) && Enabled(s, a) && c in s.senders && a != GiveUp(c)
    ensures var r, labelID := Apply(s, a), s.senders[c].labelID;
            && c in r.senders && r.senders[c].labelID == labelID
            && (labelID in r.table.pending <==> labelID in s.table.pending && !Takes(a, labelID))
  {
    hide CallbacksOf;
    var labelID := s.senders[c].labelID;
    assert labelID <= s.table.counter;
    assert a.GiveUp? ==> s.senders[a.c].labelID != labelID;
    hide Linked;
    hide Takes;
    TakesMeans(a, labelID);
    match a {
      case Begin(d, now) =>
        assert d != c;
      case GiveUp(d) =>
      case Reply(l) =>
      case Expire(labels) =>
      case Drain =>
      case _ =>
    }
  }

  lemma {:induction false} TakesMeans(a: Action, labelID: int)
    ensures Takes(a, labelID) <==>
              match a
              case Drain => true
              case Reply(l) => l == labelID
              case Expire(labels) => labelID in labels
              case _ => false
  {
  }

  lemma {:induction false} EntryOrigin(s: State, a: Action, l: int)
    requires Enabled(s, a) && l in Apply(s, a).table.pending
    ensures var p := Apply(s, a).table.pending[l];
            (l in s.table.pending && s.table.pending[l] == p) || (a == Begin(p.callback, p.createdAt) && l == s.table.counter + 1)
  {
    hide CallbacksOf;
  }

  /** Every pending label has the age of its registration: it is the number of the call that
      registered it, with that call's callback and time. */
  lemma {:induction false} PendingSince(actions: seq<Action>, l: int) returns (b: nat)
    requires Run(actions).Some? && l in Run(actions).value.table.pending
    ensures var p := Run(actions).value.table.pending[l];
            b < |actions| && actions[b] == Begin(p.callback, p.createdAt) && l == Begun(actions[..b + 1])
  {
    hide Apply;
    hide Enabled;
    if actions == [] {
      assert false;
    } else {
      var n := |actions| - 1;
      var s, p := Run(actions[..n]).value, Run(actions).value.table.pending[l];
      EntryOrigin(s, actions[n], l);
      if l in s.table.pending && s.table.pending[l] == p {
        b := PendingSince(actions[..n], l);
        assert actions[..n][..b + 1] == actions[..b + 1];
      } else {
        CounterCounts(actions[..n]);
        b := n;
        assert actions[..n + 1] == actions;
      }
    }
  }

  /** A given-up call does not give up again. */
  lemma {:induction false} GivesUpOnce(actions: seq<Action>, i: nat, n: nat, c: Call)
    requires Run(actions).Some? && i < n < |actions| && actions[n] == GiveUp(c)
    ensures actions[i] != GiveUp(c)
  {
    hide Run;
    hide Apply;
    hide Copies;
    if actions[i] == GiveUp(c) {
      GivenUpSettles(actions, i, c, n);
      RunPrefix(actions, n + 1);
      assert false;
    }
  }

  /** From its registration to its removal by the sender, an entry is in the table until the
      first step that takes it. */
  lemma {:induction false} EntryUntilTaken(actions: seq<Action>, b: nat, k: nat, n: nat, c: Call, now: int)
    requires Run(actions).Some? && b < k <= n < |actions| && actions[b] == Begin(c, now) && actions[n] == GiveUp(c)
    ensures Run(actions[..k]).Some?
    ensures var s, labelID := Run(actions[..k]).value, Begun(actions[..b + 1]);
            && c in s.senders && s.senders[c].labelID == labelID
            && (labelID in s.table.pending <==> !TakenBetween(actions, b, k, labelID))
    decreases k
  {
    hide Run;
    hide Takes;
    RunPrefix(actions, k);
    RunInv(actions[..k - 1]);
    var s, a, labelID := Run(actions[..k - 1]).value, actions[k - 1], Begun(actions[..b + 1]);
    if k == b + 1 {
      CounterCounts(actions[..b]);
      assert actions[..b + 1][..b] == actions[..b];
    } else {
      EntryUntilTaken(actions, b, k - 1, n, c, now);
      GivesUpOnce(actions, k - 1, n, c);
      EntryStep(s, a, c);
      TakenMore(actions, b, k - 1, labelID);
    }
  }

  lemma {:induction false} TakenMore(actions: seq<Action>, b: nat, k: nat, labelID: int)
    requires b < k < |actions|
    ensures TakenBetween(actions, b, k + 1, labelID) <==> TakenBetween(actions, b, k, labelID) || Takes(actions[k], labelID)
  {
    hide Takes;
    if TakenBetween(actions, b, k, labelID) {
      var i :| b < i < k && i < |actions| && Takes(actions[i], labelID);
      assert b < i < k + 1;
    }
  }

  /** In any finished schedule, the callback of a failed call has been called if and only if
      between its registration and its removal the table was drained, or its label expired or
      was answered. */
  lemma {:induction false} FailedSendFiresBySchedule(actions: seq<Action>, b: nat, n: nat, c: Call, now: int)
    requires Run(actions).Some? && Run(actions).value.phase == Finished
    requires b < n < |actions| && actions[b] == Begin(c, now) && actions[n] == GiveUp(c)
    ensures Run(actions).value.fired[c] == if TakenBetween(actions, b, n, Begun(actions[..b + 1])) then 1 else 0
  {
    hide TakenBetween;
    EntryUntilTaken(actions, b, n, n, c, now);
    FailedSendFiresIff(actions, n, c);
  }

  lemma {:induction false} RunMore(actions: seq<Action>, s: State, a: Action, next: State)
    requires Run(actions) == Some(s) && Enabled(s, a) && Apply(s, a) == next
    ensures Run(actions + [a]) == Some(next)
  {
    hide Apply;
    hide Enabled;
    assert (actions + [a])[..|actions|] == actions;
  }

  lemma {:induction false} DrainOne(s: State, c: Call)
    requires s.table.pending == map[1 := Pending(0, c)]
    ensures Remove(s.table, s.table.pending.Keys) == s.table.(pending := map[])
    ensures CallbacksOf(s.table, s.table.pending.Keys) == {c}
  {
    assert 1 in s.table.pending;
  }

  /** One sender that registered and then lost the race against shutdown. */
  function Overtaken(p: Progress, phase: Phase, drainHand: multiset<Call>, fired: multiset<Call>): (s: State) {
    State(Table(1, if phase == Draining then map[] else map[1 := Pending(0, 0)]),
          map[0 := Sender(1, p)], phase, multiset{}, drainHand, fired)
  }

  lemma {:induction false} OvertakenUntilDrain() returns (actions: seq<Action>)
    ensures Run(actions) == Some(Overtaken(Registered, Draining, multiset{0}, multiset{}))
  {
    hide Run;
    var s1 := Overtaken(Registered, Up, multiset{}, multiset{});
    var s2 := Overtaken(Registered, Ended, multiset{}, multiset{});
    var s3 := Overtaken(Registered, Stopped, multiset{}, multiset{});
    RunNone();
    RunMore([], INITIAL, Begin(0, 0), s1);
    actions := [] + [Begin(0, 0)];
    RunMore(actions, s1, CloseEnd, s2);
    actions := actions + [CloseEnd];
    RunMore(actions, s2, ReaderExits, s3);
    actions := actions + [ReaderExits];
    DrainOne(s3, 0);
    RunMore(actions, s3, Drain, Overtaken(Registered, Draining, multiset{0}, multiset{}));
    actions := actions + [Drain];
  }

  /** The converse does not hold: a SendWithLabel that returns an error may have had its
      callback invoked, when shutdown sweeps the table before the sender gives up. */
  lemma {:induction false} FailedSendMayFire() returns (actions: seq<Action>)
    ensures Run(actions) == Some(Overtaken(Returned(false), Draining, multiset{}, multiset{0}))
  {
    hide Run;
    actions := OvertakenUntilDrain();
    var s4 := Overtaken(Registered, Draining, multiset{0}, multiset{});
    var s5 := Overtaken(Registered, Draining, multiset{}, multiset{0});
    var s6 := Overtaken(Failing, Draining, multiset{}, multiset{0});
    RunMore(actions, s4, DrainFires(0), s5);
    actions := actions + [DrainFires(0)];
    RunMore(actions, s5, Check(0), s6);
    actions := actions + [Check(0)];
    RunMore(actions, s6, GiveUp(0), Overtaken(Returned(false), Draining, multiset{}, multiset{0}));
    actions := actions + [GiveUp(0)];
  }

  lemma {:induction false} RunNone()
    ensures Run([]) == Some(INITIAL)
  {
  }
}
