/** Open batches and the trees they build (ircevent/irc_callback.go, ircevent/irc_struct.go).
    Heap-allocated Batch nodes are indices into an arena in allocation order. */
module Batches {
  import opened ByteStrings
  import opened Messages
  import LabelText
  import Labels

  const BATCH: Bytes := [0x42, 0x41, 0x54, 0x43, 0x48]
  const BATCH_TAG: Bytes := [0x62, 0x61, 0x74, 0x63, 0x68]
  const LABEL_TAG: Bytes := [0x6C, 0x61, 0x62, 0x65, 0x6C]

  type ID = Bytes

  /** What a message means to the batch table. */
  datatype Event =
    | Start(id: ID, parent: Option<ID>, labelID: int)
    | Close(id: ID, nested: bool)
    | Member(batch: ID) // an ordinary line inside a batch
    | Malformed // a BATCH command that is logged and ignored
    | Plain // not the batch table's business

  function Classify(m: Msg): (e: Event)
    ensures e.Start? || e.Close? || e.Malformed? <==> m.command == BATCH
  {
    if m.command == BATCH then
      if |m.params| < 1 || |m.params[0]| < 2 then Malformed
      else
        var id := m.params[0][1..];
        if m.params[0][0] == PLUS then
          var text := TagOf(m, LABEL_TAG);
          Start(id, TagOf(m, BATCH_TAG), if text.Some? then LabelText.Deserialize(text.value) else 0)
        else if m.params[0][0] == MINUS then Close(id, TagOf(m, BATCH_TAG).Some?)
        else Malformed
    else
      match TagOf(m, BATCH_TAG)
      case Some(id) => Member(id)
      case None => Plain
  }

  // ----- which message means what -----

  function Value(m: Msg, name: Bytes): (r: Option<Bytes>) {
    if name in m.tags then Some(m.tags[name]) else None
  }

  lemma {:induction false} TagNames(m: Msg)
    ensures BATCH == Ascii("BATCH") && BATCH_TAG == Ascii("batch") && LABEL_TAG == Ascii("label")
    ensures TagOf(m, Ascii("batch")) == Value(m, Ascii("batch"))
    ensures TagOf(m, Ascii("label")) == Value(m, Ascii("label"))
  {
    assert Ascii("batch")[0] != 0x2B && Ascii("label")[0] != 0x2B;
  }

  /** A BATCH whose first parameter is `+` and an id starts that batch, inside the one its batch
      tag names, with the number of its label tag; whatever else the message holds. */
  lemma {:induction false} StartIff(m: Msg, id: ID, parent: Option<ID>, labelID: int)
    ensures Classify(m) == Start(id, parent, labelID) <==>
              && m.command == Ascii("BATCH") && m.params != []
              && id != [] && m.params[0] == Ascii("+") + id
              && parent == Value(m, Ascii("batch"))
              && labelID == match Value(m, Ascii("label")) case Some(t) => LabelText.Deserialize(t) case None => 0
  {
    TagNames(m);
    FirstParam(m);
    hide TagOf;
    hide Value;
  }

  lemma {:induction false} FirstParam(m: Msg)
    ensures m.params != [] && m.params[0] != [] ==> m.params[0] == [m.params[0][0]] + m.params[0][1..]
    ensures Ascii("+") == [0x2B] && Ascii("-") == [0x2D]
  {
  }

  /** With `-` it closes that batch, as a nested one exactly if it has a batch tag. */
  lemma {:induction false} CloseIff(m: Msg, id: ID, nested: bool)
    ensures Classify(m) == Close(id, nested) <==>
              && m.command == Ascii("BATCH") && m.params != []
              && id != [] && m.params[0] == Ascii("-") + id
              && (nested <==> Ascii("batch") in m.tags)
  {
    TagNames(m);
    FirstParam(m);
    hide TagOf;
  }

  /** A BATCH is malformed exactly without a first parameter of at least two bytes that begins
      with `+` or `-`; any other command is a line of the batch its batch tag names. */
  lemma {:induction false} OthersIff(m: Msg, id: ID)
    ensures Classify(m) == Malformed <==>
              && m.command == Ascii("BATCH")
              && (m.params == [] || |m.params[0]| < 2 || (m.params[0][0] as char != '+' && m.params[0][0] as char != '-'))
    ensures Classify(m) == Member(id) <==> m.command != Ascii("BATCH") && Value(m, Ascii("batch")) == Some(id)
    ensures Classify(m) == Plain <==> m.command != Ascii("BATCH") && Ascii("batch") !in m.tags
  {
    TagNames(m);
    hide TagOf;
  }

  // ----- the table -----

  datatype Node = Node(msg: Msg, items: seq<nat>)

  datatype InProgress = InProgress(node: nat, labelID: int, createdAt: int)

  datatype State = State(nodes: seq<Node>, open: map<ID, InProgress>)

  const NO_BATCHES := State([], map[])

  datatype Error = DuplicateID | NoParent | NotOpen | UnknownBatch | UnknownLabel

  datatype Outcome =
    | Quiet
    | Logged(err: Error)
    | Finished(node: nat, labelID: int, callback: Option<Labels.Call>) // handed out: to the callback, or to the handlers

  /** labelCallbacks, which batchMutex guards together with the batches. */
  type Pending = map<int, Labels.Pending>

  /** The end of the section for an untagged close: a labeled batch goes to the callback that
      waits for it, and is dropped if none does. */
  function Finish(b: InProgress, pending: Pending): (r: Outcome) {
    if b.labelID == 0 then Finished(b.node, 0, None)
    else if b.labelID in pending then Finished(b.node, b.labelID, Some(pending[b.labelID].callback))
    else Logged(UnknownLabel)
  }

  /** The label a message takes out of the table of callbacks. */
  function LabelTaken(s: State, m: Msg): (r: set<int>) {
    match Classify(m)
    case Close(id, nested) =>
      if id in s.open && !nested && s.open[id].labelID != 0 then {s.open[id].labelID} else {}
    case _ => {}
  }

  predicate InArena(s: State) {
    forall id :: id in s.open ==> s.open[id].node < |s.nodes|
  }

  /** parent.Items = append(parent.Items, child) */
  function Attach(nodes: seq<Node>, parent: nat, child: nat): (r: seq<Node>)
    requires parent < |nodes|
    ensures |r| == |nodes|
  {
    nodes[parent := nodes[parent].(items := nodes[parent].items + [child])]
  }

  function Opened(s: State, m: Msg, id: ID, labelID: int, now: int): (r: State) {
    State(s.nodes + [Node(m, [])], s.open[id := InProgress(|s.nodes|, labelID, now)])
  }

  function Step(s: State, m: Msg, now: int, pending: Pending): (r: (State, Outcome))
    requires InArena(s)
    ensures InArena(r.0) && |s.nodes| <= |r.0.nodes|
  {
    match Classify(m)
    case Start(id, parent, labelID) =>
      if id in s.open then (s, Logged(DuplicateID))
      else
        var s1 := Opened(s, m, id, labelID, now);
        if parent.None? then (s1, Quiet)
        else if parent.value !in s1.open then (s1, Logged(NoParent))
        else (s1.(nodes := Attach(s1.nodes, s1.open[parent.value].node, |s.nodes|)), Quiet)
    case Close(id, nested) =>
      if id !in s.open then (s, Logged(NotOpen))
      else
        (s.(open := s.open - {id}), if nested then Quiet else Finish(s.open[id], pending))
    case Member(id) =>
      if id !in s.open then (s, Logged(UnknownBatch))
      else (s.(nodes := Attach(s.nodes + [Node(m, [])], s.open[id].node, |s.nodes|)), Quiet)
    case Malformed => (s, Quiet)
    case Plain => (s, Quiet)
  }

  /** What each event does, and what is logged: nothing changes on a duplicate or unknown ID; a
      start with an unknown parent stays open. */
  lemma {:induction false} StepCases(s: State, m: Msg, now: int, pending: Pending)
    requires InArena(s)
    ensures var r := Step(s, m, now, pending);
            match Classify(m)
            case Start(id, parent, labelID) =>
              if id in s.open then r == (s, Logged(DuplicateID))
              else
                && r.0.open == s.open[id := InProgress(|s.nodes|, labelID, now)]
                && |r.0.nodes| == |s.nodes| + 1
                && (parent.Some? && parent.value !in s.open && parent.value != id <==> r.1 == Logged(NoParent))
                && (r.1 == Quiet || r.1 == Logged(NoParent))
            case Close(id, nested) =>
              if id !in s.open then r == (s, Logged(NotOpen))
              else
                && r.0.nodes == s.nodes && id !in r.0.open
                && (forall other :: other != id ==> (other in r.0.open <==> other in s.open)
                                                    && (other in s.open ==> r.0.open[other] == s.open[other]))
                && (nested <==> r.1 == Quiet)
            case Member(id) =>
              if id !in s.open then r == (s, Logged(UnknownBatch))
              else r.0.open == s.open && |r.0.nodes| == |s.nodes| + 1 && r.1 == Quiet
            case _ => r == (s, Quiet)
  {
    hide Classify;
  }

  /** Expiry removes entries of the table; nodes already linked stay where they are. */
  function Expired(s: State, ids: set<ID>): (r: State)
    ensures InArena(s) ==> InArena(r)
  {
    s.(open := s.open - ids)
  }

  /** The table as the connection keeps it, beside the table of label callbacks. */
  class BatchTable {
    const labels: Labels.LabelTable
    var nodes: seq<Node>
    var open: map<ID, InProgress>

    function View(): (s: State)
      reads this
    {
      State(nodes, open)
    }

    constructor (callbacks: Labels.LabelTable)
      ensures View() == NO_BATCHES && labels == callbacks
    {
      labels := callbacks;
      nodes, open := [], map[];
    }

    /** The critical section of handleBatchCommand, for a start. */
    method StartBatch(m: Msg, id: ID, parent: Option<ID>, labelID: int, now: int) returns (r: Outcome)
      requires InArena(View()) && Classify(m) == Start(id, parent, labelID)
      modifies this
      ensures (View(), r) == Step(old(View()), m, now, old(labels.pending))
    {
      if id in open {
        return Logged(DuplicateID);
      }
      var batchObj := |nodes|;
      nodes := nodes + [Node(m, [])];
      open := open[id := InProgress(batchObj, labelID, now)];
      if parent.Some? {
        if parent.value !in open {
          return Logged(NoParent);
        }
        var p := open[parent.value].node;
        nodes := nodes[p := nodes[p].(items := nodes[p].items + [batchObj])];
      }
      return Quiet;
    }

    /** The critical section of handleBatchCommand, for a close. */
    method CloseBatch(m: Msg, id: ID, nested: bool, now: int) returns (r: Outcome)
      requires InArena(View()) && Classify(m) == Close(id, nested)
      modifies this`open, labels`pending
      ensures (View(), r) == Step(old(View()), m, now, old(labels.pending))
      ensures labels.View() == Labels.Remove(old(labels.View()), LabelTaken(old(View()), m))
    {
      if id !in open {
        assert labels.pending - {} == labels.pending;
        return Logged(NotOpen);
      }
      var bip := open[id];
      open := open - {id};
      if nested {
        assert labels.pending - {} == labels.pending;
        return Quiet;
      }
      var route := labels.RouteFinished(bip.labelID);
      match route {
        case ToHandlers => return Finished(bip.node, 0, None);
        case ToCallback(c) => return Finished(bip.node, bip.labelID, Some(c));
        case UnknownLabel => return Logged(UnknownLabel);
      }
    }

    method HandleBatchCommand(m: Msg, now: int) returns (r: Outcome)
      requires InArena(View()) && m.command == BATCH
      modifies this, labels`pending
      ensures (View(), r) == Step(old(View()), m, now, old(labels.pending))
      ensures labels.View() == Labels.Remove(old(labels.View()), LabelTaken(old(View()), m))
    {
      assert labels.pending - {} == labels.pending;
      if |m.params| < 1 || |m.params[0]| < 2 {
        return Quiet;
      }
      var start := m.params[0][0] == PLUS;
      if !start && m.params[0][0] != MINUS {
        return Quiet;
      }
      var batchID := m.params[0][1..];
      var parent := TagOf(m, BATCH_TAG);
      if start {
        var labelID := 0;
        var text := TagOf(m, LABEL_TAG);
        if text.Some? {
          labelID := LabelText.Deserialize(text.value);
        }
        r := StartBatch(m, batchID, parent, labelID, now);
      } else {
        r := CloseBatch(m, batchID, parent.Some?, now);
      }
    }

    method HandleBatchedCommand(m: Msg, batchID: ID, now: int) returns (r: Outcome)
      requires InArena(View()) && Classify(m) == Member(batchID)
      modifies this
      ensures (View(), r) == Step(old(View()), m, now, old(labels.pending))
    {
      if batchID !in open {
        return Logged(UnknownBatch);
      }
      var p, line := open[batchID].node, |nodes|;
      nodes := nodes + [Node(m, [])];
      nodes := nodes[p := nodes[p].(items := nodes[p].items + [line])];
      return Quiet;
    }

    /** The part of expireBatches that drops stale batches. */
    method ExpireBatches(now: int, keepAlive: int)
      modifies this`open
      ensures View() == Expired(old(View()), set id | id in old(open) && now - old(open)[id].createdAt > keepAlive)
    {
      var left := open.Keys;
      ghost var all := open;
      ghost var stale: set<ID> := {};
      while left != {}
        invariant left <= all.Keys && open == all - stale
        invariant stale == set id | id in all && id !in left && now - all[id].createdAt > keepAlive
      {
        var id :| id in left;
        if now - open[id].createdAt > keepAlive {
          open := open - {id};
          stale := stale + {id};
        }
        left := left - {id};
      }
    }

    /** expireBatches: one section over both tables. `failed` are the callbacks to call with nil. */
    method Expire(force: bool, now: int, keepAlive: int) returns (failed: seq<Labels.Call>, ghost order: seq<int>)
      modifies this`open, labels`pending
      ensures View() == Expired(old(View()), set id | id in old(open) && now - old(open)[id].createdAt > keepAlive)
      ensures forall l :: l in order <==>
                l in old(labels.pending) && (force || now - old(labels.pending)[l].createdAt > keepAlive)
      ensures labels.View() == Labels.Remove(old(labels.View()), set l | l in order)
      ensures |failed| == |order|
      ensures forall i :: 0 <= i < |failed| ==>
                order[i] in old(labels.pending) && failed[i] == old(labels.pending)[order[i]].callback
    {
      failed, order := labels.ExpireLabels(force, now, keepAlive);
      ExpireBatches(now, keepAlive);
    }
  }

  // ----- the forest -----

  ghost predicate HasItem(nodes: seq<Node>, p: nat, i: nat, c: nat) {
    p < |nodes| && i < |nodes[p].items| && nodes[p].items[i] == c
  }

  /** Items are allocated after the batch that holds them, so there is no cycle. */
  ghost predicate Downward(nodes: seq<Node>) {
    forall p: nat, i: nat, c: nat :: HasItem(nodes, p, i, c) ==> p < c < |nodes|
  }

  /** A node is an item of at most one batch, and once. */
  ghost predicate OneParent(nodes: seq<Node>) {
    forall p: nat, i: nat, q: nat, j: nat, c: nat ::
      HasItem(nodes, p, i, c) && HasItem(nodes, q, j, c) ==> p == q && i == j
  }

  /** Ordinary lines hold nothing. */
  ghost predicate LinesAreLeaves(nodes: seq<Node>) {
    forall p :: 0 <= p < |nodes| && nodes[p].msg.command != BATCH ==> nodes[p].items == []
  }

  ghost predicate OpenAreBatches(s: State) {
    && InArena(s)
    && (forall id :: id in s.open ==> s.nodes[s.open[id].node].msg.command == BATCH)
    && (forall a, b :: a in s.open && b in s.open && s.open[a].node == s.open[b].node ==> a == b)
  }

  ghost predicate Forest(s: State) {
    Downward(s.nodes) && OneParent(s.nodes) && LinesAreLeaves(s.nodes) && OpenAreBatches(s)
  }

  /** A start whose batch tag names the very batch it opens. */
  predicate SelfParented(m: Msg) {
    var e := Classify(m);
    e.Start? && e.parent == Some(e.id)
  }

  lemma {:induction false} AttachItems(nodes: seq<Node>, m: Msg, p: nat)
    requires p <= |nodes|
    ensures var r := Attach(nodes + [Node(m, [])], p, |nodes|);
            forall q: nat, i: nat, c: nat :: HasItem(r, q, i, c) <==>
              HasItem(nodes, q, i, c) || (q == p && c == |nodes| && i == if p < |nodes| then |nodes[p].items| else 0)
  {
    var grown := nodes + [Node(m, [])];
    var r := Attach(grown, p, |nodes|);
    forall q: nat, i: nat, c: nat
      ensures HasItem(r, q, i, c) <==>
              HasItem(nodes, q, i, c) || (q == p && c == |nodes| && i == if p < |nodes| then |nodes[p].items| else 0)
    {
      if q < |nodes| {
        assert grown[q] == nodes[q];
      }
      if q == p && q < |nodes| {
        assert r[q].items == nodes[q].items + [|nodes|];
      }
    }
  }

  /** Linking a fresh node below an older batch keeps the forest. */
  lemma {:induction false} AttachKeeps(nodes: seq<Node>, m: Msg, p: nat)
    requires p < |nodes| && Downward(nodes) && OneParent(nodes) && LinesAreLeaves(nodes)
    requires nodes[p].msg.command == BATCH
    ensures var r := Attach(nodes + [Node(m, [])], p, |nodes|);
            && Downward(r) && OneParent(r) && LinesAreLeaves(r)
            && forall q :: 0 <= q < |nodes| ==> r[q].msg == nodes[q].msg
  {
    AttachItems(nodes, m, p);
  }

  lemma {:induction false} GrowKeeps(nodes: seq<Node>, m: Msg)
    requires Downward(nodes) && OneParent(nodes) && LinesAreLeaves(nodes)
    ensures var r := nodes + [Node(m, [])]; Downward(r) && OneParent(r) && LinesAreLeaves(r)
  {
    var r := nodes + [Node(m, [])];
    forall q: nat, i: nat, c: nat
      ensures HasItem(r, q, i, c) <==> HasItem(nodes, q, i, c)
    {
    }
  }

  /** The forest survives every message that is not a self-parented start of a closed ID:
      duplicate IDs, unknown parents and stray closes included. */
  lemma {:induction false} StepKeepsForest(s: State, m: Msg, now: int, pending: Pending)
    requires Forest(s) && !SelfParented(m)
    ensures Forest(Step(s, m, now, pending).0)
  {
    hide Classify;
    hide Downward;
    hide OneParent;
    hide LinesAreLeaves;
    GrowKeeps(s.nodes, m);
    match Classify(m) {
      case Start(id, parent, labelID) =>
        if id !in s.open && parent.Some? && parent.value in s.open {
          AttachKeeps(s.nodes, m, s.open[parent.value].node);
        }
      case Member(id) =>
        if id in s.open {
          AttachKeeps(s.nodes, m, s.open[id].node);
        }
      case _ =>
    }
  }

  lemma {:induction false} ExpiredKeepsForest(s: State, ids: set<ID>)
    requires Forest(s)
    ensures Forest(Expired(s, ids))
  {
  }

  /** The exception is real: a self-parented start makes a node its own item. */
  lemma {:induction false} SelfParentCycle(s: State, m: Msg, now: int, pending: Pending)
    requires Forest(s) && SelfParented(m)
    ensures Forest(Step(s, m, now, pending).0) <==> Classify(m).id in s.open
    ensures Classify(m).id !in s.open ==> HasItem(Step(s, m, now, pending).0.nodes, |s.nodes|, 0, |s.nodes|)
  {
    hide Classify;
    if Classify(m).id !in s.open {
      var r := Step(s, m, now, pending).0.nodes;
      assert HasItem(r, |s.nodes|, 0, |s.nodes|);
    }
  }

  // ----- every run -----

  /** A message arrives while certain labels have callbacks, or batches expire. */
  datatype Input = Received(msg: Msg, now: int, pending: Pending) | Expire(ids: set<ID>)

  function Run(inputs: seq<Input>): (s: State)
    ensures InArena(s)
  {
    if inputs == [] then NO_BATCHES
    else
      var before := Run(inputs[..|inputs| - 1]);
      match inputs[|inputs| - 1]
      case Received(m, now, pending) => Step(before, m, now, pending).0
      case Expire(ids) => Expired(before, ids)
  }

  lemma {:induction false} RunsKeepForest(inputs: seq<Input>)
    requires forall i :: 0 <= i < |inputs| && inputs[i].Received? ==> !SelfParented(inputs[i].msg)
    ensures Forest(Run(inputs))
  {
    if inputs != [] {
      var n := |inputs| - 1;
      RunsKeepForest(inputs[..n]);
      match inputs[n] {
        case Received(m, now, pending) => StepKeepsForest(Run(inputs[..n]), m, now, pending);
        case Expire(ids) => ExpiredKeepsForest(Run(inputs[..n]), ids);
      }
    }
  }
}
