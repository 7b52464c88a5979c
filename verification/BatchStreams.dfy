/** What the batch table makes of a whole message stream (ircevent/irc_callback.go),
    against a description that only looks at the stream. */
module BatchStreams {
  import opened ByteStrings
  import opened Messages
  import opened Batches
  import opened BatchTrees

  // ----- the stream's own account -----

  /** Messages only (no expiry), none naming itself as its parent. */
  ghost predicate Arrivals(stream: seq<Input>) {
    forall i :: 0 <= i < |stream| ==> stream[i].Received? && !SelfParented(stream[i].msg)
  }

  function EventAt(stream: seq<Input>, u: nat): (e: Event)
    requires u < |stream| && stream[u].Received?
  {
    Classify(stream[u].msg)
  }

  /** The start that holds `id` open just before message u: the first one after the last close. */
  ghost function OpenAt(stream: seq<Input>, u: nat, id: ID): (t: Option<nat>)
    requires Arrivals(stream) && u <= |stream|
    ensures t.Some? ==> t.value < u && EventAt(stream, t.value).Start? && EventAt(stream, t.value).id == id
  {
    if u == 0 then None
    else
      var before := OpenAt(stream, u - 1, id);
      var e := EventAt(stream, u - 1);
      if e.Start? && e.id == id && before.None? then Some(u - 1)
      else if e.Close? && e.id == id then None
      else before
  }

  /** The batch (by the position of its start) that message u is put into. */
  ghost function Joins(stream: seq<Input>, u: nat): (t: Option<nat>)
    requires Arrivals(stream) && u < |stream|
    ensures t.Some? ==> t.value < u && EventAt(stream, t.value).Start?
  {
    var e := EventAt(stream, u);
    if e.Member? then OpenAt(stream, u, e.batch)
    else if e.Start? && e.parent.Some? && OpenAt(stream, u, e.id).None? then OpenAt(stream, u, e.parent.value)
    else None
  }

  /** The messages before k that went into the batch started at t, in arrival order. */
  ghost function JoinList(stream: seq<Input>, k: nat, t: nat): (r: seq<nat>)
    requires Arrivals(stream) && k <= |stream|
    ensures forall i :: 0 <= i < |r| ==> t < r[i] < k && Joins(stream, r[i]) == Some(t)
  {
    if k == 0 then []
    else JoinList(stream, k - 1, t) + if Joins(stream, k - 1) == Some(t) then [k - 1] else []
  }

  datatype Tree = Tree(msg: Msg, items: seq<Tree>)

  /** The tree that the first k messages describe for the batch (or line) at position t. */
  ghost function Described(stream: seq<Input>, k: nat, t: nat): (r: Tree)
    requires Arrivals(stream) && t < k <= |stream|
    decreases k - t
  {
    var l := JoinList(stream, k, t);
    Tree(stream[t].msg, seq(|l|, i requires 0 <= i < |l| => Described(stream, k, l[i])))
  }

  // ----- the table's account -----

  ghost function TreeOf(nodes: seq<Node>, n: nat): (r: Tree)
    requires Downward(nodes) && n < |nodes|
    decreases |nodes| - n
  {
    var l := nodes[n].items;
    Tree(nodes[n].msg, seq(|l|, i requires 0 <= i < |l| => (ItemBelow(nodes, n, i); TreeOf(nodes, l[i]))))
  }

  /** Which messages made nodes. */
  ghost predicate MakesNode(stream: seq<Input>, u: nat)
    requires Arrivals(stream) && u < |stream|
  {
    var e := EventAt(stream, u);
    (e.Start? && OpenAt(stream, u, e.id).None?) || (e.Member? && OpenAt(stream, u, e.batch).Some?)
  }

  ghost function Positions(stream: seq<Input>, k: nat): (r: seq<nat>)
    requires Arrivals(stream) && k <= |stream|
    ensures forall i :: 0 <= i < |r| ==> r[i] < k
    ensures forall i, j :: 0 <= i < j < |r| ==> r[i] < r[j]
  {
    if k == 0 then []
    else Positions(stream, k - 1) + if MakesNode(stream, k - 1) then [k - 1] else []
  }

  ghost predicate ItemsMatch(items: seq<nat>, pos: seq<nat>, l: seq<nat>) {
    && |items| == |l|
    && forall i :: 0 <= i < |items| ==> items[i] < |pos| && pos[items[i]] == l[i]
  }

  ghost predicate NodesMatch(stream: seq<Input>, k: nat, nodes: seq<Node>, pos: seq<nat>)
    requires Arrivals(stream) && k <= |stream|
  {
    && |pos| == |nodes|
    && forall n :: 0 <= n < |pos| ==>
         && pos[n] < k
         && nodes[n].msg == stream[pos[n]].msg
         && ItemsMatch(nodes[n].items, pos, JoinList(stream, k, pos[n]))
  }

  ghost predicate OpenMatchFor(stream: seq<Input>, k: nat, s: State, pos: seq<nat>, id: ID)
    requires Arrivals(stream) && k <= |stream|
  {
    && (id in s.open <==> OpenAt(stream, k, id).Some?)
    && (id in s.open ==>
          && s.open[id].node < |pos|
          && OpenAt(stream, k, id) == Some(pos[s.open[id].node])
          && s.open[id].labelID == EventAt(stream, pos[s.open[id].node]).labelID
          && s.open[id].createdAt == stream[pos[s.open[id].node]].now)
  }

  ghost predicate OpenMatch(stream: seq<Input>, k: nat, s: State, pos: seq<nat>)
    requires Arrivals(stream) && k <= |stream|
  {
    forall id :: OpenMatchFor(stream, k, s, pos, id)
  }

  // ----- they agree -----

  lemma {:induction false} RunNext(stream: seq<Input>, k: nat)
    requires Arrivals(stream) && k < |stream|
    ensures Run(stream[..k + 1]) == Step(Run(stream[..k]), stream[k].msg, stream[k].now, stream[k].pending).0
  {
    assert stream[..k + 1][..k] == stream[..k];
  }

  /** A message that makes no node and opens nothing leaves the nodes as they match. */
  lemma {:induction false} NodesSame(stream: seq<Input>, k: nat, nodes: seq<Node>, pos: seq<nat>)
    requires Arrivals(stream) && k < |stream| && NodesMatch(stream, k, nodes, pos) && Joins(stream, k).None?
    ensures NodesMatch(stream, k + 1, nodes, pos)
  {
  }

  /** Nothing joins a batch before it starts. */
  lemma {:induction false} NothingJoinsYet(stream: seq<Input>, k: nat, t: nat)
    requires Arrivals(stream) && k <= |stream| && k <= t + 1
    ensures JoinList(stream, k, t) == []
  {
    if k > 0 {
      NothingJoinsYet(stream, k - 1, t);
    }
  }

  lemma {:induction false} NodesGrow(stream: seq<Input>, k: nat, nodes: seq<Node>, pos: seq<nat>)
    requires Arrivals(stream) && k < |stream| && NodesMatch(stream, k, nodes, pos) && Joins(stream, k).None?
    ensures NodesMatch(stream, k + 1, nodes + [Node(stream[k].msg, [])], pos + [k])
  {
    hide Joins;
    NothingJoinsYet(stream, k + 1, k);
    var r, pos' := nodes + [Node(stream[k].msg, [])], pos + [k];
    forall n | 0 <= n < |pos'|
      ensures pos'[n] < k + 1 && r[n].msg == stream[pos'[n]].msg
      ensures ItemsMatch(r[n].items, pos', JoinList(stream, k + 1, pos'[n]))
    {
      hide ItemsMatch;
      if n < |pos| {
        ItemsAttach(nodes[n].items, pos, JoinList(stream, k, pos[n]), k);
      } else {
        ItemsNone(pos');
      }
    }
  }

  lemma {:induction false} ItemsAttach(items: seq<nat>, pos: seq<nat>, l: seq<nat>, k: nat)
    requires ItemsMatch(items, pos, l)
    ensures ItemsMatch(items, pos + [k], l)
    ensures ItemsMatch(items + [|pos|], pos + [k], l + [k])
  {
  }

  lemma {:induction false} NodesAttach(stream: seq<Input>, k: nat, nodes: seq<Node>, pos: seq<nat>, p: nat)
    requires Arrivals(stream) && k < |stream| && NodesMatch(stream, k, nodes, pos)
    requires forall i, j :: 0 <= i < j < |pos| ==> pos[i] < pos[j]
    requires p < |nodes| && Joins(stream, k) == Some(pos[p])
    ensures NodesMatch(stream, k + 1, Attach(nodes + [Node(stream[k].msg, [])], p, |nodes|), pos + [k])
  {
    hide Joins;
    NothingJoinsYet(stream, k + 1, k);
    var r := Attach(nodes + [Node(stream[k].msg, [])], p, |nodes|);
    var pos' := pos + [k];
    forall n | 0 <= n < |pos'|
      ensures pos'[n] < k + 1 && r[n].msg == stream[pos'[n]].msg
      ensures ItemsMatch(r[n].items, pos', JoinList(stream, k + 1, pos'[n]))
    {
      hide ItemsMatch;
      if n < |pos| {
        ItemsAttach(nodes[n].items, pos, JoinList(stream, k, pos[n]), k);
        assert pos'[n] == pos[n];
        assert n != p ==> pos[n] != pos[p] && JoinList(stream, k + 1, pos[n]) == JoinList(stream, k, pos[n]);
      } else {
        ItemsNone(pos');
      }
    }
  }

  lemma {:induction false} ItemsNone(pos: seq<nat>)
    ensures ItemsMatch([], pos, [])
  {
  }

  lemma {:induction false} NodesStep(stream: seq<Input>, k: nat, s: State, pos: seq<nat>)
    requires Arrivals(stream) && k < |stream| && InArena(s)
    requires NodesMatch(stream, k, s.nodes, pos) && OpenMatch(stream, k, s, pos)
    requires forall i, j :: 0 <= i < j < |pos| ==> pos[i] < pos[j]
    ensures NodesMatch(stream, k + 1, Step(s, stream[k].msg, stream[k].now, stream[k].pending).0.nodes,
                       pos + if MakesNode(stream, k) then [k] else [])
  {
    hide NodesMatch;
    hide Classify;
    hide OpenAt;
    NodesLength(stream, k, s.nodes, pos);
    assert pos + [] == pos;
    match EventAt(stream, k) {
      case Start(id, parent, labelID) =>
        assert OpenMatchFor(stream, k, s, pos, id);
        assert parent.Some? ==> OpenMatchFor(stream, k, s, pos, parent.value);
        if id in s.open {
          NodesSame(stream, k, s.nodes, pos);
        } else if parent.Some? && parent.value in s.open {
          NodesAttach(stream, k, s.nodes, pos, s.open[parent.value].node);
        } else {
          NodesGrow(stream, k, s.nodes, pos);
        }
      case Member(id) =>
        assert OpenMatchFor(stream, k, s, pos, id);
        if id in s.open {
          NodesAttach(stream, k, s.nodes, pos, s.open[id].node);
        } else {
          NodesSame(stream, k, s.nodes, pos);
        }
      case _ =>
        NodesSame(stream, k, s.nodes, pos);
    }
  }

  lemma {:induction false} OpenStepFor(stream: seq<Input>, k: nat, s: State, pos: seq<nat>, id: ID)
    requires Arrivals(stream) && k < |stream| && InArena(s)
    requires |pos| == |s.nodes| && OpenMatchFor(stream, k, s, pos, id)
    requires EventAt(stream, k).Start? ==> OpenMatchFor(stream, k, s, pos, EventAt(stream, k).id)
    ensures OpenMatchFor(stream, k + 1, Step(s, stream[k].msg, stream[k].now, stream[k].pending).0,
                         pos + if MakesNode(stream, k) then [k] else [], id)
  {
    hide Classify;
    var e := EventAt(stream, k);
    var next := Step(s, stream[k].msg, stream[k].now, stream[k].pending).0;
    assert next.open == (if e.Start? && e.id !in s.open then s.open[e.id := InProgress(|s.nodes|, e.labelID, stream[k].now)]
                         else if e.Close? && e.id in s.open then s.open - {e.id}
                         else s.open);
  }

  lemma {:induction false} OpenStep(stream: seq<Input>, k: nat, s: State, pos: seq<nat>)
    requires Arrivals(stream) && k < |stream| && InArena(s)
    requires |pos| == |s.nodes| && OpenMatch(stream, k, s, pos)
    ensures OpenMatch(stream, k + 1, Step(s, stream[k].msg, stream[k].now, stream[k].pending).0,
                      pos + if MakesNode(stream, k) then [k] else [])
  {
    hide Classify;
    hide Step;
    hide MakesNode;
    hide OpenMatchFor;
    var next := Step(s, stream[k].msg, stream[k].now, stream[k].pending).0;
    var pos' := pos + if MakesNode(stream, k) then [k] else [];
    var k1 := k + 1;
    forall id: ID
      ensures OpenMatchFor(stream, k1, next, pos', id)
    {
      OpenStepFor(stream, k, s, pos, id);
    }
  }

  lemma {:induction false} StepMatches(stream: seq<Input>, k: nat)
    requires Arrivals(stream) && k < |stream|
    requires NodesMatch(stream, k, Run(stream[..k]).nodes, Positions(stream, k))
    requires OpenMatch(stream, k, Run(stream[..k]), Positions(stream, k))
    ensures NodesMatch(stream, k + 1, Run(stream[..k + 1]).nodes, Positions(stream, k + 1))
    ensures OpenMatch(stream, k + 1, Run(stream[..k + 1]), Positions(stream, k + 1))
  {
    hide NodesMatch;
    hide OpenMatch;
    hide MakesNode;
    hide Step;
    var s, pos := Run(stream[..k]), Positions(stream, k);
    RunNext(stream, k);
    NodesLength(stream, k, s.nodes, pos);
    NodesStep(stream, k, s, pos);
    OpenStep(stream, k, s, pos);
  }

  lemma {:induction false} NodesLength(stream: seq<Input>, k: nat, nodes: seq<Node>, pos: seq<nat>)
    requires Arrivals(stream) && k <= |stream| && NodesMatch(stream, k, nodes, pos)
    ensures |pos| == |nodes|
  {
  }

  /** After every prefix of every stream, the table holds what the stream describes. */
  lemma {:induction false} TableMatches(stream: seq<Input>, k: nat)
    requires Arrivals(stream) && k <= |stream|
    ensures NodesMatch(stream, k, Run(stream[..k]).nodes, Positions(stream, k))
    ensures OpenMatch(stream, k, Run(stream[..k]), Positions(stream, k))
  {
    if k > 0 {
      TableMatches(stream, k - 1);
      StepMatches(stream, k - 1);
    }
  }

  /** Every open batch has the age of its start: a sweep at time `now` takes exactly those whose
      starts arrived more than `keepAlive` before. */
  lemma {:induction false} AgeOfStart(stream: seq<Input>, k: nat, id: ID, now: int, keepAlive: int)
    requires Arrivals(stream) && k <= |stream|
    ensures var s := Run(stream[..k]);
            && (id in s.open <==> OpenAt(stream, k, id).Some?)
            && (id in s.open ==>
                  (now - s.open[id].createdAt > keepAlive <==> now - stream[OpenAt(stream, k, id).value].now > keepAlive))
  {
    TableMatches(stream, k);
    assert OpenMatchFor(stream, k, Run(stream[..k]), Positions(stream, k), id);
    hide OpenAt;
  }

  lemma {:induction false} TreeMatches(stream: seq<Input>, k: nat, nodes: seq<Node>, pos: seq<nat>, n: nat)
    requires Arrivals(stream) && k <= |stream| && Downward(nodes) && NodesMatch(stream, k, nodes, pos)
    requires n < |nodes|
    ensures pos[n] < k && TreeOf(nodes, n) == Described(stream, k, pos[n])
    decreases |nodes| - n
  {
    var items, l := nodes[n].items, JoinList(stream, k, pos[n]);
    assert ItemsMatch(items, pos, l);
    var a, b := TreeOf(nodes, n).items, Described(stream, k, pos[n]).items;
    forall i | 0 <= i < |items|
      ensures a[i] == b[i]
    {
      ItemBelow(nodes, n, i);
      TreeMatches(stream, k, nodes, pos, items[i]);
    }
    assert a == b;
  }

  /** Somebody takes the batch started at t when message k closes it: it is unlabeled, or its
      label has a callback at that time. */
  ghost predicate Wanted(stream: seq<Input>, k: nat, t: nat)
    requires Arrivals(stream) && k < |stream| && t < |stream| && EventAt(stream, t).Start?
  {
    EventAt(stream, t).labelID == 0 || EventAt(stream, t).labelID in stream[k].pending
  }

  /** Reassembly: message k hands out a batch exactly if it is an untagged close of an open
      batch that somebody wants, and what it hands out is the tree the stream describes up to
      that point, to the callback of its start's label. An unwanted batch is only logged. */
  lemma {:induction false} DeliveredTree(stream: seq<Input>, k: nat)
    requires Arrivals(stream) && k < |stream|
    ensures Forest(Run(stream[..k]))
    ensures var e := EventAt(stream, k);
            var s := Run(stream[..k]);
            var outcome := Step(s, stream[k].msg, stream[k].now, stream[k].pending).1;
            if e.Close? && !e.nested && OpenAt(stream, k, e.id).Some? then
              var t := OpenAt(stream, k, e.id).value;
              var labelID := EventAt(stream, t).labelID;
              if Wanted(stream, k, t) then
                && outcome.Finished? && outcome.node < |s.nodes|
                && TreeOf(s.nodes, outcome.node) == Described(stream, k, t)
                && outcome.labelID == labelID
                && outcome.callback == if labelID == 0 then None else Some(stream[k].pending[labelID].callback)
              else outcome == Logged(UnknownLabel)
            else !outcome.Finished? && outcome != Logged(UnknownLabel)
  {
    hide NodesMatch;
    hide Described;
    hide TreeOf;
    hide Forest;
    hide Classify;
    TableMatches(stream, k);
    RunsKeepForest(stream[..k]);
    var s, pos := Run(stream[..k]), Positions(stream, k);
    NodesLength(stream, k, s.nodes, pos);
    var e := EventAt(stream, k);
    if e.Close? {
      assert OpenMatchFor(stream, k, s, pos, e.id);
    }
    if e.Close? && e.id in s.open {
      ForestDown(s);
      TreeMatches(stream, k, s.nodes, pos, s.open[e.id].node);
    }
  }

  lemma {:induction false} ForestDown(s: State)
    requires Forest(s)
    ensures Downward(s.nodes)
  {
  }
}
