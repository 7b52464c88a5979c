/** Walking a finished batch: handleBatchNaively of ircevent/irc_callback.go terminates and
    meets every node once. */
module BatchTrees {
  import opened ByteStrings
  import opened Messages
  import opened Batches

  // ----- the walk -----

  /** The nodes handleBatchNaively meets, in order. */
  ghost function Visit(nodes: seq<Node>, n: nat): (r: seq<nat>)
    requires Downward(nodes) && n < |nodes|
    decreases |nodes| - n, |nodes[n].items| + 1
  {
    [n] + VisitItems(nodes, n, 0)
  }

  ghost function VisitItems(nodes: seq<Node>, n: nat, k: nat): (r: seq<nat>)
    requires Downward(nodes) && n < |nodes| && k <= |nodes[n].items|
    decreases |nodes| - n, |nodes[n].items| - k
  {
    if k == |nodes[n].items| then []
    else
      assert HasItem(nodes, n, k, nodes[n].items[k]);
      Visit(nodes, nodes[n].items[k]) + VisitItems(nodes, n, k + 1)
  }

  predicate InRange(nodes: seq<Node>, visited: seq<nat>) {
    forall i :: 0 <= i < |visited| ==> visited[i] < |nodes|
  }

  /** The ordinary lines among visited nodes: what reaches HandleMessage. */
  function Lines(nodes: seq<Node>, visited: seq<nat>): (r: seq<Msg>)
    requires InRange(nodes, visited)
  {
    if visited == [] then []
    else (if nodes[visited[0]].msg.command != BATCH then [nodes[visited[0]].msg] else []) + Lines(nodes, visited[1..])
  }

  /** Visited nodes one by one: BATCH commands are passed over, every other message is handled. */
  lemma {:induction false} LinesMean(nodes: seq<Node>, n: nat, visited: seq<nat>)
    requires n < |nodes| && InRange(nodes, visited)
    ensures Lines(nodes, []) == []
    ensures InRange(nodes, [n] + visited)
    ensures Lines(nodes, [n] + visited) ==
            (if nodes[n].msg.command == Ascii("BATCH") then [] else [nodes[n].msg]) + Lines(nodes, visited)
  {
    TagNames(nodes[n].msg);
    var all := [n] + visited;
    assert forall i :: 0 < i < |all| ==> all[i] == visited[i - 1];
    assert all[1..] == visited;
  }

  lemma {:induction false} LinesConcat(nodes: seq<Node>, a: seq<nat>, b: seq<nat>)
    requires InRange(nodes, a) && InRange(nodes, b)
    ensures Lines(nodes, a + b) == Lines(nodes, a) + Lines(nodes, b)
  {
    if a == [] {
      assert a + b == b;
    } else {
      assert (a + b)[1..] == a[1..] + b;
      LinesConcat(nodes, a[1..], b);
    }
  }

  lemma {:induction false} VisitInArena(nodes: seq<Node>, n: nat)
    requires Downward(nodes) && n < |nodes|
    ensures forall i :: 0 <= i < |Visit(nodes, n)| ==> n <= Visit(nodes, n)[i] < |nodes|
    decreases |nodes| - n, |nodes[n].items| + 1
  {
    VisitItemsInArena(nodes, n, 0);
  }

  lemma {:induction false} VisitItemsInArena(nodes: seq<Node>, n: nat, k: nat)
    requires Downward(nodes) && n < |nodes| && k <= |nodes[n].items|
    ensures forall i :: 0 <= i < |VisitItems(nodes, n, k)| ==> n < VisitItems(nodes, n, k)[i] < |nodes|
    decreases |nodes| - n, |nodes[n].items| - k
  {
    if k < |nodes[n].items| {
      assert HasItem(nodes, n, k, nodes[n].items[k]);
      VisitInArena(nodes, nodes[n].items[k]);
      VisitItemsInArena(nodes, n, k + 1);
    }
  }

  /** handleBatchNaively: recursion over the items. It terminates on a forest. */
  method HandleBatchNaively(nodes: seq<Node>, n: nat) returns (handled: seq<Msg>)
    requires Downward(nodes) && n < |nodes|
    ensures (VisitInArena(nodes, n); handled == Lines(nodes, Visit(nodes, n)))
    decreases |nodes| - n
  {
    hide Visit;
    handled := [];
    if nodes[n].msg.command != BATCH {
      handled := handled + [nodes[n].msg];
    }
    var k := 0;
    ghost var visited: seq<nat> := [n];
    VisitSplit(nodes, n);
    VisitInArena(nodes, n);
    assert Lines(nodes, visited) == handled;
    while k < |nodes[n].items|
      invariant 0 <= k <= |nodes[n].items|
      invariant InRange(nodes, visited) && handled == Lines(nodes, visited)
      invariant Visit(nodes, n) == visited + VisitItems(nodes, n, k)
    {
      var c := nodes[n].items[k];
      ItemBelow(nodes, n, k);
      VisitInArena(nodes, c);
      var more := HandleBatchNaively(nodes, c);
      LinesConcat(nodes, visited, Visit(nodes, c));
      handled := handled + more;
      visited := visited + Visit(nodes, c);
      k := k + 1;
    }
    assert visited + [] == visited;
  }

  lemma {:induction false} VisitSplit(nodes: seq<Node>, n: nat)
    requires Downward(nodes) && n < |nodes|
    ensures Visit(nodes, n) == [n] + VisitItems(nodes, n, 0)
  {
  }

  lemma {:induction false} ItemBelow(nodes: seq<Node>, n: nat, k: nat)
    requires Downward(nodes) && n < |nodes| && k < |nodes[n].items|
    ensures n < nodes[n].items[k] < |nodes|
  {
    assert HasItem(nodes, n, k, nodes[n].items[k]);
  }

  // ----- when the recursion ends -----

  /** The same walk without assuming a forest, given up (None) below the given depth. */
  ghost function Walk(nodes: seq<Node>, n: nat, depth: nat): (r: Option<seq<nat>>)
    requires n < |nodes|
    decreases depth, |nodes[n].items| + 1
  {
    if depth == 0 then None
    else
      match WalkItems(nodes, n, 0, depth)
      case None => None
      case Some(rest) => Some([n] + rest)
  }

  ghost function WalkItems(nodes: seq<Node>, n: nat, k: nat, depth: nat): (r: Option<seq<nat>>)
    requires n < |nodes| && k <= |nodes[n].items| && depth > 0
    decreases depth, |nodes[n].items| - k
  {
    if k == |nodes[n].items| then Some([])
    else if nodes[n].items[k] >= |nodes| then None
    else
      match Walk(nodes, nodes[n].items[k], depth - 1)
      case None => None
      case Some(first) =>
        match WalkItems(nodes, n, k + 1, depth)
        case None => None
        case Some(rest) => Some(first + rest)
  }

  /** On a forest the recursion ends, no deeper than there are nodes, and is the visit. */
  lemma {:induction false} WalkEnds(nodes: seq<Node>, n: nat, depth: nat)
    requires Downward(nodes) && n < |nodes| && depth >= |nodes| - n
    ensures Walk(nodes, n, depth) == Some(Visit(nodes, n))
    decreases |nodes| - n, |nodes[n].items| + 1
  {
    WalkItemsEnd(nodes, n, 0, depth);
  }

  lemma {:induction false} WalkItemsEnd(nodes: seq<Node>, n: nat, k: nat, depth: nat)
    requires Downward(nodes) && n < |nodes| && k <= |nodes[n].items| && depth >= |nodes| - n
    ensures WalkItems(nodes, n, k, depth) == Some(VisitItems(nodes, n, k))
    decreases |nodes| - n, |nodes[n].items| - k
  {
    if k < |nodes[n].items| {
      ItemBelow(nodes, n, k);
      WalkEnds(nodes, nodes[n].items[k], depth - 1);
      WalkItemsEnd(nodes, n, k + 1, depth);
    }
  }

  /** From a node that is its own first item it does not end at any depth. */
  lemma {:induction false} SelfItemNeverEnds(nodes: seq<Node>, n: nat, depth: nat)
    requires HasItem(nodes, n, 0, n)
    ensures Walk(nodes, n, depth) == None
    decreases depth
  {
    if depth > 0 {
      SelfItemNeverEnds(nodes, n, depth - 1);
    }
  }

  /** In any reachable table a self-parented start of an ID that is not open makes a batch whose
      flattening never ends. */
  lemma {:induction false} SelfParentNeverEnds(s: State, m: Msg, now: int, pending: Pending, depth: nat)
    requires Forest(s) && SelfParented(m) && Classify(m).id !in s.open
    ensures |s.nodes| < |Step(s, m, now, pending).0.nodes| && Walk(Step(s, m, now, pending).0.nodes, |s.nodes|, depth) == None
  {
    hide Classify;
    SelfParentCycle(s, m, now, pending);
    SelfItemNeverEnds(Step(s, m, now, pending).0.nodes, |s.nodes|, depth);
  }

  // ----- each node once -----

  /** The batch that holds a node, if any. */
  ghost predicate IsParent(nodes: seq<Node>, p: nat, c: nat) {
    exists i: nat :: HasItem(nodes, p, i, c)
  }

  /** `a` is `x` or a batch that holds it at some depth. */
  ghost predicate Above(nodes: seq<Node>, a: nat, x: nat)
    requires Downward(nodes)
    decreases x
  {
    a == x || exists p: nat :: IsParent(nodes, p, x) && Above(nodes, a, p)
  }

  lemma {:induction false} AboveLeq(nodes: seq<Node>, a: nat, x: nat)
    requires Downward(nodes) && Above(nodes, a, x)
    ensures a <= x
    decreases x
  {
    if a != x {
      var p: nat :| IsParent(nodes, p, x) && Above(nodes, a, p);
      AboveLeq(nodes, a, p);
    }
  }

  lemma {:induction false} AboveChild(nodes: seq<Node>, p: nat, c: nat, x: nat)
    requires Downward(nodes) && IsParent(nodes, p, c) && Above(nodes, c, x)
    ensures Above(nodes, p, x)
    decreases x
  {
    if c == x {
      assert Above(nodes, p, p);
    } else {
      var q: nat :| IsParent(nodes, q, x) && Above(nodes, c, q);
      AboveChild(nodes, p, c, q);
    }
  }

  /** Ancestors of one node are ancestors of each other. */
  lemma {:induction false} AboveChain(nodes: seq<Node>, a: nat, b: nat, x: nat)
    requires Downward(nodes) && OneParent(nodes) && Above(nodes, a, x) && Above(nodes, b, x) && a < b
    ensures Above(nodes, a, b)
    decreases x
  {
    AboveLeq(nodes, b, x);
    if b != x {
      var p: nat :| IsParent(nodes, p, x) && Above(nodes, a, p);
      var q: nat :| IsParent(nodes, q, x) && Above(nodes, b, q);
      assert p == q;
      AboveChain(nodes, a, b, p);
    }
  }

  lemma {:induction false} VisitBelow(nodes: seq<Node>, n: nat, x: nat)
    requires Downward(nodes) && n < |nodes| && x in Visit(nodes, n)
    ensures Above(nodes, n, x)
    decreases |nodes| - n, |nodes[n].items| + 1
  {
    if x != n {
      var c := VisitItemsBelow(nodes, n, 0, x);
      AboveChild(nodes, n, c, x);
    }
  }

  lemma {:induction false} VisitItemsBelow(nodes: seq<Node>, n: nat, k: nat, x: nat) returns (c: nat)
    requires Downward(nodes) && n < |nodes| && k <= |nodes[n].items| && x in VisitItems(nodes, n, k)
    ensures IsParent(nodes, n, c) && Above(nodes, c, x)
    ensures exists j: nat :: k <= j && HasItem(nodes, n, j, c)
    decreases |nodes| - n, |nodes[n].items| - k
  {
    var first := nodes[n].items[k];
    assert HasItem(nodes, n, k, first);
    if x in Visit(nodes, first) {
      VisitBelow(nodes, first, x);
      c := first;
    } else {
      c := VisitItemsBelow(nodes, n, k + 1, x);
    }
  }

  ghost predicate Distinct(s: seq<nat>) {
    forall i, j :: 0 <= i < j < |s| ==> s[i] != s[j]
  }

  lemma {:induction false} DistinctConcat(a: seq<nat>, b: seq<nat>)
    requires Distinct(a) && Distinct(b) && forall x :: x in a ==> x !in b
    ensures Distinct(a + b)
  {
    forall i, j | 0 <= i < j < |a + b| ensures (a + b)[i] != (a + b)[j] {
      if i < |a| <= j {
        assert a[i] in a && b[j - |a|] in b;
      }
    }
  }

  /** The items of two siblings do not overlap. */
  lemma {:induction false} SiblingsApart(nodes: seq<Node>, n: nat, c: nat, d: nat, x: nat)
    requires Downward(nodes) && OneParent(nodes)
    requires IsParent(nodes, n, c) && IsParent(nodes, n, d)
    ensures c < d ==> !(Above(nodes, c, x) && Above(nodes, d, x))
  {
    if c < d && Above(nodes, c, x) && Above(nodes, d, x) {
      AboveChain(nodes, c, d, x);
      var p: nat :| IsParent(nodes, p, d) && Above(nodes, c, p);
      AboveLeq(nodes, c, p);
      assert false;
    }
  }

  /** Every walk of a forest meets each node at most once. */
  lemma {:induction false} VisitOnce(nodes: seq<Node>, n: nat)
    requires Downward(nodes) && OneParent(nodes) && n < |nodes|
    ensures Distinct(Visit(nodes, n))
    decreases |nodes| - n, |nodes[n].items| + 1
  {
    VisitItemsOnce(nodes, n, 0);
    VisitItemsInArena(nodes, n, 0);
    DistinctConcat([n], VisitItems(nodes, n, 0));
  }

  lemma {:induction false} VisitItemsOnce(nodes: seq<Node>, n: nat, k: nat)
    requires Downward(nodes) && OneParent(nodes) && n < |nodes| && k <= |nodes[n].items|
    ensures Distinct(VisitItems(nodes, n, k))
    decreases |nodes| - n, |nodes[n].items| - k
  {
    if k < |nodes[n].items| {
      var c := nodes[n].items[k];
      assert HasItem(nodes, n, k, c);
      VisitOnce(nodes, c);
      VisitItemsOnce(nodes, n, k + 1);
      var here, later := Visit(nodes, c), VisitItems(nodes, n, k + 1);
      forall x | x in here
        ensures x !in later
      {
        VisitBelow(nodes, c, x);
        if x in later {
          var d := VisitItemsBelow(nodes, n, k + 1, x);
          SiblingsApart(nodes, n, c, d, x);
          SiblingsApart(nodes, n, d, c, x);
          assert false;
        }
      }
      DistinctConcat(here, later);
    }
  }

  /** In every reachable table, flattening a batch handles no node twice. */
  lemma {:induction false} FlatteningVisitsOnce(inputs: seq<Input>, n: nat)
    requires forall i :: 0 <= i < |inputs| && inputs[i].Received? ==> !SelfParented(inputs[i].msg)
    requires n < |Run(inputs).nodes|
    ensures Forest(Run(inputs)) && Distinct(Visit(Run(inputs).nodes, n))
  {
    RunsKeepForest(inputs);
    VisitOnce(Run(inputs).nodes, n);
  }
}
