/** Well-nested batch streams (ircevent/irc_callback.go): a delivered tree is final, and
    flattening it handles the lines in the order in which they arrived. */
module BatchOrder {
  import opened ByteStrings
  import opened Messages
  import opened Batches
  import opened BatchTrees
  import opened BatchStreams

  // ----- closed batches stay closed -----

  lemma {:induction false} OpenThroughout(stream: seq<Input>, k: nat, u: nat, id: ID, t: nat)
    requires Arrivals(stream) && t < k <= u <= |stream| && OpenAt(stream, u, id) == Some(t)
    ensures OpenAt(stream, k, id) == Some(t)
    decreases u
  {
    if k < u {
      OpenThroughout(stream, k, u - 1, id, t);
    }
  }

  /** The batch at t, if it is one, is not open before message k. */
  ghost predicate Closed(stream: seq<Input>, k: nat, t: nat)
    requires Arrivals(stream) && t < k <= |stream|
  {
    EventAt(stream, t).Start? ==> OpenAt(stream, k, EventAt(stream, t).id) != Some(t)
  }

  lemma {:induction false} JoinedWhileOpen(stream: seq<Input>, u: nat)
    requires Arrivals(stream) && u < |stream| && Joins(stream, u).Some?
    ensures OpenAt(stream, u, EventAt(stream, Joins(stream, u).value).id) == Joins(stream, u)
  {
  }

  lemma {:induction false} JoinListFrozen(stream: seq<Input>, k: nat, j: nat, t: nat)
    requires Arrivals(stream) && t < k <= j <= |stream| && Closed(stream, k, t)
    ensures JoinList(stream, j, t) == JoinList(stream, k, t)
    decreases j
  {
    hide Joins;
    if k < j {
      JoinListFrozen(stream, k, j - 1, t);
      if Joins(stream, j - 1) == Some(t) {
        JoinedWhileOpen(stream, j - 1);
        OpenThroughout(stream, k, j - 1, EventAt(stream, t).id, t);
        assert false;
      }
    }
  }

  /** The batch at t and everything in it are closed. */
  ghost predicate AllClosed(stream: seq<Input>, k: nat, t: nat)
    requires Arrivals(stream) && t < k <= |stream|
    decreases k - t
  {
    var l := JoinList(stream, k, t);
    Closed(stream, k, t) && forall i :: 0 <= i < |l| ==> AllClosed(stream, k, l[i])
  }

  lemma {:induction false} DescribedFrozen(stream: seq<Input>, k: nat, j: nat, t: nat)
    requires Arrivals(stream) && t < k <= j <= |stream| && AllClosed(stream, k, t)
    ensures Described(stream, j, t) == Described(stream, k, t)
    decreases k - t
  {
    JoinListFrozen(stream, k, j, t);
    var l := JoinList(stream, k, t);
    var a, b := Described(stream, j, t).items, Described(stream, k, t).items;
    forall i | 0 <= i < |l|
      ensures a[i] == b[i]
    {
      DescribedFrozen(stream, k, j, l[i]);
    }
    assert a == b;
  }

  // ----- conforming streams -----

  /** Inner batches are closed before the batch that holds them. */
  ghost predicate InnerFirst(stream: seq<Input>)
    requires Arrivals(stream)
  {
    forall c: nat, u: nat :: u < c < |stream| && Closes(stream, c, u) ==> Closed(stream, c, u)
  }

  /** Message c closes the batch that message u went into. */
  ghost predicate Closes(stream: seq<Input>, c: nat, u: nat)
    requires Arrivals(stream) && u < c < |stream|
  {
    && EventAt(stream, c).Close?
    && Joins(stream, u).Some?
    && OpenAt(stream, c, EventAt(stream, c).id) == Joins(stream, u)
  }

  lemma {:induction false} ClosedSomewhere(stream: seq<Input>, u: nat, k: nat, id: ID, t: nat) returns (c: nat)
    requires Arrivals(stream) && u <= k <= |stream|
    requires OpenAt(stream, u, id) == Some(t) && OpenAt(stream, k, id) != Some(t)
    ensures u <= c < k && OpenAt(stream, c, id) == Some(t)
    ensures EventAt(stream, c).Close? && EventAt(stream, c).id == id
    decreases k
  {
    if OpenAt(stream, k - 1, id) == Some(t) {
      c := k - 1;
    } else {
      c := ClosedSomewhere(stream, u, k - 1, id, t);
    }
  }

  lemma {:induction false} ItemClosed(stream: seq<Input>, k: nat, t: nat, u: nat)
    requires Arrivals(stream) && InnerFirst(stream) && t < u < k <= |stream| && Closed(stream, k, t)
    requires Joins(stream, u) == Some(t)
    ensures Closed(stream, k, u)
  {
    hide Joins;
    JoinedWhileOpen(stream, u);
    var id := EventAt(stream, t).id;
    var c := ClosedSomewhere(stream, u, k, id, t);
    JoinerIsNoClose(stream, u);
    assert u < c && Closes(stream, c, u);
    var e := EventAt(stream, u);
    if e.Start? && OpenAt(stream, k, e.id) == Some(u) {
      OpenThroughout(stream, c, k, e.id, u);
      assert false;
    }
  }

  lemma {:induction false} JoinerIsNoClose(stream: seq<Input>, u: nat)
    requires Arrivals(stream) && u < |stream| && Joins(stream, u).Some?
    ensures !EventAt(stream, u).Close?
  {
  }

  lemma {:induction false} ClosedInConforming(stream: seq<Input>, k: nat, t: nat)
    requires Arrivals(stream) && InnerFirst(stream) && t < k <= |stream| && Closed(stream, k, t)
    ensures AllClosed(stream, k, t)
    decreases k - t
  {
    hide Joins;
    hide InnerFirst;
    var l := JoinList(stream, k, t);
    forall i | 0 <= i < |l|
      ensures AllClosed(stream, k, l[i])
    {
      ItemClosed(stream, k, t, l[i]);
      ClosedInConforming(stream, k, l[i]);
    }
  }

  lemma {:induction false} DescribedSkip(stream: seq<Input>, k: nat, t: nat)
    requires Arrivals(stream) && t < k < |stream| && Joins(stream, k).None?
    ensures Described(stream, k + 1, t) == Described(stream, k, t)
    decreases k - t
  {
    var l := JoinList(stream, k, t);
    assert JoinList(stream, k + 1, t) == l;
    var a, b := Described(stream, k + 1, t).items, Described(stream, k, t).items;
    forall i | 0 <= i < |l|
      ensures a[i] == b[i]
    {
      DescribedSkip(stream, k, l[i]);
    }
    assert a == b;
  }

  lemma {:induction false} DescriptionIsFinal(stream: seq<Input>, k: nat, j: nat)
    requires Arrivals(stream) && InnerFirst(stream) && k < j <= |stream|
    requires EventAt(stream, k).Close? && OpenAt(stream, k, EventAt(stream, k).id).Some?
    ensures var t := OpenAt(stream, k, EventAt(stream, k).id).value;
            Described(stream, j, t) == Described(stream, k, t)
  {
    var t := OpenAt(stream, k, EventAt(stream, k).id).value;
    assert Closed(stream, k + 1, t);
    ClosedInConforming(stream, k + 1, t);
    DescribedFrozen(stream, k + 1, j, t);
    DescribedSkip(stream, k, t);
  }

  lemma {:induction false} PositionsGrow(stream: seq<Input>, k: nat, j: nat)
    requires Arrivals(stream) && k <= j <= |stream|
    ensures Positions(stream, k) <= Positions(stream, j)
    decreases j
  {
    if k < j {
      PositionsGrow(stream, k, j - 1);
    }
  }

  /** The tree below a node, as the stream describes it at any later time. */
  lemma {:induction false} NodeDescribed(stream: seq<Input>, k: nat, j: nat, n: nat)
    requires Arrivals(stream) && k <= j <= |stream| && n < |Run(stream[..k]).nodes|
    ensures n < |Positions(stream, k)| && Positions(stream, k)[n] < k
    ensures Downward(Run(stream[..j]).nodes) && n < |Run(stream[..j]).nodes|
    ensures TreeOf(Run(stream[..j]).nodes, n) == Described(stream, j, Positions(stream, k)[n])
  {
    hide TreeOf;
    hide Described;
    hide Forest;
    TableMatches(stream, k);
    TableMatches(stream, j);
    PositionsGrow(stream, k, j);
    RunsKeepForest(stream[..j]);
    ForestDown(Run(stream[..j]));
    TreeMatches(stream, j, Run(stream[..j]).nodes, Positions(stream, j), n);
  }

  /** In a conforming stream the nodes handed out at the close of a batch never change again:
      after any later traffic the tree below the delivered node is the one that was delivered. */
  lemma {:induction false} DeliveredTreeIsFinal(stream: seq<Input>, k: nat, j: nat, n: nat)
    requires Arrivals(stream) && InnerFirst(stream) && k < j <= |stream|
    requires var outcome := Step(Run(stream[..k]), stream[k].msg, stream[k].now, stream[k].pending).1; outcome.Finished? && n == outcome.node
    ensures Downward(Run(stream[..k]).nodes) && n < |Run(stream[..k]).nodes|
    ensures Downward(Run(stream[..j]).nodes) && n < |Run(stream[..j]).nodes|
    ensures TreeOf(Run(stream[..j]).nodes, n) == TreeOf(Run(stream[..k]).nodes, n)
  {
    hide TreeOf;
    hide Described;
    hide NodesMatch;
    hide Classify;
    hide InnerFirst;
    DeliveredTree(stream, k);
    var e := EventAt(stream, k);
    var s, pos := Run(stream[..k]), Positions(stream, k);
    NodeDescribed(stream, k, k, n);
    NodeDescribed(stream, k, j, n);
    TableMatches(stream, k);
    assert OpenMatchFor(stream, k, s, pos, e.id);
    DescriptionIsFinal(stream, k, j);
  }

  // ----- arrival order -----

  /** The positions of a tree's messages in the order of the walk. */
  ghost function Preorder(stream: seq<Input>, k: nat, t: nat): (r: seq<nat>)
    requires Arrivals(stream) && t < k <= |stream|
    decreases k - t, |JoinList(stream, k, t)| + 1
  {
    [t] + PreorderItems(stream, k, t, 0)
  }

  ghost function PreorderItems(stream: seq<Input>, k: nat, t: nat, i: nat): (r: seq<nat>)
    requires Arrivals(stream) && t < k <= |stream| && i <= |JoinList(stream, k, t)|
    decreases k - t, |JoinList(stream, k, t)| - i
  {
    var l := JoinList(stream, k, t);
    if i == |l| then [] else Preorder(stream, k, l[i]) + PreorderItems(stream, k, t, i + 1)
  }

  ghost predicate Within(s: seq<nat>, lo: nat, hi: nat) {
    forall i :: 0 <= i < |s| ==> lo <= s[i] < hi
  }

  ghost predicate Ascending(s: seq<nat>) {
    forall i, j :: 0 <= i < j < |s| ==> s[i] < s[j]
  }

  lemma {:induction false} AscendingConcat(a: seq<nat>, b: seq<nat>, lo: nat, mid: nat, hi: nat)
    requires Ascending(a) && Ascending(b) && Within(a, lo, mid) && Within(b, mid, hi) && lo <= mid <= hi
    ensures Ascending(a + b) && Within(a + b, lo, hi)
  {
  }

  lemma {:induction false} PreorderWithin(stream: seq<Input>, k: nat, t: nat)
    requires Arrivals(stream) && t < k <= |stream|
    ensures Within(Preorder(stream, k, t), t, k)
    decreases k - t, |JoinList(stream, k, t)| + 1
  {
    PreorderItemsWithin(stream, k, t, 0);
  }

  lemma {:induction false} PreorderItemsWithin(stream: seq<Input>, k: nat, t: nat, i: nat)
    requires Arrivals(stream) && t < k <= |stream| && i <= |JoinList(stream, k, t)|
    ensures Within(PreorderItems(stream, k, t, i), t + 1, k)
    decreases k - t, |JoinList(stream, k, t)| - i
  {
    var l := JoinList(stream, k, t);
    if i < |l| {
      PreorderWithin(stream, k, l[i]);
      PreorderItemsWithin(stream, k, t, i + 1);
    }
  }

  lemma {:induction false} PreorderFrozen(stream: seq<Input>, k: nat, j: nat, t: nat)
    requires Arrivals(stream) && t < k <= j <= |stream| && AllClosed(stream, k, t)
    ensures Preorder(stream, j, t) == Preorder(stream, k, t)
    decreases k - t, |JoinList(stream, k, t)| + 1
  {
    hide Joins;
    JoinListFrozen(stream, k, j, t);
    PreorderItemsFrozen(stream, k, j, t, 0);
  }

  lemma {:induction false} PreorderItemsFrozen(stream: seq<Input>, k: nat, j: nat, t: nat, i: nat)
    requires Arrivals(stream) && t < k <= j <= |stream| && AllClosed(stream, k, t)
    requires JoinList(stream, j, t) == JoinList(stream, k, t) && i <= |JoinList(stream, k, t)|
    ensures PreorderItems(stream, j, t, i) == PreorderItems(stream, k, t, i)
    decreases k - t, |JoinList(stream, k, t)| - i
  {
    hide Joins;
    hide Closed;
    hide OpenAt;
    var l := JoinList(stream, k, t);
    if i < |l| {
      PreorderFrozen(stream, k, j, l[i]);
      PreorderItemsFrozen(stream, k, j, t, i + 1);
    }
  }

  /** Lines and inner batches always go to an innermost open batch: whatever its earlier
      items hold is closed by then. */
  ghost predicate Innermost(stream: seq<Input>)
    requires Arrivals(stream)
  {
    forall u: nat :: u < |stream| && Joins(stream, u).Some? ==> InnermostAt(stream, u, Joins(stream, u).value)
  }

  ghost predicate InnermostAt(stream: seq<Input>, u: nat, t: nat)
    requires Arrivals(stream) && u < |stream|
  {
    var l := JoinList(stream, u, t);
    forall i :: 0 <= i < |l| ==> AllClosed(stream, u, l[i])
  }

  /** The list of items before its i-th one is the list at the time the i-th arrived. */
  lemma {:induction false} JoinListBefore(stream: seq<Input>, k: nat, t: nat, i: nat)
    requires Arrivals(stream) && k <= |stream| && i < |JoinList(stream, k, t)|
    ensures JoinList(stream, JoinList(stream, k, t)[i], t) == JoinList(stream, k, t)[..i]
    decreases k
  {
    hide Joins;
    var l, before := JoinList(stream, k, t), JoinList(stream, k - 1, t);
    if i < |before| {
      JoinListBefore(stream, k - 1, t, i);
      assert l[..i] == before[..i];
    } else {
      assert l[..i] == before;
    }
  }

  /** In such a stream every walk goes through the messages in arrival order. */
  lemma {:induction false} PreorderAscending(stream: seq<Input>, k: nat, t: nat)
    requires Arrivals(stream) && Innermost(stream) && t < k <= |stream|
    ensures Ascending(Preorder(stream, k, t))
    decreases k - t, |JoinList(stream, k, t)| + 1
  {
    PreorderItemsAscending(stream, k, t, 0);
    PreorderItemsWithin(stream, k, t, 0);
    AscendingConcat([t], PreorderItems(stream, k, t, 0), t, t + 1, k);
  }

  lemma {:induction false} PreorderItemsAscending(stream: seq<Input>, k: nat, t: nat, i: nat)
    requires Arrivals(stream) && Innermost(stream) && t < k <= |stream| && i <= |JoinList(stream, k, t)|
    ensures Ascending(PreorderItems(stream, k, t, i))
    ensures i < |JoinList(stream, k, t)| ==> Within(PreorderItems(stream, k, t, i), JoinList(stream, k, t)[i], k)
    decreases k - t, |JoinList(stream, k, t)| - i
  {
    hide Joins;
    hide AllClosed;
    hide Innermost;
    hide Preorder;
    var l := JoinList(stream, k, t);
    if i < |l| {
      var first := Preorder(stream, k, l[i]);
      PreorderAscending(stream, k, l[i]);
      PreorderItemsAscending(stream, k, t, i + 1);
      PreorderWithin(stream, k, l[i]);
      if i + 1 < |l| {
        EarlierItemsDone(stream, k, t, i);
        AscendingConcat(first, PreorderItems(stream, k, t, i + 1), l[i], l[i + 1], k);
      } else {
        assert PreorderItems(stream, k, t, i) == first + [];
        assert first + [] == first;
      }
    }
  }

  /** Everything below an item arrived before the next item. */
  lemma {:induction false} EarlierItemsDone(stream: seq<Input>, k: nat, t: nat, i: nat)
    requires Arrivals(stream) && Innermost(stream) && t < k <= |stream| && i + 1 < |JoinList(stream, k, t)|
    ensures var l := JoinList(stream, k, t); l[i] < l[i + 1] && Within(Preorder(stream, k, l[i]), l[i], l[i + 1])
  {
    hide Joins;
    hide Preorder;
    hide AllClosed;
    var l := JoinList(stream, k, t);
    var next := l[i + 1];
    JoinListBefore(stream, k, t, i + 1);
    var earlier := JoinList(stream, next, t);
    assert earlier[i] == l[i];
    assert InnermostAt(stream, next, t);
    PreorderFrozen(stream, next, k, l[i]);
    PreorderWithin(stream, next, l[i]);
  }

  // ----- flattening -----

  /** The ordinary lines of a tree, outermost first. */
  function Flatten(t: Tree): (r: seq<Msg>)
    decreases t, 1
  {
    (if t.msg.command != BATCH then [t.msg] else []) + FlattenAll(t.items)
  }

  function FlattenAll(ts: seq<Tree>): (r: seq<Msg>)
    decreases ts, 0
  {
    if ts == [] then [] else Flatten(ts[0]) + FlattenAll(ts[1..])
  }

  lemma {:induction false} WalkFlattens(nodes: seq<Node>, n: nat)
    requires Downward(nodes) && n < |nodes|
    ensures (VisitInArena(nodes, n); Lines(nodes, Visit(nodes, n)) == Flatten(TreeOf(nodes, n)))
    decreases |nodes| - n, |nodes[n].items| + 1
  {
    hide Downward;
    VisitInArena(nodes, n);
    VisitItemsInArena(nodes, n, 0);
    WalkItemsFlatten(nodes, n, 0);
    LinesConcat(nodes, [n], VisitItems(nodes, n, 0));
    var items := TreeOf(nodes, n).items;
    assert items[0..] == items;
    assert Lines(nodes, [n]) == if nodes[n].msg.command != BATCH then [nodes[n].msg] else [];
  }

  lemma {:induction false} WalkItemsFlatten(nodes: seq<Node>, n: nat, k: nat)
    requires Downward(nodes) && n < |nodes| && k <= |nodes[n].items|
    ensures (VisitItemsInArena(nodes, n, k);
             Lines(nodes, VisitItems(nodes, n, k)) == FlattenAll(TreeOf(nodes, n).items[k..]))
    decreases |nodes| - n, |nodes[n].items| - k
  {
    hide Flatten;
    hide Visit;
    VisitItemsInArena(nodes, n, k);
    if k < |nodes[n].items| {
      var c := nodes[n].items[k];
      ItemBelow(nodes, n, k);
      WalkFlattens(nodes, c);
      WalkItemsFlatten(nodes, n, k + 1);
      VisitInArena(nodes, c);
      VisitItemsInArena(nodes, n, k + 1);
      LinesConcat(nodes, Visit(nodes, c), VisitItems(nodes, n, k + 1));
      var rest := TreeOf(nodes, n).items[k..];
      assert rest[0] == TreeOf(nodes, c) && rest[1..] == TreeOf(nodes, n).items[k + 1..];
    }
  }

  /** The ordinary lines at the given positions of the stream. */
  ghost function LinesAt(stream: seq<Input>, ps: seq<nat>): (r: seq<Msg>)
    requires Arrivals(stream) && Within(ps, 0, |stream|)
  {
    if ps == [] then []
    else
      var m := stream[ps[0]].msg;
      (if m.command != BATCH then [m] else []) + LinesAt(stream, ps[1..])
  }

  lemma {:induction false} LinesAtConcat(stream: seq<Input>, a: seq<nat>, b: seq<nat>)
    requires Arrivals(stream) && Within(a, 0, |stream|) && Within(b, 0, |stream|)
    ensures LinesAt(stream, a + b) == LinesAt(stream, a) + LinesAt(stream, b)
  {
    if a == [] {
      assert a + b == b;
    } else {
      assert (a + b)[1..] == a[1..] + b;
      LinesAtConcat(stream, a[1..], b);
    }
  }

  lemma {:induction false} DescribedFlattens(stream: seq<Input>, k: nat, t: nat)
    requires Arrivals(stream) && t < k <= |stream|
    ensures Within(Preorder(stream, k, t), 0, |stream|)
    ensures Flatten(Described(stream, k, t)) == LinesAt(stream, Preorder(stream, k, t))
    decreases k - t, |JoinList(stream, k, t)| + 1
  {
    hide JoinList;
    PreorderWithin(stream, k, t);
    PreorderItemsWithin(stream, k, t, 0);
    DescribedItemsFlatten(stream, k, t, 0);
    LinesAtConcat(stream, [t], PreorderItems(stream, k, t, 0));
    var items := Described(stream, k, t).items;
    assert items[0..] == items;
    var m := stream[t].msg;
    assert LinesAt(stream, [t]) == if m.command != BATCH then [m] else [];
  }

  lemma {:induction false} DescribedItemsFlatten(stream: seq<Input>, k: nat, t: nat, i: nat)
    requires Arrivals(stream) && t < k <= |stream| && i <= |JoinList(stream, k, t)|
    ensures Within(PreorderItems(stream, k, t, i), 0, |stream|)
    ensures FlattenAll(Described(stream, k, t).items[i..]) == LinesAt(stream, PreorderItems(stream, k, t, i))
    decreases k - t, |JoinList(stream, k, t)| - i
  {
    hide Flatten;
    hide Preorder;
    var l := JoinList(stream, k, t);
    hide JoinList;
    PreorderItemsWithin(stream, k, t, i);
    if i < |l| {
      DescribedFlattens(stream, k, l[i]);
      DescribedItemsFlatten(stream, k, t, i + 1);
      LinesAtConcat(stream, Preorder(stream, k, l[i]), PreorderItems(stream, k, t, i + 1));
      var rest := Described(stream, k, t).items[i..];
      assert rest[0] == Described(stream, k, l[i]) && rest[1..] == Described(stream, k, t).items[i + 1..];
    }
  }

  /** When lines always go to an innermost open batch, flattening a delivered batch handles
      its lines in exactly the order in which they arrived. */
  lemma {:induction false} FlattenedInArrivalOrder(stream: seq<Input>, k: nat, n: nat)
    requires Arrivals(stream) && Innermost(stream) && k < |stream|
    requires EventAt(stream, k).Close? && !EventAt(stream, k).nested
    requires OpenAt(stream, k, EventAt(stream, k).id).Some?
    requires Step(Run(stream[..k]), stream[k].msg, stream[k].now, stream[k].pending).1.Finished?
    requires n == Step(Run(stream[..k]), stream[k].msg, stream[k].now, stream[k].pending).1.node
    ensures var s := Run(stream[..k]);
            var t := OpenAt(stream, k, EventAt(stream, k).id).value;
            && Downward(s.nodes) && n < |s.nodes|
            && (VisitInArena(s.nodes, n);
                PreorderWithin(stream, k, t);
                Lines(s.nodes, Visit(s.nodes, n)) == LinesAt(stream, Preorder(stream, k, t)))
            && Ascending(Preorder(stream, k, t))
  {
    hide Described;
    hide TreeOf;
    hide Flatten;
    hide Preorder;
    hide Visit;
    DeliveredTree(stream, k);
    var s := Run(stream[..k]);
    var t := OpenAt(stream, k, EventAt(stream, k).id).value;
    VisitInArena(s.nodes, n);
    WalkFlattens(s.nodes, n);
    DescribedFlattens(stream, k, t);
    PreorderAscending(stream, k, t);
  }
}
