/** How often a message is handed out (ircevent/irc_callback.go): in a batch stream every line
    and every batch lies in exactly one tree that is handed out, if somebody wants that tree and
    exactly if closes carry the batch tag as they should. */
module BatchDelivery {
  import opened ByteStrings
  import opened Messages
  import LabelText
  import opened Batches
  import opened BatchTrees
  import opened BatchStreams
  import opened BatchOrder

  // ----- deliveries -----

  /** Message k closes the batch started at t. */
  ghost predicate ClosesBatch(stream: seq<Input>, k: nat, t: nat)
    requires Arrivals(stream) && k < |stream|
  {
    EventAt(stream, k).Close? && OpenAt(stream, k, EventAt(stream, k).id) == Some(t)
  }

  /** Message k closes the batch started at t and hands it out. */
  ghost predicate Delivers(stream: seq<Input>, k: nat, t: nat)
    requires Arrivals(stream) && k < |stream|
  {
    ClosesBatch(stream, k, t) && !EventAt(stream, k).nested && Wanted(stream, k, t)
  }

  /** That is what the table does: message k hands out the node of t. */
  lemma {:induction false} DeliversIsFinished(stream: seq<Input>, k: nat)
    requires Arrivals(stream) && k < |stream|
    ensures Forest(Run(stream[..k]))
    ensures var s := Run(stream[..k]);
            var outcome := Step(s, stream[k].msg, stream[k].now, stream[k].pending).1;
            && (outcome.Finished? <==> exists t: nat :: Delivers(stream, k, t))
            && forall t: nat :: Delivers(stream, k, t) ==>
                 && t < k && outcome.Finished? && outcome.node < |s.nodes|
                 && TreeOf(s.nodes, outcome.node) == Described(stream, k, t)
  {
    hide TreeOf;
    hide Described;
    hide Classify;
    hide Forest;
    DeliveredTree(stream, k);
    var e := EventAt(stream, k);
    if e.Close? && !e.nested && OpenAt(stream, k, e.id).Some? {
      var t := OpenAt(stream, k, e.id).value;
      assert Wanted(stream, k, t) ==> Delivers(stream, k, t);
    }
  }

  /** Message k hands out a tree that holds message u. */
  ghost predicate DeliversWith(stream: seq<Input>, k: nat, u: nat)
    requires Arrivals(stream) && k < |stream|
  {
    exists t: nat :: t < k && Delivers(stream, k, t) && u in Preorder(stream, k, t)
  }

  /** How often message u has been handed out before message k. */
  ghost function Deliveries(stream: seq<Input>, k: nat, u: nat): (n: nat)
    requires Arrivals(stream) && k <= |stream|
  {
    if k == 0 then 0 else Deliveries(stream, k - 1, u) + if DeliversWith(stream, k - 1, u) then 1 else 0
  }

  /** The outermost batch around a message. */
  ghost function Top(stream: seq<Input>, u: nat): (r: nat)
    requires Arrivals(stream) && u < |stream|
    ensures r <= u && Joins(stream, r).None?
    decreases u
  {
    if Joins(stream, u).None? then u else Top(stream, Joins(stream, u).value)
  }

  /** Wherever somebody wants the batch, a batch inside another one is closed with a batch tag
      and an outermost one without. */
  ghost predicate TagsRight(stream: seq<Input>)
    requires Arrivals(stream)
  {
    forall c: nat, t: nat :: c < |stream| && ClosesBatch(stream, c, t) ==> TaggedRight(stream, c, t)
  }

  ghost predicate TaggedRight(stream: seq<Input>, c: nat, t: nat)
    requires Arrivals(stream) && c < |stream| && ClosesBatch(stream, c, t)
  {
    Wanted(stream, c, t) ==> (EventAt(stream, c).nested <==> Joins(stream, t).Some?)
  }

  // ----- who is in a tree -----

  lemma {:induction false} JoinedIsListed(stream: seq<Input>, k: nat, t: nat, u: nat)
    requires Arrivals(stream) && u < k <= |stream| && Joins(stream, u) == Some(t)
    ensures u in JoinList(stream, k, t)
    decreases k
  {
    hide Joins;
    if u < k - 1 {
      JoinedIsListed(stream, k - 1, t, u);
    }
  }

  lemma {:induction false} ItemsHold(stream: seq<Input>, k: nat, t: nat, i: nat, j: nat, x: nat)
    requires Arrivals(stream) && t < k <= |stream| && i <= j < |JoinList(stream, k, t)|
    requires x in Preorder(stream, k, JoinList(stream, k, t)[j])
    ensures x in PreorderItems(stream, k, t, i)
    decreases j - i
  {
    hide Preorder;
    hide JoinList;
    if i < j {
      ItemsHold(stream, k, t, i + 1, j, x);
    }
  }

  lemma {:induction false} HeldByItem(stream: seq<Input>, k: nat, t: nat, i: nat, x: nat) returns (j: nat)
    requires Arrivals(stream) && t < k <= |stream| && i <= |JoinList(stream, k, t)|
    requires x in PreorderItems(stream, k, t, i)
    ensures i <= j < |JoinList(stream, k, t)| && x in Preorder(stream, k, JoinList(stream, k, t)[j])
    decreases |JoinList(stream, k, t)| - i
  {
    hide Preorder;
    hide JoinList;
    if x in Preorder(stream, k, JoinList(stream, k, t)[i]) {
      j := i;
    } else {
      j := HeldByItem(stream, k, t, i + 1, x);
    }
  }

  /** A tree holds its root, and with a batch everything that joined it. */
  lemma {:induction false} TreeHolds(stream: seq<Input>, k: nat, t: nat, y: nat, x: nat)
    requires Arrivals(stream) && t < k <= |stream| && y in Preorder(stream, k, t)
    requires x < k && Joins(stream, x) == Some(y)
    ensures x in Preorder(stream, k, t)
    decreases k - t
  {
    hide Joins;
    var l := JoinList(stream, k, t);
    var j: nat;
    if y == t {
      JoinedIsListed(stream, k, t, x);
      j :| 0 <= j < |l| && l[j] == x;
      assert x in Preorder(stream, k, x);
    } else {
      j := HeldByItem(stream, k, t, 0, y);
      TreeHolds(stream, k, l[j], y, x);
    }
    ItemsHold(stream, k, t, 0, j, x);
  }

  /** Everything in a tree has the root's outermost batch. */
  lemma {:induction false} TreeTop(stream: seq<Input>, k: nat, t: nat, x: nat)
    requires Arrivals(stream) && t < k <= |stream| && x in Preorder(stream, k, t)
    ensures x < k && Top(stream, x) == Top(stream, t)
    decreases k - t
  {
    hide Joins;
    PreorderWithin(stream, k, t);
    if x != t {
      var j := HeldByItem(stream, k, t, 0, x);
      TreeTop(stream, k, JoinList(stream, k, t)[j], x);
    }
  }

  /** An item of a batch arrived before the batch was closed. */
  lemma {:induction false} JoinedBeforeClose(stream: seq<Input>, c: nat, t: nat, u: nat)
    requires Arrivals(stream) && c < |stream| && u < |stream| && t < c
    requires Joins(stream, u) == Some(t) && Closed(stream, c + 1, t) && EventAt(stream, c).Close?
    ensures u < c
  {
    JoinedWhileOpen(stream, u);
    JoinerIsNoClose(stream, u);
    hide Joins;
    if c < u {
      OpenThroughout(stream, c + 1, u, EventAt(stream, t).id, t);
      assert false;
    }
  }

  lemma {:induction false} TopJoin(stream: seq<Input>, u: nat)
    requires Arrivals(stream) && u < |stream|
    ensures Joins(stream, u).None? ==> Top(stream, u) == u
    ensures Joins(stream, u).Some? ==>
              Joins(stream, u).value < u && Top(stream, u) == Top(stream, Joins(stream, u).value)
  {
    hide Joins;
  }

  lemma {:induction false} RootHeld(stream: seq<Input>, c: nat, t: nat)
    requires Arrivals(stream) && t < c <= |stream|
    ensures t in Preorder(stream, c, t)
  {
    hide JoinList;
  }

  lemma {:induction false} CloseCloses(stream: seq<Input>, c: nat, t: nat)
    requires Arrivals(stream) && c < |stream|
    requires EventAt(stream, c).Close? && OpenAt(stream, c, EventAt(stream, c).id) == Some(t)
    ensures t < c && Closed(stream, c + 1, t)
  {
  }

  /** When the outermost batch of a message is closed, the message is in its tree. */
  lemma {:induction false} TopHolds(stream: seq<Input>, c: nat, u: nat)
    requires Arrivals(stream) && InnerFirst(stream) && c < |stream| && u < |stream|
    requires EventAt(stream, c).Close? && OpenAt(stream, c, EventAt(stream, c).id) == Some(Top(stream, u))
    ensures u < c && Closed(stream, c + 1, u) && u in Preorder(stream, c, Top(stream, u))
    decreases u
  {
    hide InnerFirst;
    hide Joins;
    hide Top;
    hide Preorder;
    hide OpenAt;
    hide Closed;
    hide Classify;
    TopJoin(stream, u);
    match Joins(stream, u) {
      case None =>
        CloseCloses(stream, c, u);
        RootHeld(stream, c, u);
      case Some(t) =>
        TopHolds(stream, c, t);
        JoinedBeforeClose(stream, c, t, u);
        ItemClosed(stream, c + 1, t, u);
        TreeHolds(stream, c, Top(stream, u), t, u);
    }
  }

  // ----- exactly once -----

  /** A batch is closed once. */
  lemma {:induction false} ClosedOnce(stream: seq<Input>, k: nat, c: nat, t: nat)
    requires Arrivals(stream) && k < c < |stream| && ClosesBatch(stream, k, t)
    ensures !ClosesBatch(stream, c, t)
  {
    if ClosesBatch(stream, c, t) {
      OpenThroughout(stream, k + 1, c, EventAt(stream, t).id, t);
      assert false;
    }
  }

  /** With the right tags, message k hands out u exactly if it closes u's outermost batch and
      somebody wants that batch. */
  lemma {:induction false} DeliveredByTop(stream: seq<Input>, k: nat, u: nat)
    requires Arrivals(stream) && InnerFirst(stream) && TagsRight(stream) && k < |stream| && u < |stream|
    ensures DeliversWith(stream, k, u) <==>
              ClosesBatch(stream, k, Top(stream, u)) && Wanted(stream, k, Top(stream, u))
  {
    hide InnerFirst;
    hide Joins;
    var r := Top(stream, u);
    if DeliversWith(stream, k, u) {
      var t: nat :| t < k && Delivers(stream, k, t) && u in Preorder(stream, k, t);
      assert TaggedRight(stream, k, t);
      TreeTop(stream, k, t, u);
    }
    if ClosesBatch(stream, k, r) && Wanted(stream, k, r) {
      assert TaggedRight(stream, k, r);
      TopHolds(stream, k, u);
      assert Delivers(stream, k, r);
    }
  }

  /** The outermost batch of a message that has a node was opened. */
  lemma {:induction false} TopWasOpen(stream: seq<Input>, u: nat)
    requires Arrivals(stream) && u < |stream| && MakesNode(stream, u)
    ensures var r := Top(stream, u);
            EventAt(stream, r).Start? && OpenAt(stream, r + 1, EventAt(stream, r).id) == Some(r)
    decreases u
  {
    if Joins(stream, u).Some? {
      var t := Joins(stream, u).value;
      JoinedWhileOpen(stream, u);
      OpenThroughout(stream, t + 1, u, EventAt(stream, t).id, t);
      OpenedMakesNode(stream, t);
      TopWasOpen(stream, t);
    }
  }

  lemma {:induction false} OpenedMakesNode(stream: seq<Input>, t: nat)
    requires Arrivals(stream) && t < |stream| && EventAt(stream, t).Start?
    requires OpenAt(stream, t + 1, EventAt(stream, t).id) == Some(t)
    ensures MakesNode(stream, t)
  {
  }

  /** Before message k, the batch started at t was closed while somebody wanted it. */
  ghost predicate TakenBefore(stream: seq<Input>, k: nat, t: nat)
    requires Arrivals(stream) && k <= |stream|
  {
    exists c: nat :: c < k && ClosesBatch(stream, c, t) && Wanted(stream, c, t)
  }

  lemma {:induction false} TakenNext(stream: seq<Input>, k: nat, t: nat)
    requires Arrivals(stream) && k < |stream|
    ensures TakenBefore(stream, k + 1, t) <==>
              TakenBefore(stream, k, t) || (ClosesBatch(stream, k, t) && Wanted(stream, k, t))
    ensures ClosesBatch(stream, k, t) ==> !TakenBefore(stream, k, t)
  {
    hide Wanted;
    if TakenBefore(stream, k, t) {
      var c: nat :| c < k && ClosesBatch(stream, c, t) && Wanted(stream, c, t);
      assert c < k + 1;
      ClosedOnce(stream, c, k, t);
    }
  }

  /** A batch is closed if and only if some message closed it. */
  lemma {:induction false} ClosedBySome(stream: seq<Input>, k: nat, t: nat)
    requires Arrivals(stream) && t < k <= |stream| && EventAt(stream, t).Start?
    requires OpenAt(stream, t + 1, EventAt(stream, t).id) == Some(t)
    ensures Closed(stream, k, t) <==> exists c: nat :: c < k && ClosesBatch(stream, c, t)
  {
    var id := EventAt(stream, t).id;
    if Closed(stream, k, t) {
      var c := ClosedSomewhere(stream, t + 1, k, id, t);
      assert ClosesBatch(stream, c, t);
    } else {
      forall c: nat | c < k ensures !ClosesBatch(stream, c, t) {
        if ClosesBatch(stream, c, t) {
          OpenThroughout(stream, c + 1, k, id, t);
          assert false;
        }
      }
    }
  }

  /** The message has been handed out once if its outermost batch was closed while somebody
      wanted it, and not at all otherwise. */
  ghost predicate OnceAt(stream: seq<Input>, k: nat, u: nat)
    requires Arrivals(stream) && k <= |stream| && u < |stream|
  {
    Deliveries(stream, k, u) == if TakenBefore(stream, k, Top(stream, u)) then 1 else 0
  }

  ghost predicate ExactlyOnce(stream: seq<Input>)
    requires Arrivals(stream)
  {
    forall k: nat, u: nat :: k <= |stream| && u < |stream| && MakesNode(stream, u) ==> OnceAt(stream, k, u)
  }

  /** With the right tags every message, whether it is a line or a batch, is handed out exactly
      once: at the close of its outermost batch, if that was unlabeled or its label was pending. */
  lemma {:induction false} DeliveredExactlyOnce(stream: seq<Input>, k: nat, u: nat)
    requires Arrivals(stream) && InnerFirst(stream) && TagsRight(stream)
    requires k <= |stream| && u < |stream|
    ensures Deliveries(stream, k, u) == if TakenBefore(stream, k, Top(stream, u)) then 1 else 0
    decreases k
  {
    hide InnerFirst;
    hide TagsRight;
    hide DeliversWith;
    hide ClosesBatch;
    hide Wanted;
    hide Top;
    if k > 0 {
      DeliveredExactlyOnce(stream, k - 1, u);
      DeliveredByTop(stream, k - 1, u);
      hide TakenBefore;
      TakenNext(stream, k - 1, Top(stream, u));
    }
  }

  /** For unlabeled batches: once if the outermost batch is closed, and not at all before. */
  lemma {:induction false} UnlabeledExactlyOnce(stream: seq<Input>, k: nat, u: nat)
    requires Arrivals(stream) && InnerFirst(stream) && TagsRight(stream)
    requires u < k <= |stream| && MakesNode(stream, u)
    requires EventAt(stream, Top(stream, u)).Start? ==> EventAt(stream, Top(stream, u)).labelID == 0
    ensures Deliveries(stream, k, u) == if Closed(stream, k, Top(stream, u)) then 1 else 0
  {
    hide InnerFirst;
    hide TagsRight;
    hide Deliveries;
    hide Top;
    hide MakesNode;
    TopWasOpen(stream, u);
    DeliveredExactlyOnce(stream, k, u);
    ClosedBySome(stream, k, Top(stream, u));
  }

  lemma {:induction false} ClosedMakesNode(stream: seq<Input>, c: nat, t: nat)
    requires Arrivals(stream) && c < |stream| && ClosesBatch(stream, c, t)
    ensures t < c && MakesNode(stream, t)
  {
    OpenThroughout(stream, t + 1, c, EventAt(stream, t).id, t);
    OpenedMakesNode(stream, t);
  }

  /** A close with the wrong tag breaks the count at that close. */
  lemma {:induction false} WrongTagMiscounts(stream: seq<Input>, c: nat, t: nat)
    requires Arrivals(stream) && c < |stream| && ClosesBatch(stream, c, t) && !TaggedRight(stream, c, t)
    ensures t < c && !(OnceAt(stream, c, t) && OnceAt(stream, c + 1, t))
  {
    ClosedMakesNode(stream, c, t);
    TopJoin(stream, t);
    var r := Top(stream, t);
    TakenNext(stream, c, r);
    RootHeld(stream, c, t);
    hide TakenBefore;
    hide Preorder;
    hide Top;
    hide Joins;
    if EventAt(stream, c).nested {
      assert !DeliversWith(stream, c, t);
    } else {
      assert Delivers(stream, c, t);
      assert DeliversWith(stream, c, t);
      assert !ClosesBatch(stream, c, r);
    }
  }

  /** In a stream whose inner batches close first, every line and batch with a place in a tree
      is handed out exactly once if and only if the batch tags of its closes are right. */
  lemma {:induction false} ExactlyOnceIffTagsRight(stream: seq<Input>)
    requires Arrivals(stream) && InnerFirst(stream)
    ensures ExactlyOnce(stream) <==> TagsRight(stream)
  {
    hide InnerFirst;
    hide TaggedRight;
    hide ClosesBatch;
    hide OnceAt;
    if TagsRight(stream) {
      forall k: nat, u: nat | k <= |stream| && u < |stream| && MakesNode(stream, u)
        ensures OnceAt(stream, k, u)
      {
        OnceMeans(stream, k, u);
        DeliveredExactlyOnce(stream, k, u);
      }
    } else {
      var c: nat, t: nat :| c < |stream| && ClosesBatch(stream, c, t) && !TaggedRight(stream, c, t);
      WrongTagMiscounts(stream, c, t);
      ClosedMakesNode(stream, c, t);
      var c1: nat := c + 1;
      assert !(OnceAt(stream, c, t) && OnceAt(stream, c1, t));
    }
  }

  lemma {:induction false} OnceMeans(stream: seq<Input>, k: nat, u: nat)
    requires Arrivals(stream) && k <= |stream| && u < |stream|
    ensures OnceAt(stream, k, u) <==>
              Deliveries(stream, k, u) == if TakenBefore(stream, k, Top(stream, u)) then 1 else 0
  {
  }

  // ----- without the tag -----

  lemma {:induction false} ListGrows(stream: seq<Input>, k: nat, j: nat, t: nat)
    requires Arrivals(stream) && k <= j <= |stream|
    ensures JoinList(stream, k, t) <= JoinList(stream, j, t)
    decreases j
  {
    hide Joins;
    if k < j {
      ListGrows(stream, k, j - 1, t);
    }
  }

  lemma {:induction false} TreeGrows(stream: seq<Input>, k: nat, j: nat, t: nat, x: nat)
    requires Arrivals(stream) && t < k <= j <= |stream| && x in Preorder(stream, k, t)
    ensures x in Preorder(stream, j, t)
    decreases k - t
  {
    hide Joins;
    if x != t {
      var i := HeldByItem(stream, k, t, 0, x);
      ListGrows(stream, k, j, t);
      TreeGrows(stream, k, j, JoinList(stream, k, t)[i], x);
      ItemsHold(stream, j, t, 0, i, x);
    }
  }

  lemma {:induction false} TreeInTree(stream: seq<Input>, k: nat, t: nat, p: nat, x: nat)
    requires Arrivals(stream) && t < k <= |stream| && Joins(stream, t) == Some(p) && x in Preorder(stream, k, t)
    ensures x in Preorder(stream, k, p)
  {
    hide Joins;
    JoinedIsListed(stream, k, p, t);
    var l := JoinList(stream, k, p);
    var j :| 0 <= j < |l| && l[j] == t;
    ItemsHold(stream, k, p, 0, j, x);
  }

  lemma {:induction false} DeliveriesGrow(stream: seq<Input>, k: nat, j: nat, u: nat)
    requires Arrivals(stream) && k <= j <= |stream|
    ensures Deliveries(stream, k, u) <= Deliveries(stream, j, u)
    decreases j
  {
    if k < j {
      DeliveriesGrow(stream, k, j - 1, u);
    }
  }

  /** The tag matters: if an inner batch and later the batch around it are both closed without
      it, everything in the inner one is handed out twice. */
  lemma {:induction false} UntaggedInnerCloseDeliversTwice(stream: seq<Input>, c: nat, d: nat, t: nat, p: nat, u: nat)
    requires Arrivals(stream) && c < d < |stream| && t < c && p < d
    requires Delivers(stream, c, t) && Delivers(stream, d, p) && Joins(stream, t) == Some(p)
    requires u in Preorder(stream, c, t)
    ensures Deliveries(stream, d + 1, u) >= 2
  {
    hide Joins;
    assert DeliversWith(stream, c, u);
    TreeGrows(stream, c, d, t, u);
    TreeInTree(stream, d, t, p, u);
    assert DeliversWith(stream, d, u);
    hide DeliversWith;
    DeliveriesGrow(stream, c + 1, d, u);
  }

  // ----- a concrete stream -----

  const ID_A: ID := [0x61]
  const ID_B: ID := [0x62]

  const NOBODY: Pending := map[]

  function Tagged(batch: Option<ID>): (r: TagMap) {
    if batch.Some? then map[BATCH_TAG := batch.value] else map[]
  }

  function BatchMessage(sign: byte, id: ID, batch: Option<ID>): (m: Msg) {
    Msg([], BATCH, [[sign] + id], false, Tagged(batch), map[])
  }

  lemma {:induction false} BatchMessageMeans(id: ID, batch: Option<ID>)
    requires id != []
    ensures Classify(BatchMessage(PLUS, id, batch)) == Start(id, batch, 0)
    ensures Classify(BatchMessage(MINUS, id, batch)) == Close(id, batch.Some?)
  {
    assert ([PLUS] + id)[1..] == id && ([MINUS] + id)[1..] == id;
    assert LABEL_TAG != BATCH_TAG;
  }

  const LINE := Msg([], [0x58], [], false, Tagged(Some(ID_B)), map[])

  /** Batch a, batch b in a, a line in b, and both closed without a tag. */
  const UNTAGGED: seq<Input> := [
    Received(BatchMessage(PLUS, ID_A, None), 0, NOBODY),
    Received(BatchMessage(PLUS, ID_B, Some(ID_A)), 0, NOBODY),
    Received(LINE, 0, NOBODY),
    Received(BatchMessage(MINUS, ID_B, None), 0, NOBODY),
    Received(BatchMessage(MINUS, ID_A, None), 0, NOBODY)]

  lemma {:induction false} UntaggedEvents()
    ensures Arrivals(UNTAGGED)
    ensures EventAt(UNTAGGED, 0) == Start(ID_A, None, 0)
    ensures EventAt(UNTAGGED, 1) == Start(ID_B, Some(ID_A), 0)
    ensures EventAt(UNTAGGED, 2) == Member(ID_B)
    ensures EventAt(UNTAGGED, 3) == Close(ID_B, false)
    ensures EventAt(UNTAGGED, 4) == Close(ID_A, false)
  {
    BatchMessageMeans(ID_A, None);
    BatchMessageMeans(ID_B, Some(ID_A));
    BatchMessageMeans(ID_B, None);
    assert Classify(LINE) == Member(ID_B);
  }

  lemma {:induction false} OpenNext(stream: seq<Input>, k: nat, id: ID)
    requires Arrivals(stream) && k < |stream|
    ensures OpenAt(stream, k + 1, id) ==
            var before, e := OpenAt(stream, k, id), EventAt(stream, k);
            if e.Start? && e.id == id && before.None? then Some(k)
            else if e.Close? && e.id == id then None
            else before
  {
  }

  /** In this stream the line is handed out twice. */
  lemma {:induction false} UntaggedStreamDeliversTwice()
    ensures Arrivals(UNTAGGED) && Deliveries(UNTAGGED, 5, 2) >= 2
  {
    UntaggedEvents();
    hide Classify;
    hide Preorder;
    hide Deliveries;
    assert OpenAt(UNTAGGED, 0, ID_A) == None && OpenAt(UNTAGGED, 0, ID_B) == None;
    hide OpenAt;
    OpenNext(UNTAGGED, 0, ID_A);
    OpenNext(UNTAGGED, 1, ID_A);
    OpenNext(UNTAGGED, 2, ID_A);
    OpenNext(UNTAGGED, 3, ID_A);
    OpenNext(UNTAGGED, 0, ID_B);
    OpenNext(UNTAGGED, 1, ID_B);
    OpenNext(UNTAGGED, 2, ID_B);
    assert Joins(UNTAGGED, 1) == Some(0) && Joins(UNTAGGED, 2) == Some(1);
    assert Delivers(UNTAGGED, 3, 1) && Delivers(UNTAGGED, 4, 0);
    RootHeld(UNTAGGED, 3, 1);
    TreeHolds(UNTAGGED, 3, 1, 1, 2);
    UntaggedInnerCloseDeliversTwice(UNTAGGED, 3, 4, 1, 0, 2);
  }

  // ----- a label nobody waits for -----

  /** `BATCH +a` with the label 7. */
  const LABELED := Msg([], BATCH, [[PLUS] + ID_A], false, map[LABEL_TAG := [0x37]], map[])

  const LINE_A := Msg([], [0x58], [], false, Tagged(Some(ID_A)), map[])

  /** A labeled batch with one line, while no label has a callback. */
  const UNCLAIMED: seq<Input> := [
    Received(LABELED, 0, NOBODY),
    Received(LINE_A, 0, NOBODY),
    Received(BatchMessage(MINUS, ID_A, None), 0, NOBODY)]

  lemma {:induction false} UnclaimedEvents()
    ensures Arrivals(UNCLAIMED)
    ensures EventAt(UNCLAIMED, 0) == Start(ID_A, None, 7)
    ensures EventAt(UNCLAIMED, 1) == Member(ID_A)
    ensures EventAt(UNCLAIMED, 2) == Close(ID_A, false)
  {
    BatchMessageMeans(ID_A, None);
    assert ([PLUS] + ID_A)[1..] == ID_A;
    assert LABEL_TAG != BATCH_TAG;
    assert LabelText.ParseNat([0x37]) == Some(7);
    assert Classify(LABELED) == Start(ID_A, None, 7);
    assert Classify(LINE_A) == Member(ID_A);
  }

  /** The close of that batch is only logged: its line is never handed out, although all of its
      batches are closed and its tags are right. */
  lemma {:induction false} UnclaimedBatchIsDropped()
    ensures Arrivals(UNCLAIMED) && Forest(Run(UNCLAIMED[..2]))
    ensures Step(Run(UNCLAIMED[..2]), UNCLAIMED[2].msg, UNCLAIMED[2].now, UNCLAIMED[2].pending).1 == Logged(UnknownLabel)
    ensures Joins(UNCLAIMED, 1) == Some(0) && Closed(UNCLAIMED, 3, 0) && Deliveries(UNCLAIMED, 3, 1) == 0
  {
    UnclaimedEvents();
    hide Classify;
    hide Preorder;
    assert OpenAt(UNCLAIMED, 0, ID_A) == None;
    OpenNext(UNCLAIMED, 0, ID_A);
    OpenNext(UNCLAIMED, 1, ID_A);
    OpenNext(UNCLAIMED, 2, ID_A);
    hide OpenAt;
    DeliveredTree(UNCLAIMED, 2);
    assert !DeliversWith(UNCLAIMED, 0, 1) && !DeliversWith(UNCLAIMED, 1, 1) && !DeliversWith(UNCLAIMED, 2, 1);
    hide DeliversWith;
    assert Deliveries(UNCLAIMED, 0, 1) == 0;
    assert Deliveries(UNCLAIMED, 1, 1) == 0;
    assert Deliveries(UNCLAIMED, 2, 1) == 0;
  }

  // ----- a batch inside itself -----

  /** Concretely: `BATCH +a` with the batch tag `a` makes a node that flattening never leaves. */
  lemma {:induction false} SelfParentExample(depth: nat)
    ensures var m := BatchMessage(PLUS, ID_A, Some(ID_A));
            var s := Run([Received(m, 0, NOBODY)]);
            SelfParented(m) && |s.nodes| == 1 && Walk(s.nodes, 0, depth) == None
  {
    var m := BatchMessage(PLUS, ID_A, Some(ID_A));
    BatchMessageMeans(ID_A, Some(ID_A));
    hide Classify;
    assert [Received(m, 0, NOBODY)][..0] == [];
    assert Run([]) == NO_BATCHES;
    assert Forest(NO_BATCHES);
    SelfParentCycle(NO_BATCHES, m, 0, NOBODY);
    SelfItemNeverEnds(Run([Received(m, 0, NOBODY)]).nodes, 0, depth);
  }
}
