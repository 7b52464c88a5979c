/** Capability negotiation (ircevent/irc.go, ircevent/irc_callback.go, ircevent/irc_struct.go):
    a bounded result channel with non-blocking sends between the read loop and Connect. */
module Caps {
  import opened ByteStrings

  type Cap = Bytes

  // ----- text -----

  /** Length of the run without white space at the front. */
  function WordLen(s: Bytes): (n: nat)
    ensures n <= |s|
    ensures forall i :: 0 <= i < n ==> SpaceLen(s[i..]) == 0
    ensures n < |s| ==> SpaceLen(s[n..]) > 0
  {
    if s == [] || SpaceLen(s) > 0 then 0
    else
      var n := WordLen(s[1..]);
      assert forall i :: 0 < i <= |s| ==> s[i..] == s[1..][i - 1..];
      assert s[0..] == s;
      n + 1
  }

  /** strings.Fields. */
  function Fields(s: Bytes): (r: seq<Bytes>)
    decreases |s|
  {
    if s == [] then []
    else if SpaceLen(s) > 0 then Fields(s[SpaceLen(s)..])
    else [s[..WordLen(s)]] + Fields(s[WordLen(s)..])
  }

  type Advertised = map<Cap, Bytes>

  function Advertise(m: Advertised, tokens: seq<Bytes>): (r: Advertised)
    decreases |tokens|
  {
    if tokens == [] then m
    else Advertise(m[NameOf(tokens[0]) := ValueOf(tokens[0])], tokens[1..])
  }

  // ----- the negotiation -----

  datatype Result = Result(cap: Cap, ack: bool)

  datatype State = State(
    advertised: Advertised,
    listed: bool, // the final LS line has been handled
    notFound: seq<Cap>, // results the LS handler has still to send
    outstanding: multiset<Cap>, // requested, not answered
    queue: seq<Result>, // capsChan
    dropped: nat, // sends that found the channel full
    received: seq<Result>, // taken out by negotiateCaps
    answers: seq<Result>) // what the server has said

  const FRESH := State(map[], false, [], multiset{}, [], 0, [], [])

  /** A non-blocking send into a channel of the given capacity. */
  function TrySend(s: State, capacity: nat, r: Result): (n: State) {
    if |s.queue| < capacity then s.(queue := s.queue + [r]) else s.(dropped := s.dropped + 1)
  }

  /** The requested capabilities the server offers, and the others, in request order. */
  function Offered(requests: seq<Cap>, adv: Advertised): (r: seq<Cap>) {
    if requests == [] then []
    else (if requests[0] in adv then [requests[0]] else []) + Offered(requests[1..], adv)
  }

  function Missing(requests: seq<Cap>, adv: Advertised): (r: seq<Cap>) {
    if requests == [] then []
    else (if requests[0] in adv then [] else [requests[0]]) + Missing(requests[1..], adv)
  }

  function ListLine(s: State, requests: seq<Cap>, text: Bytes, final: bool): (r: State) {
    var adv := Advertise(s.advertised, Fields(text));
    var s1 := s.(advertised := adv);
    if !final then s1
    else
      s1.(listed := true,
          outstanding := s.outstanding + multiset(Offered(requests, adv)),
          notFound := Missing(requests, adv))
  }

  datatype Action =
    | List(text: Bytes, final: bool) // CAP LS
    | SendMissing // the handler reports one capability that is not offered
    | Answer(cap: Cap, ack: bool) // one token of a CAP ACK or NAK
    | Receive // negotiateCaps takes one result

  /** The server sends one LS reply and answers each request once; the read loop finishes one
      message before the next. */
  predicate Enabled(s: State, requests: seq<Cap>, a: Action) {
    match a
    case List(_, _) => !s.listed
    case SendMissing => s.notFound != []
    case Answer(c, _) => s.notFound == [] && c in s.outstanding
    case Receive => s.queue != [] && |s.received| < |requests|
  }

  function Apply(s: State, requests: seq<Cap>, a: Action): (r: State)
    requires Enabled(s, requests, a)
  {
    match a
    case List(text, final) => ListLine(s, requests, text, final)
    case SendMissing =>
      TrySend(s.(notFound := s.notFound[1..]), |requests|, Result(s.notFound[0], false))
    case Answer(c, ack) =>
      TrySend(s.(outstanding := s.outstanding - multiset{c}, answers := s.answers + [Result(c, ack)]),
              |requests|, Result(c, ack))
    case Receive => s.(queue := s.queue[1..], received := s.received + [s.queue[0]])
  }

  // ----- invariants -----

  function NameList(rs: seq<Result>): (r: seq<Cap>)
    ensures |r| == |rs|
  {
    seq(|rs|, i requires 0 <= i < |rs| => rs[i].cap)
  }

  /** The acknowledged capabilities, in order: acknowledgedCaps in negotiateCaps. */
  function AckList(rs: seq<Result>): (r: seq<Cap>) {
    if rs == [] then []
    else
      var n := |rs| - 1;
      AckList(rs[..n]) + if rs[n].ack then [rs[n].cap] else []
  }

  function Names(rs: seq<Result>): (r: multiset<Cap>) {
    multiset(NameList(rs))
  }

  function Acked(rs: seq<Result>): (r: multiset<Cap>) {
    multiset(AckList(rs))
  }

  lemma {:induction false} NamesConcat(a: seq<Result>, b: seq<Result>)
    ensures Names(a + b) == Names(a) + Names(b)
  {
    assert NameList(a + b) == NameList(a) + NameList(b);
  }

  lemma {:induction false} AckListConcat(a: seq<Result>, b: seq<Result>)
    ensures AckList(a + b) == AckList(a) + AckList(b)
  {
    if b == [] {
      assert a + b == a;
    } else {
      var n := |b| - 1;
      AckListConcat(a, b[..n]);
      assert (a + b)[..|a| + n] == a + b[..n];
    }
  }

  lemma {:induction false} ResultsConcat(a: seq<Result>, b: seq<Result>)
    ensures Names(a + b) == Names(a) + Names(b)
    ensures Acked(a + b) == Acked(a) + Acked(b)
  {
    hide Names;
    hide AckList;
    NamesConcat(a, b);
    AckListConcat(a, b);
  }

  lemma {:induction false} OneResult(r: Result)
    ensures Names([r]) == multiset{r.cap}
    ensures Acked([r]) == if r.ack then multiset{r.cap} else multiset{}
  {
    assert [r][..0] == [];
    assert NameList([r]) == [r.cap];
    assert AckList([r]) == if r.ack then [r.cap] else [];
  }

  /** Every request is in exactly one place: still to be reported, unanswered, queued or received. */
  predicate Accounted(s: State, requests: seq<Cap>) {
    multiset(s.notFound) + s.outstanding + Names(s.queue) + Names(s.received) ==
    if s.listed then multiset(requests) else multiset{}
  }

  /** Nothing is dropped, and the acknowledgements in flight are the server's. */
  predicate Faithful(s: State) {
    s.dropped == 0 && Acked(s.queue) + Acked(s.received) == Acked(s.answers)
  }

  predicate Inv(s: State, requests: seq<Cap>) {
    Accounted(s, requests) && Faithful(s)
  }

  /** Counting: results received, queued, about to be sent and outstanding add up to the requests. */
  lemma {:induction false} Counting(s: State, requests: seq<Cap>)
    requires Accounted(s, requests)
    ensures |s.notFound| + |s.outstanding| + |s.queue| + |s.received| == if s.listed then |requests| else 0
  {
    var all := multiset(s.notFound) + s.outstanding + Names(s.queue) + Names(s.received);
    assert |Names(s.queue)| == |s.queue| && |Names(s.received)| == |s.received|;
    assert |all| == |s.notFound| + |s.outstanding| + |s.queue| + |s.received|;
    assert |multiset(requests)| == |requests|;
  }

  lemma {:induction false} PartsOfRequests(requests: seq<Cap>, adv: Advertised)
    ensures multiset(Offered(requests, adv)) + multiset(Missing(requests, adv)) == multiset(requests)
  {
    if requests != [] {
      var c, rest := requests[0], requests[1..];
      var offered, missing := Offered(rest, adv), Missing(rest, adv);
      PartsOfRequests(rest, adv);
      assert requests == [c] + rest;
      if c in adv {
        assert Offered(requests, adv) == [c] + offered && Missing(requests, adv) == missing;
      } else {
        assert Offered(requests, adv) == offered && Missing(requests, adv) == [c] + missing;
      }
    }
  }

  /** A send into a channel that is not full keeps its result. */
  lemma {:induction false} SendKeeps(s: State, capacity: nat, r: Result)
    requires |s.queue| < capacity
    ensures var n := TrySend(s, capacity, r);
            && n == s.(queue := s.queue + [r])
            && Names(n.queue) == Names(s.queue) + multiset{r.cap}
            && Acked(n.queue) == Acked(s.queue) + if r.ack then multiset{r.cap} else multiset{}
  {
    hide Names;
    hide Acked;
    ResultsConcat(s.queue, [r]);
    OneResult(r);
  }

  lemma {:induction false} SendMissingKeeps(s: State, requests: seq<Cap>)
    requires Inv(s, requests) && s.notFound != []
    ensures Inv(Apply(s, requests, SendMissing), requests)
  {
    hide Names;
    hide Acked;
    Counting(s, requests);
    var c := s.notFound[0];
    SendKeeps(s.(notFound := s.notFound[1..]), |requests|, Result(c, false));
    assert s.notFound == [c] + s.notFound[1..];
  }

  lemma {:induction false} AnswerKeeps(s: State, requests: seq<Cap>, c: Cap, ack: bool)
    requires Inv(s, requests) && Enabled(s, requests, Answer(c, ack))
    ensures Inv(Apply(s, requests, Answer(c, ack)), requests)
  {
    hide Names;
    hide Acked;
    Counting(s, requests);
    var r := Result(c, ack);
    SendKeeps(s.(outstanding := s.outstanding - multiset{c}, answers := s.answers + [r]), |requests|, r);
    ResultsConcat(s.answers, [r]);
    OneResult(r);
  }

  lemma {:induction false} ReceiveKeeps(s: State, requests: seq<Cap>)
    requires Inv(s, requests) && Enabled(s, requests, Receive)
    ensures Inv(Apply(s, requests, Receive), requests)
  {
    hide Names;
    hide Acked;
    var r := s.queue[0];
    ResultsConcat([r], s.queue[1..]);
    ResultsConcat(s.received, [r]);
    assert s.queue == [r] + s.queue[1..];
  }

  lemma {:induction false} StepKeeps(s: State, requests: seq<Cap>, a: Action)
    requires Inv(s, requests) && Enabled(s, requests, a)
    ensures Inv(Apply(s, requests, a), requests)
  {
    match a {
      case List(text, final) =>
        hide Names;
        hide Acked;
        hide Advertise;
        Counting(s, requests);
        PartsOfRequests(requests, Advertise(s.advertised, Fields(text)));
      case SendMissing =>
        SendMissingKeeps(s, requests);
      case Answer(c, ack) =>
        AnswerKeeps(s, requests, c, ack);
      case Receive =>
        ReceiveKeeps(s, requests);
    }
  }

  // ----- every run -----

  function Run(requests: seq<Cap>, actions: seq<Action>): (r: Option<State>) {
    if actions == [] then Some(FRESH)
    else
      var before := Run(requests, actions[..|actions| - 1]);
      var a := actions[|actions| - 1];
      if before.Some? && Enabled(before.value, requests, a) then Some(Apply(before.value, requests, a)) else None
  }

  lemma {:induction false} RunInv(requests: seq<Cap>, actions: seq<Action>)
    requires Run(requests, actions).Some?
    ensures Inv(Run(requests, actions).value, requests)
  {
    if actions != [] {
      RunInv(requests, actions[..|actions| - 1]);
      StepKeeps(Run(requests, actions[..|actions| - 1]).value, requests, actions[|actions| - 1]);
    }
  }

  /** In every run: the count is kept, no send is dropped; and when negotiateCaps has its
      last result, every request has had exactly one result, nothing is left in flight, and
      the acknowledged capabilities are exactly those the server acknowledged. */
  lemma {:induction false} NegotiationCounts(requests: seq<Cap>, actions: seq<Action>)
    requires Run(requests, actions).Some?
    ensures var s := Run(requests, actions).value;
            && s.dropped == 0
            && (s.listed ==> |s.received| + |s.queue| + |s.notFound| + |s.outstanding| == |requests|)
            && (s.listed && |s.received| == |requests| ==>
                  && s.queue == [] && s.notFound == [] && s.outstanding == multiset{}
                  && Names(s.received) == multiset(requests)
                  && Acked(s.received) == Acked(s.answers))
  {
    hide Names;
    hide Acked;
    RunInv(requests, actions);
    var s := Run(requests, actions).value;
    Counting(s, requests);
    if s.listed && |s.received| == |requests| {
      NothingQueued();
      assert s.outstanding == multiset{};
      assert multiset(s.notFound) == multiset{};
      assert s.queue == [];
    }
  }

  lemma {:induction false} NothingQueued()
    ensures Names([]) == multiset{} && Acked([]) == multiset{}
  {
  }

  /** Once the list is complete and its handler done, negotiateCaps never waits in vain: as
      long as results are missing, one is queued or the server owes an answer. */
  lemma {:induction false} NegotiationProgress(requests: seq<Cap>, actions: seq<Action>)
    requires Run(requests, actions).Some?
    ensures var s := Run(requests, actions).value;
            s.listed && s.notFound == [] && |s.received| < |requests| ==>
              s.queue != [] || s.outstanding != multiset{}
  {
    RunInv(requests, actions);
    Counting(Run(requests, actions).value, requests);
  }

  // ----- the split of the LS reply does not matter -----

  lemma {:induction false} AdvertiseConcat(m: Advertised, a: seq<Bytes>, b: seq<Bytes>)
    ensures Advertise(m, a + b) == Advertise(Advertise(m, a), b)
    decreases |a|
  {
    if a == [] {
      assert a + b == b;
    } else {
      assert (a + b)[1..] == a[1..] + b;
      AdvertiseConcat(m[NameOf(a[0]) := ValueOf(a[0])], a[1..], b);
    }
  }

  /** A space behind does not change what the text starts with. */
  lemma {:induction false} SpaceLenBefore(a: Bytes, b: Bytes)
    requires a != []
    ensures SpaceLen(a + [SPACE] + b) == SpaceLen(a)
  {
    var s := a + [SPACE] + b;
    assert s[|a|] == SPACE && forall i :: 0 <= i < |a| ==> s[i] == a[i];
  }

  lemma {:induction false} WordLenBefore(a: Bytes, b: Bytes)
    ensures WordLen(a + [SPACE] + b) == WordLen(a)
  {
    hide SpaceLen;
    var s := a + [SPACE] + b;
    if a == [] {
      SpaceFirst(s);
    } else {
      SpaceLenBefore(a, b);
      assert s[1..] == a[1..] + [SPACE] + b;
      WordLenBefore(a[1..], b);
    }
  }

  lemma {:induction false} SpaceFirst(s: Bytes)
    requires s != [] && s[0] == SPACE
    ensures SpaceLen(s) == 1
  {
  }

  lemma {:induction false} FieldsWhite(s: Bytes)
    requires SpaceLen(s) > 0
    ensures Fields(s) == Fields(s[SpaceLen(s)..])
  {
    hide SpaceLen;
  }

  lemma {:induction false} FieldsWord(s: Bytes)
    requires s != [] && SpaceLen(s) == 0
    ensures WordLen(s) > 0 && Fields(s) == [s[..WordLen(s)]] + Fields(s[WordLen(s)..])
  {
    hide SpaceLen;
  }

  lemma {:induction false} FieldsJoin(a: Bytes, b: Bytes)
    ensures Fields(a + [SPACE] + b) == Fields(a) + Fields(b)
    decreases |a|
  {
    hide Fields;
    hide WordLen;
    hide SpaceLen;
    var s := a + [SPACE] + b;
    if a == [] {
      SpaceFirst(s);
      assert s[1..] == b;
      FieldsWhite(s);
      FieldsNone();
      assert [] + Fields(b) == Fields(b);
    } else if SpaceLen(a) > 0 {
      var n := SpaceLen(a);
      SpaceLenBefore(a, b);
      FieldsWhite(s);
      FieldsWhite(a);
      assert s[n..] == a[n..] + [SPACE] + b;
      FieldsJoin(a[n..], b);
    } else {
      SpaceLenBefore(a, b);
      FieldsWord(a);
      FieldsWord(s);
      WordLenBefore(a, b);
      var n := WordLen(a);
      assert s[..n] == a[..n] && s[n..] == a[n..] + [SPACE] + b;
      FieldsJoin(a[n..], b);
      assert [a[..n]] + (Fields(a[n..]) + Fields(b)) == Fields(a) + Fields(b);
    }
  }

  lemma {:induction false} FieldsNone()
    ensures Fields([]) == []
  {
  }

  predicate NoSpaces(w: Bytes) {
    forall i :: 0 <= i < |w| ==> SpaceLen(w[i..]) == 0
  }

  lemma {:induction false} WordLenWhole(w: Bytes)
    requires NoSpaces(w)
    ensures WordLen(w) == |w|
  {
    hide SpaceLen;
    if w != [] {
      assert w[0..] == w;
      assert forall i :: 0 <= i < |w[1..]| ==> w[1..][i..] == w[i + 1..];
      WordLenWhole(w[1..]);
    }
  }

  /** The fields of a text are its words: a word by itself, a word and a space in front of more,
      and nothing for white space. */
  lemma {:induction false} FieldsMean(w: Bytes, rest: Bytes)
    ensures Fields([]) == [] && Fields(Ascii(" ") + rest) == Fields(rest)
    ensures w != [] && NoSpaces(w) ==> Fields(w) == [w] && Fields(w + Ascii(" ") + rest) == [w] + Fields(rest)
  {
    assert Ascii(" ") == [SPACE];
    FieldsNone();
    SpaceFirst([SPACE] + rest);
    FieldsWhite([SPACE] + rest);
    assert ([SPACE] + rest)[1..] == rest;
    if w != [] && NoSpaces(w) {
      hide SpaceLen;
      hide Fields;
      assert w[0..] == w;
      WordLenWhole(w);
      FieldsWord(w);
      assert w[..|w|] == w && w[|w|..] == [];
      FieldsJoin(w, rest);
    }
  }

  // ----- what the lists hold -----

  /** The requests in order, kept if the server offers them; Missing keeps the others. */
  lemma {:induction false} OfferedMeans(requests: seq<Cap>, c: Cap, adv: Advertised)
    ensures Offered([], adv) == [] && Missing([], adv) == []
    ensures Offered([c] + requests, adv) == (if c in adv then [c] else []) + Offered(requests, adv)
    ensures Missing([c] + requests, adv) == (if c in adv then [] else [c]) + Missing(requests, adv)
    ensures c in Offered(requests, adv) <==> c in requests && c in adv
    ensures c in Missing(requests, adv) <==> c in requests && c !in adv
  {
    assert ([c] + requests)[1..] == requests;
    if requests != [] {
      OfferedMeans(requests[1..], c, adv);
      assert requests == [requests[0]] + requests[1..];
    }
  }

  /** The token offers the capability: it is its name, or its name, `=` and a value. */
  predicate Offers(token: Bytes, name: Cap) {
    0x3D !in name && (token == name || name + [0x3D] <= token)
  }

  lemma {:induction false} OffersIff(token: Bytes, name: Cap)
    ensures Offers(token, name) <==> NameOf(token) == name
    ensures Offers(token, name) ==> ValueOf(token) == if token == name then [] else token[|name| + 1..]
  {
    NameAndValue(token);
    if Offers(token, name) && token != name {
      IndexAfter(name, EQUALS, token[|name| + 1..]);
      assert token == name + [EQUALS] + token[|name| + 1..];
    }
  }

  /** After a list of tokens a name is advertised if and only if it was before or some token
      offers it, with the value of the last token that does. */
  lemma {:induction false} AdvertisedIff(m: Advertised, tokens: seq<Bytes>, name: Cap)
    ensures name in Advertise(m, tokens) <==> name in m || exists i :: 0 <= i < |tokens| && Offers(tokens[i], name)
    ensures (forall i :: 0 <= i < |tokens| ==> !Offers(tokens[i], name)) && name in m ==>
              Advertise(m, tokens)[name] == m[name]
    ensures forall i :: 0 <= i < |tokens| && Offers(tokens[i], name)
                        && (forall j :: i < j < |tokens| ==> !Offers(tokens[j], name)) ==>
              name in Advertise(m, tokens)
              && Advertise(m, tokens)[name] == if tokens[i] == name then [] else tokens[i][|name| + 1..]
    decreases |tokens|
  {
    hide Offers;
    hide NameOf;
    hide ValueOf;
    if tokens != [] {
      var t, rest := tokens[0], tokens[1..];
      OffersIff(t, name);
      AdvertisedIff(m[NameOf(t) := ValueOf(t)], rest, name);
      assert forall i :: 0 < i < |tokens| ==> tokens[i] == rest[i - 1];
      assert forall i :: 0 <= i < |rest| ==> rest[i] == tokens[i + 1];
    }
  }

  /** One result for each token whose name was requested, in order. */
  lemma {:induction false} ResultsMean(requests: seq<Cap>, token: Bytes, tokens: seq<Bytes>, ack: bool, name: Cap)
    requires Offers(token, name)
    ensures ResultsFor(requests, [], ack) == []
    ensures ResultsFor(requests, [token] + tokens, ack) ==
            (if name in requests then [Result(name, ack)] else []) + ResultsFor(requests, tokens, ack)
  {
    OffersIff(token, name);
    hide NameOf;
    assert ([token] + tokens)[1..] == tokens;
  }

  /** A multi-line LS reply: all lines but the last are marked as continued. */
  function ListLines(s: State, requests: seq<Cap>, lines: seq<Bytes>): (r: State)
    decreases |lines|
  {
    if lines == [] then s
    else ListLines(ListLine(s, requests, lines[0], |lines| == 1), requests, lines[1..])
  }

  function JoinLines(lines: seq<Bytes>): (r: Bytes) {
    if lines == [] then [] else if |lines| == 1 then lines[0] else lines[0] + [SPACE] + JoinLines(lines[1..])
  }

  /** However the server splits its list into lines, the outcome is that of one line. */
  lemma {:induction false} SplitOfListIrrelevant(s: State, requests: seq<Cap>, lines: seq<Bytes>)
    requires lines != []
    ensures ListLines(s, requests, lines) == ListLine(s, requests, JoinLines(lines), true)
    decreases |lines|
  {
    hide Fields;
    hide Advertise;
    if |lines| > 1 {
      var s1 := ListLine(s, requests, lines[0], false);
      SplitOfListIrrelevant(s1, requests, lines[1..]);
      FieldsJoin(lines[0], JoinLines(lines[1..]));
      AdvertiseConcat(s.advertised, Fields(lines[0]), Fields(JoinLines(lines[1..])));
    } else {
      assert lines[1..] == [];
    }
  }

  // ----- the code -----

  class Negotiation {
    const requests: seq<Cap>
    const capacity: nat
    var registered: bool
    var advertised: Advertised
    var queue: seq<Result>
    var dropped: nat

    constructor (caps: seq<Cap>)
      ensures requests == caps && capacity == |caps|
      ensures !registered && advertised == map[] && queue == [] && dropped == 0
    {
      registered := false;
      requests, capacity := caps, |caps|;
      advertised, queue, dropped := map[], [], 0;
    }

    /** select { case capsChan <- r: default: } */
    method Send(r: Result)
      modifies this`queue, this`dropped
      ensures queue == (if |old(queue)| < capacity then old(queue) + [r] else old(queue))
      ensures dropped == (if |old(queue)| < capacity then old(dropped) else old(dropped) + 1)
    {
      if |queue| < capacity {
        queue := queue + [r];
      } else {
        dropped := dropped + 1;
      }
    }

    /** handleCAPLS: `params` is what follows the subcommand. After registration it does nothing. */
    method HandleLS(params: seq<Bytes>) returns (capsToReq: seq<Cap>, capsNotFound: seq<Cap>)
      requires params != []
      modifies this`advertised
      ensures advertised == if registered then old(advertised) else Advertise(old(advertised), Fields(params[|params| - 1]))
      ensures if |params| == 1 && !registered
              then capsToReq == Offered(requests, advertised) && capsNotFound == Missing(requests, advertised)
              else capsToReq == [] && capsNotFound == []
    {
      hide Fields;
      hide NameOf;
      hide ValueOf;
      capsToReq, capsNotFound := [], [];
      if registered {
        return;
      }
      var final := |params| == 1;
      var tokens := Fields(params[|params| - 1]);
      var i := 0;
      while i < |tokens|
        invariant 0 <= i <= |tokens|
        invariant Advertise(old(advertised), tokens) == Advertise(advertised, tokens[i..])
      {
        assert tokens[i..][1..] == tokens[i + 1..];
        advertised := advertised[NameOf(tokens[i]) := ValueOf(tokens[i])];
        i := i + 1;
      }
      if final {
        i := 0;
        while i < |requests|
          invariant 0 <= i <= |requests|
          invariant Offered(requests, advertised) == capsToReq + Offered(requests[i..], advertised)
          invariant Missing(requests, advertised) == capsNotFound + Missing(requests[i..], advertised)
        {
          var c := requests[i];
          assert requests[i..][1..] == requests[i + 1..];
          if c in advertised {
            capsToReq := capsToReq + [c];
          } else {
            capsNotFound := capsNotFound + [c];
          }
          i := i + 1;
        }
      }
    }

    /** The deferred part of handleCAPLS: one non-blocking negative result per missing capability. */
    method ReportMissing(capsNotFound: seq<Cap>)
      modifies this`queue, this`dropped
      ensures (queue, dropped) == Sent(old(queue), old(dropped), capacity, Refusals(capsNotFound))
    {
      var i := 0;
      while i < |capsNotFound|
        invariant 0 <= i <= |capsNotFound|
        invariant Sent(old(queue), old(dropped), capacity, Refusals(capsNotFound)) ==
                  Sent(queue, dropped, capacity, Refusals(capsNotFound)[i..])
      {
        ghost var rest := Refusals(capsNotFound)[i..];
        assert rest[0] == Result(capsNotFound[i], false) && rest[1..] == Refusals(capsNotFound)[i + 1..];
        Send(Result(capsNotFound[i], false));
        i := i + 1;
      }
    }

    /** handleCAP: `params` are the parameters of a CAP command; the nickname is the first. */
    method HandleCAP(params: seq<Bytes>) returns (capsToReq: seq<Cap>)
      modifies this`advertised, this`queue, this`dropped
      ensures |params| >= 3 && params[1] == Ascii("LS") && !registered ==>
                && advertised == Advertise(old(advertised), Fields(params[|params| - 1]))
                && (|params| == 3 ==>
                      && capsToReq == Offered(requests, advertised)
                      && (queue, dropped) == Sent(old(queue), old(dropped), capacity, Refusals(Missing(requests, advertised))))
                && (|params| > 3 ==> capsToReq == [] && queue == old(queue) && dropped == old(dropped))
      ensures |params| >= 3 && (params[1] == Ascii("ACK") || params[1] == Ascii("NAK")) ==>
                && (queue, dropped) ==
                   Sent(old(queue), old(dropped), capacity, ResultsFor(requests, Fields(params[2]), params[1] == Ascii("ACK")))
                && advertised == old(advertised) && capsToReq == []
      ensures |params| < 3 || (params[1] != Ascii("LS") && params[1] != Ascii("ACK") && params[1] != Ascii("NAK"))
              || (params[1] == Ascii("LS") && registered) ==>
                capsToReq == [] && queue == old(queue) && dropped == old(dropped) && advertised == old(advertised)
    {
      hide Fields;
      hide Sent;
      hide Offered;
      hide Missing;
      hide Advertise;
      hide ResultsFor;
      capsToReq := [];
      NothingToSend(queue, dropped, capacity);
      if |params| < 3 {
        return;
      }
      if params[1] == Ascii("LS") {
        assert params[1] != Ascii("ACK") && params[1] != Ascii("NAK") by { assert |params[1]| == 2; }
        var rest := params[2..];
        assert rest[|rest| - 1] == params[|params| - 1];
        var capsNotFound;
        capsToReq, capsNotFound := HandleLS(rest);
        ReportMissing(capsNotFound);
      } else if params[1] == Ascii("ACK") {
        assert params[1][0] == 65;
        HandleAnswer(params[2], true);
      } else if params[1] == Ascii("NAK") {
        HandleAnswer(params[2], false);
      }
    }

    /** handleCAP on an ACK or NAK: one non-blocking send per requested token. */
    method HandleAnswer(text: Bytes, ack: bool)
      modifies this`queue, this`dropped
      ensures (queue, dropped) == Sent(old(queue), old(dropped), capacity, ResultsFor(requests, Fields(text), ack))
    {
      hide Fields;
      hide NameOf;
      var tokens := Fields(text);
      var i := 0;
      while i < |tokens|
        invariant 0 <= i <= |tokens|
        invariant Sent(old(queue), old(dropped), capacity, ResultsFor(requests, tokens, ack)) ==
                  Sent(queue, dropped, capacity, ResultsFor(requests, tokens[i..], ack))
      {
        var name := NameOf(tokens[i]);
        ghost var rest := ResultsFor(requests, tokens[i + 1..], ack);
        assert tokens[i..][1..] == tokens[i + 1..];
        assert [] + rest == rest && ([Result(name, ack)] + rest)[1..] == rest;
        if name in requests {
          Send(Result(name, ack));
        }
        i := i + 1;
      }
    }
  }

  /** The capabilities by name. */
  lemma {:induction false} CapNames()
    ensures CAP_BATCH == Ascii("batch") && CAP_TAGS == Ascii("message-tags")
    ensures CAP_LABELED == Ascii("labeled-response")
    ensures CAP_MULTILINE == Ascii("multiline") && CAP_DRAFT_MULTILINE == Ascii("draft/multiline")
  {
  }

  lemma {:induction false} NothingToSend(queue: seq<Result>, dropped: nat, capacity: nat)
    ensures Refusals([]) == [] && Sent(queue, dropped, capacity, []) == (queue, dropped)
  {
  }

  function Refusals(caps: seq<Cap>): (r: seq<Result>)
    ensures |r| == |caps|
    ensures forall i :: 0 <= i < |caps| ==> r[i] == Result(caps[i], false)
  {
    seq(|caps|, i requires 0 <= i < |caps| => Result(caps[i], false))
  }

  function ResultsFor(requests: seq<Cap>, tokens: seq<Bytes>, ack: bool): (r: seq<Result>) {
    if tokens == [] then []
    else
      (if NameOf(tokens[0]) in requests then [Result(NameOf(tokens[0]), ack)] else [])
      + ResultsFor(requests, tokens[1..], ack)
  }

  function Sent(queue: seq<Result>, dropped: nat, capacity: nat, rs: seq<Result>): (r: (seq<Result>, nat))
    decreases |rs|
  {
    if rs == [] then (queue, dropped)
    else if |queue| < capacity then Sent(queue + [rs[0]], dropped, capacity, rs[1..])
    else Sent(queue, dropped + 1, capacity, rs[1..])
  }

  // ----- the handlers take the steps of the negotiation -----

  function SendAllMissing(s: State, requests: seq<Cap>): (r: State)
    decreases |s.notFound|
  {
    if s.notFound == [] then s else SendAllMissing(Apply(s, requests, SendMissing), requests)
  }

  /** ReportMissing is the run of SendMissing steps after the final LS line. */
  lemma {:induction false} ReportIsSteps(s: State, requests: seq<Cap>)
    ensures var r := SendAllMissing(s, requests);
            && r == s.(notFound := [], queue := r.queue, dropped := r.dropped)
            && (r.queue, r.dropped) == Sent(s.queue, s.dropped, |requests|, Refusals(s.notFound))
    decreases |s.notFound|
  {
    if s.notFound != [] {
      var rs := Refusals(s.notFound);
      assert rs[1..] == Refusals(s.notFound[1..]);
      ReportIsSteps(Apply(s, requests, SendMissing), requests);
    }
  }

  /** The Answer steps for the tokens of one ACK or NAK line; None if the server answers what
      it was not asked. */
  function AnswerAll(s: State, requests: seq<Cap>, tokens: seq<Bytes>, ack: bool): (r: Option<State>)
    decreases |tokens|
  {
    if tokens == [] then Some(s)
    else
      var a := Answer(NameOf(tokens[0]), ack);
      if Enabled(s, requests, a) then AnswerAll(Apply(s, requests, a), requests, tokens[1..], ack) else None
  }

  lemma {:induction false} NothingSent(s: State, requests: seq<Cap>)
    ensures Sent(s.queue, s.dropped, |requests|, []) == (s.queue, s.dropped)
  {
  }

  lemma {:induction false} SendIsStep(s: State, requests: seq<Cap>, a: Action, rest: seq<Result>)
    requires a.Answer? && Enabled(s, requests, a)
    ensures var r := Apply(s, requests, a);
            && Sent(s.queue, s.dropped, |requests|, [Result(a.cap, a.ack)] + rest) == Sent(r.queue, r.dropped, |requests|, rest)
            && r.outstanding <= s.outstanding
  {
    assert ([Result(a.cap, a.ack)] + rest)[1..] == rest;
  }

  /** HandleAnswer is the run of Answer steps for its tokens. */
  lemma {:induction false} AnswerIsSteps(s: State, requests: seq<Cap>, tokens: seq<Bytes>, ack: bool)
    requires AnswerAll(s, requests, tokens, ack).Some?
    requires forall c :: c in s.outstanding ==> c in requests
    ensures var r := AnswerAll(s, requests, tokens, ack).value;
            (r.queue, r.dropped) == Sent(s.queue, s.dropped, |requests|, ResultsFor(requests, tokens, ack))
    decreases |tokens|
  {
    hide NameOf;
    hide Sent;
    hide Apply;
    if tokens == [] {
      NothingSent(s, requests);
    } else {
      var a := Answer(NameOf(tokens[0]), ack);
      SendIsStep(s, requests, a, ResultsFor(requests, tokens[1..], ack));
      AnswerIsSteps(Apply(s, requests, a), requests, tokens[1..], ack);
    }
  }

  // ----- what was acknowledged -----

  const CAP_BATCH: Cap := [0x62, 0x61, 0x74, 0x63, 0x68]
  const CAP_LABELED: Cap :=
    [0x6C, 0x61, 0x62, 0x65, 0x6C, 0x65, 0x64, 0x2D, 0x72, 0x65, 0x73, 0x70, 0x6F, 0x6E, 0x73, 0x65]
  const CAP_TAGS: Cap := [0x6D, 0x65, 0x73, 0x73, 0x61, 0x67, 0x65, 0x2D, 0x74, 0x61, 0x67, 0x73]
  const CAP_MULTILINE: Cap := [0x6D, 0x75, 0x6C, 0x74, 0x69, 0x6C, 0x69, 0x6E, 0x65]
  const CAP_DRAFT_MULTILINE: Cap := [0x64, 0x72, 0x61, 0x66, 0x74, 0x2F] + CAP_MULTILINE

  /** capFlags. */
  datatype Flags = Flags(batch: bool, messageTags: bool, labeledResponse: bool, multiline: bool)

  /** processAckedCaps: the acknowledged capabilities with their advertised values, and the
      features they enable; labels and multiline need the batch capability as well. */
  method ProcessAckedCaps(acks: seq<Cap>, advertised: Advertised) returns (capsAcked: map<Cap, Bytes>, flags: Flags)
    ensures capsAcked.Keys == set c | c in acks
    ensures forall c :: c in acks ==> capsAcked[c] == if c in advertised then advertised[c] else []
    ensures flags.batch <==> CAP_BATCH in acks
    ensures flags.messageTags <==> CAP_TAGS in acks
    ensures flags.labeledResponse <==> CAP_BATCH in acks && CAP_LABELED in acks
    ensures flags.multiline <==>
              CAP_TAGS in acks && CAP_BATCH in acks && (CAP_MULTILINE in acks || CAP_DRAFT_MULTILINE in acks)
  {
    capsAcked := map[];
    var hasBatch, hasLabel, hasTags, hasMultiline := false, false, false, false;
    var i := 0;
    while i < |acks|
      invariant 0 <= i <= |acks|
      invariant capsAcked.Keys == set c | c in acks[..i]
      invariant forall c :: c in acks[..i] ==> capsAcked[c] == if c in advertised then advertised[c] else []
      invariant hasBatch <==> CAP_BATCH in acks[..i]
      invariant hasLabel <==> CAP_LABELED in acks[..i]
      invariant hasTags <==> CAP_TAGS in acks[..i]
      invariant hasMultiline <==> CAP_MULTILINE in acks[..i] || CAP_DRAFT_MULTILINE in acks[..i]
    {
      var c := acks[i];
      assert acks[..i + 1] == acks[..i] + [c];
      capsAcked := capsAcked[c := if c in advertised then advertised[c] else []];
      if c == CAP_BATCH {
        hasBatch := true;
      } else if c == CAP_LABELED {
        hasLabel := true;
      } else if c == CAP_TAGS {
        hasTags := true;
      } else if c == CAP_DRAFT_MULTILINE || c == CAP_MULTILINE {
        hasMultiline := true;
      }
      i := i + 1;
    }
    assert acks[..i] == acks;
    flags := Flags(hasBatch, hasTags, hasBatch && hasLabel, hasTags && hasBatch && hasMultiline);
  }
}
