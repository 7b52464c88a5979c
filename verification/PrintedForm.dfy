/** What a printed line looks like, byte for byte, and when printing is refused
    (ircmsg/message.go). */
module PrintedForm {
  import opened ByteStrings
  import opened Messages
  import opened Grammar
  import opened RoundTrip
  import Tags
  import Utf8

  // ----- tags -----

  function Texts(ps: seq<Pair>): (r: seq<Bytes>)
    ensures |r| == |ps|
    ensures forall i :: 0 <= i < |ps| ==> r[i] == TagText(ps[i])
  {
    seq(|ps|, i requires 0 <= i < |ps| => TagText(ps[i]))
  }

  lemma {:induction false} JoinedFrontAndRest(p: Bytes, ps: seq<Bytes>)
    ensures Joined([p] + ps) == p + if ps == [] then [] else [0x3B] + Joined(ps)
  {
    assert ([p] + ps)[1..] == ps;
  }

  /** The tag section: `@`, the tags with semicolons between them, a space; a tag is its name,
      and unless its value is empty `=` and the escaped value. */
  lemma {:induction false} SectionMeans(ps: seq<Pair>)
    ensures JoinTags(ps) == Joined(Texts(ps))
    ensures forall i :: 0 <= i < |ps| ==>
              TagText(ps[i]) == if ps[i].1 == [] then ps[i].0 else ps[i].0 + Ascii("=") + Tags.Escape(ps[i].1)
    ensures TagSection(ps) == if ps == [] then [] else Ascii("@") + Joined(Texts(ps)) + Ascii(" ")
  {
    JoinIsJoined(ps);
    hide Tags.Escape;
    assert Ascii("=") == [EQUALS] && Ascii("@") == [AT] && Ascii(" ") == [SPACE];
  }

  lemma {:induction false} JoinIsJoined(ps: seq<Pair>)
    ensures JoinTags(ps) == Joined(Texts(ps))
  {
    hide TagText;
    if ps != [] {
      var p, rest := ps[0], ps[1..];
      JoinIsJoined(rest);
      JoinCons(p, rest);
      assert ps == [p] + rest;
      JoinedFrontAndRest(TagText(p), Texts(rest));
      assert Texts(ps) == [TagText(p)] + Texts(rest);
    }
  }

  /** What is charged to the client-only budget is the length of the client-only tags; without
      any it is 0, or -1 behind other tags. */
  lemma {:induction false} ClientLength(reg: seq<Pair>, client: seq<Pair>)
    requires ValidPairs(reg + client)
    ensures ClientTagLen(reg, client) ==
            if client != [] then |JoinTags(client)| else if reg == [] then 0 else -1
  {
    ValidPairsConcat(reg, client);
    JoinShape(reg);
    JoinAppended(reg, client);
    if client == [] {
      assert reg + client == reg;
    }
  }

  lemma {:induction false} JoinAppended(a: seq<Pair>, b: seq<Pair>)
    ensures a != [] && b != [] ==> JoinTags(a + b) == JoinTags(a) + [SEMICOLON] + JoinTags(b)
    ensures a == [] ==> JoinTags(a + b) == JoinTags(b)
  {
    hide TagText;
    hide JoinTags;
    if a == [] {
      assert a + b == b;
    } else if b != [] {
      var n := |b| - 1;
      var front, p := b[..n], b[n];
      JoinAppended(a, front);
      JoinMore(a + front, p);
      JoinMore(front, p);
      assert b == front + [p];
      assert a + b == (a + front) + [p];
      if front == [] {
        assert a + front == a;
      } else {
        assert JoinTags(a) + [SEMICOLON] + JoinTags(front) + [SEMICOLON] + TagText(p)
            == JoinTags(a) + [SEMICOLON] + (JoinTags(front) + [SEMICOLON] + TagText(p));
      }
    }
  }

  // ----- parameters -----

  function Spaced(params: seq<Bytes>): (r: Bytes) {
    if params == [] then [] else [0x20] + params[0] + Spaced(params[1..])
  }

  /** The parameters: each behind a space, the last one behind a colon if that is forced or it
      is not a plain word; any other that is no plain word is refused. */
  lemma {:induction false} ParamsMean(init: seq<Bytes>, last: Bytes, force: bool)
    ensures ParamText([], force) == Some([])
    ensures ParamText(init + [last], force).Some? <==> forall i :: 0 <= i < |init| ==> Middle(init[i])
    ensures ParamText(init + [last], force).Some? ==>
              ParamText(init + [last], force).value ==
              Spaced(init) + [0x20] + (if force || !Middle(last) then [0x3A] else []) + last
    decreases |init|
  {
    var all := init + [last];
    if init == [] {
      assert all == [last];
    } else {
      ParamsMean(init[1..], last, force);
      assert all[0] == init[0] && all[1..] == init[1..] + [last];
      assert (forall i :: 0 <= i < |init| ==> Middle(init[i])) <==>
             Middle(init[0]) && forall i :: 0 <= i < |init[1..]| ==> Middle(init[1..][i]) by {
        assert forall i :: 0 < i < |init| ==> init[i] == init[1..][i - 1];
      }
    }
  }

  // ----- refusals -----

  /** When and why a print without limits is refused: the first of these that applies. */
  lemma {:induction false} RefusedIff(m: Msg, reg: seq<Pair>, client: seq<Pair>)
    ensures var r := Print(m, reg, client, NO_LIMITS);
            var tagsBad := exists i :: 0 <= i < |reg + client| &&
                             !(Tags.ValidTagName((reg + client)[i].0) && Utf8.Valid((reg + client)[i].1));
            && (r == Refused(CommandMissing) <==> m.command == [])
            && (r == Refused(InvalidTagContent) <==> m.command != [] && tagsBad)
            && (r == Refused(BadParam) <==> m.command != [] && !tagsBad && ParamText(m.params, m.forceTrailing).None?)
            && (r == Refused(BadChar) <==>
                  && m.command != [] && !tagsBad && ParamText(m.params, m.forceTrailing).Some?
                  && var text := TagSection(reg + client) + Body(m); (0x00 in text || 0x0D in text || 0x0A in text))
            && r != Crash && r != Refused(TagsTooLong)
  {
    hide ParamText;
    hide Tags.ValidTagName;
    hide Utf8.Valid;
    hide TagSection;
    var ps := reg + client;
    assert ValidPairs(ps) <==> forall i :: 0 <= i < |ps| ==> ValidPair(ps[i]);
    hide JoinTags;
  }

  /** The strict limits: from a client 4096 bytes of tag section; from a server 4094 bytes of
      either kind of tags. */
  lemma {:induction false} StrictRefusal(m: Msg, reg: seq<Pair>, client: seq<Pair>, fromClient: bool, truncateLen: int)
    requires m.command != [] && ValidPairs(reg + client)
    ensures Print(m, reg, client, StrictLimits(fromClient, truncateLen)) == Refused(TagsTooLong) <==>
              if fromClient then |TagSection(reg + client)| > 4096
              else |JoinTags(reg)| > 4094 || (client != [] && |JoinTags(client)| > 4094)
  {
    ClientLength(reg, client);
    hide ParamText;
    hide JoinTags;
    hide ValidPairs;
    hide Finish;
    FinishNeverTags(TagSection(reg + client), m, truncateLen);
  }

  lemma {:induction false} FinishNeverTags(section: Bytes, m: Msg, truncateLen: int)
    ensures ParamText(m.params, m.forceTrailing).Some? ==>
              Finish(section, Body(m), truncateLen) != Refused(TagsTooLong)
  {
    hide ParamText;
    hide Utf8.DropBroken;
  }

  /** The strict parser takes up to 4094 bytes of tag data from a client and 8189 from a server. */
  lemma {:induction false} StrictTagLimit(data: Bytes, body: Bytes, fromClient: bool)
    requires 0x20 !in data && data != []
    requires var line := [0x40] + data + [0x20] + body; 0x00 !in line && 0x0A !in line && 0x0D !in line
    ensures Parse([0x40] + data + [0x20] + body, StrictTagData(fromClient), 0) == Failure(TagsTooLong) <==>
              |data| > if fromClient then 4094 else 8189
  {
    var front := [AT] + data;
    var line := [0x40] + data + [0x20] + body;
    assert line == front + [SPACE] + body && SPACE !in front;
    IndexAfter(front, SPACE, body);
    assert TrimEol(line) == line by {
      assert line[|line| - 1] in line;
    }
    hide ParsedTags;
    NotOversized(line);
  }

  lemma {:induction false} NotOversized(line: Bytes)
    requires line != []
    ensures ParsedTagged(line, 0, 0) != Failure(TagsTooLong)
  {
    hide ParsedTags;
  }
}
