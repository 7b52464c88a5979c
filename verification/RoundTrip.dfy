/** The printer and the parser undo each other (ircmsg/message.go). */
module RoundTrip {
  import opened ByteStrings
  import opened Messages
  import Utf8
  import Tags

  // ----- tag sections -----

  lemma {:induction false} JoinCons(p: Pair, ps: seq<Pair>)
    ensures JoinTags([p] + ps) == TagText(p) + if ps == [] then [] else [SEMICOLON] + JoinTags(ps)
  {
    hide TagText;
    if ps == [] {
      assert [p] + ps == [p];
    } else {
      var n := |ps| - 1;
      JoinCons(p, ps[..n]);
      assert ([p] + ps)[..n + 1] == [p] + ps[..n];
      assert ([p] + ps)[n + 1] == ps[n];
    }
  }

  lemma {:induction false} TagTextShape(p: Pair)
    requires ValidPair(p)
    ensures TagText(p) != [] && SEMICOLON !in TagText(p) && SPACE !in TagText(p)
    ensures NameOf(TagText(p)) == p.0 && ValueOf(TagText(p)) == Tags.Escape(p.1)
  {
    hide Tags.Escape;
    hide Tags.ValidTagName;
    hide Utf8.Valid;
    var text := TagText(p);
    Tags.EscapeEmpty(p.1);
    Tags.NameIsSafe(p.0);
    Tags.EscapeIsSafe(p.1);
    if p.1 != [] {
      IndexAfter(p.0, EQUALS, Tags.Escape(p.1));
      assert text == p.0 + [EQUALS] + Tags.Escape(p.1);
    }
  }

  /** Reading back one printed tag. */
  lemma {:induction false} AddPrintedPair(m: Msg, p: Pair)
    requires ValidPair(p)
    ensures AddPair(m, TagText(p)) == Some(WithTag(m, p.0, p.1))
  {
    TagTextShape(p);
    Tags.EscapeKeepsUtf8(p.1);
    Tags.UnescapeEscape(p.1);
  }

  lemma {:induction false} JoinShape(ps: seq<Pair>)
    requires ValidPairs(ps)
    ensures SPACE !in JoinTags(ps)
    ensures JoinTags(ps) == [] <==> ps == []
  {
    if ps != [] {
      var n := |ps| - 1;
      JoinShape(ps[..n]);
      TagTextShape(ps[n]);
    }
  }

  /** The tags set one after the other. */
  function SetAll(m: Msg, ps: seq<Pair>): (r: Msg)
    ensures r.source == m.source && r.command == m.command && r.params == m.params && r.forceTrailing == m.forceTrailing
  {
    if ps == [] then m
    else var n := |ps| - 1; WithTag(SetAll(m, ps[..n]), ps[n].0, ps[n].1)
  }

  lemma {:induction false} SetAllConcat(m: Msg, a: seq<Pair>, b: seq<Pair>)
    ensures SetAll(m, a + b) == SetAll(SetAll(m, a), b)
  {
    if b == [] {
      assert a + b == a;
    } else {
      var n := |b| - 1;
      assert (a + b)[..|a| + n] == a + b[..n];
      SetAllConcat(m, a, b[..n]);
    }
  }

  lemma {:induction false} CutAtSemicolon(pre: Bytes, rest: Bytes)
    requires SEMICOLON !in pre && pre != []
    ensures FirstPair(pre) == pre && AfterPair(pre) == []
    ensures FirstPair(pre + [SEMICOLON] + rest) == pre && AfterPair(pre + [SEMICOLON] + rest) == rest
  {
    IndexAfter(pre, SEMICOLON, rest);
  }

  lemma {:induction false} JoinedFront(ps: seq<Pair>)
    requires ValidPairs(ps) && ps != []
    ensures JoinTags(ps) != []
    ensures FirstPair(JoinTags(ps)) == TagText(ps[0]) && AfterPair(JoinTags(ps)) == JoinTags(ps[1..])
  {
    var p, rest := ps[0], ps[1..];
    var a, b := TagText(p), JoinTags(rest);
    assert JoinTags(ps) == if rest == [] then a else a + [SEMICOLON] + b by {
      JoinCons(p, rest);
      assert ps == [p] + rest;
    }
    assert SEMICOLON !in a && a != [] by {
      assert ValidPair(p);
      TagTextShape(p);
    }
    CutAtSemicolon(a, b);
  }

  lemma {:induction false} ParseJoined(m: Msg, ps: seq<Pair>)
    requires ValidPairs(ps)
    ensures ParsedTags(m, JoinTags(ps)) == Some(SetAll(m, ps))
    decreases |ps|
  {
    if ps != [] {
      var p, rest := ps[0], ps[1..];
      JoinedFront(ps);
      AddPrintedPair(m, p);
      var m1 := WithTag(m, p.0, p.1);
      ParseJoined(m1, rest);
      SetAllConcat(m, [p], rest);
      assert ps == [p] + rest && [p][..0] == [];
    }
  }

  /** Setting every entry of a map, in any order, adds exactly that map. */
  lemma {:induction false} SetRegular(m: Msg, ps: seq<Pair>, t: TagMap)
    requires Enumerates(ps, t)
    requires forall k :: k in t ==> k != [] && !IsClientOnly(k)
    ensures SetAll(m, ps) == m.(tags := m.tags + t)
  {
    if ps == [] {
      assert m.tags + t == m.tags;
    } else {
      var n := |ps| - 1;
      var k := ps[n].0;
      SetRegular(m, ps[..n], t - {k});
      assert (m.tags + (t - {k}))[k := t[k]] == m.tags + t;
    }
  }

  lemma {:induction false} SetClientOnly(m: Msg, ps: seq<Pair>, t: TagMap)
    requires Enumerates(ps, t)
    requires forall k :: k in t ==> IsClientOnly(k)
    ensures SetAll(m, ps) == m.(clientTags := m.clientTags + t)
  {
    if ps == [] {
      assert m.clientTags + t == m.clientTags;
    } else {
      var n := |ps| - 1;
      var k := ps[n].0;
      SetClientOnly(m, ps[..n], t - {k});
      assert (m.clientTags + (t - {k}))[k := t[k]] == m.clientTags + t;
    }
  }

  /** Whatever the enumeration order, the printed tags read back as the same two maps. */
  lemma {:induction false} TagsRoundTrip(m: Msg, reg: seq<Pair>, client: seq<Pair>)
    requires WellTagged(m) && Enumerates(reg, m.tags) && Enumerates(client, m.clientTags)
    requires ValidPairs(reg + client)
    ensures ParsedTags(EMPTY, JoinTags(reg + client)) == Some(EMPTY.(tags := m.tags, clientTags := m.clientTags))
  {
    hide JoinTags;
    hide ParsedTags;
    hide Enumerates;
    ParseJoined(EMPTY, reg + client);
    SetAllConcat(EMPTY, reg, client);
    SetRegular(EMPTY, reg, m.tags);
    var e: TagMap := map[];
    assert e + m.tags == m.tags && e + m.clientTags == m.clientTags;
    SetClientOnly(EMPTY.(tags := m.tags), client, m.clientTags);
  }

  // ----- parameters -----

  lemma {:induction false} SkipSpace(l: Bytes)
    ensures TrimSpaces([SPACE] + l) == TrimSpaces(l)
    ensures ParsedParams([SPACE] + l) == ParsedParams(l)
  {
    assert ([SPACE] + l)[1..] == l;
  }

  lemma {:induction false} NoParams()
    ensures ParsedParams([]) == []
  {
  }

  lemma {:induction false} ParsedLast(p: Bytes, colon: bool)
    requires colon || !RequiresTrailing(p)
    ensures ParsedParams((if colon then [COLON] else []) + p) == [p]
  {
    var l := (if colon then [COLON] else []) + p;
    if colon {
      assert l[0] == COLON && l[1..] == p;
    } else {
      assert l == p;
    }
  }

  lemma {:induction false} ParsedMiddle(p: Bytes, rest: Bytes)
    requires !RequiresTrailing(p)
    ensures ParsedParams(p + [SPACE] + rest) == [p] + ParsedParams(rest)
  {
    var l := p + [SPACE] + rest;
    IndexAfter(p, SPACE, rest);
    assert l[0] == p[0] && l[..|p|] == p && l[|p| + 1..] == rest;
  }

  lemma {:induction false} ParamsRoundTrip(params: seq<Bytes>, force: bool)
    requires ParamText(params, force).Some?
    ensures ParsedParams(ParamText(params, force).value) == params
    ensures ParamText(params, force).value == [] || ParamText(params, force).value[0] == SPACE
  {
    hide ParsedParams;
    if params == [] {
      NoParams();
    } else {
      var p := params[0];
      if |params| == 1 {
        var colon := force || RequiresTrailing(p);
        var l := (if colon then [COLON] else []) + p;
        assert ParamText(params, force).value == [SPACE] + l;
        SkipSpace(l);
        ParsedLast(p, colon);
      } else {
        ParamsRoundTrip(params[1..], force);
        var rest := ParamText(params[1..], force).value;
        var tail := rest[1..];
        assert rest == [SPACE] + tail;
        assert ParamText(params, force).value == [SPACE] + (p + [SPACE] + tail);
        SkipSpace(p + [SPACE] + tail);
        ParsedMiddle(p, tail);
        SkipSpace(tail);
      }
    }
  }

  // ----- the body -----

  /** A message whose source and command survive a trip through a line. */
  predicate Readable(m: Msg) {
    && SPACE !in m.source
    && m.command != []
    && SPACE !in m.command
    && IsAscii(m.command)
    && NoLowerCase(m.command)
    && (m.source == [] ==> m.command[0] != COLON)
  }

  function Body(m: Msg): (r: Bytes)
    requires ParamText(m.params, m.forceTrailing).Some?
  {
    Head(m) + ParamText(m.params, m.forceTrailing).value
  }

  lemma {:induction false} CommandRoundTrip(m0: Msg, m: Msg, text: Bytes)
    requires Readable(m) && ParamText(m.params, m.forceTrailing).Some?
    requires text == m.command + ParamText(m.params, m.forceTrailing).value
    ensures ParsedCommand(m0, text) == Success(m0.(command := m.command, params := m.params), false)
  {
    UpperFixed(m.command);
    hide ToUpper;
    hide NoLowerCase;
    hide ParamText;
    hide ParsedParams;
    var ps := ParamText(m.params, m.forceTrailing).value;
    ParamsRoundTrip(m.params, m.forceTrailing);
    assert text[0] == m.command[0];
    if ps == [] {
      assert text == m.command;
    } else {
      assert ps == [SPACE] + ps[1..];
      assert text == m.command + [SPACE] + ps[1..];
      IndexAfter(m.command, SPACE, ps[1..]);
      assert text[..|m.command|] == m.command && text[|m.command| + 1..] == ps[1..];
      SkipSpace(ps[1..]);
    }
  }

  lemma {:induction false} ParsedWithSource(m0: Msg, source: Bytes, rest: Bytes)
    requires SPACE !in source
    ensures ParsedBody(m0, [COLON] + source + [SPACE] + rest) == ParsedCommand(m0.(source := source), rest)
  {
    hide ParsedCommand;
    var src := [COLON] + source;
    var body := src + [SPACE] + rest;
    IndexAfter(src, SPACE, rest);
    assert body[0] == COLON && body[1..|src|] == source && body[|src| + 1..] == rest;
  }

  lemma {:induction false} BodyRoundTrip(m0: Msg, m: Msg)
    requires Readable(m) && ParamText(m.params, m.forceTrailing).Some?
    requires m0.source == []
    ensures ParsedBody(m0, Body(m)) == Success(m0.(source := m.source, command := m.command, params := m.params), false)
  {
    hide ParsedCommand;
    hide ParamText;
    var rest := m.command + ParamText(m.params, m.forceTrailing).value;
    if m.source == [] {
      assert Body(m) == rest && rest[0] == m.command[0] != SPACE;
      CommandRoundTrip(m0, m, rest);
      assert m0.(source := m.source) == m0;
    } else {
      assert Body(m) == [COLON] + m.source + [SPACE] + rest;
      ParsedWithSource(m0, m.source, rest);
      CommandRoundTrip(m0.(source := m.source), m, rest);
    }
  }

  // ----- the parser invents no bytes -----

  function Weight(params: seq<Bytes>): (w: nat) {
    if params == [] then 0 else 1 + |params[0]| + Weight(params[1..])
  }

  lemma {:induction false} ParsedWeight(line: Bytes)
    ensures Weight(ParsedParams(line)) <= |line| + 1
    decreases |line|
  {
    var l := TrimSpaces(line);
    if l != [] && l[0] != COLON {
      var end := IndexByte(l, SPACE);
      if end != -1 {
        ParsedWeight(l[end + 1..]);
        assert ParsedParams(line)[1..] == ParsedParams(l[end + 1..]);
      }
    }
  }

  lemma {:induction false} PrintedWeight(params: seq<Bytes>, force: bool)
    requires ParamText(params, force).Some?
    ensures |ParamText(params, force).value| <= Weight(params) + 1
  {
    if |params| > 1 {
      PrintedWeight(params[1..], force);
    }
  }

  /** What every successfully parsed body looks like, and how much of the text it can account for. */
  lemma {:induction false} ParsedCommandShape(m0: Msg, line: Bytes)
    requires ParsedCommand(m0, line).Success?
    ensures var m := ParsedCommand(m0, line).msg;
            && m.source == m0.source && m.tags == m0.tags && m.clientTags == m0.clientTags
            && m.forceTrailing == m0.forceTrailing
            && m.command != [] && SPACE !in m.command && IsAscii(m.command) && NoLowerCase(m.command)
            && |m.command| + Weight(m.params) <= |line|
  {
    var l := TrimSpaces(line);
    var end := IndexByte(l, SPACE);
    var command := if end == -1 then l else l[..end];
    var up := ToUpper(command);
    forall i | 0 <= i < |up| ensures up[i] != SPACE && up[i] <= 127 && UpperByte(up[i]) == up[i] {
      assert command[i] != SPACE;
    }
    if end != -1 {
      ParsedWeight(l[end + 1..]);
    }
  }

  lemma {:induction false} ParsedBodyShape(m0: Msg, body: Bytes)
    requires ParsedBody(m0, body).Success? && m0.source == []
    ensures var m := ParsedBody(m0, body).msg;
            && m.tags == m0.tags && m.clientTags == m0.clientTags && m.forceTrailing == m0.forceTrailing
            && SPACE !in m.source
            && m.command != [] && SPACE !in m.command && IsAscii(m.command) && NoLowerCase(m.command)
            && |m.command| + Weight(m.params) <= |body|
            && (body != [] && body[0] == COLON ==> |m.command| + Weight(m.params) + 2 <= |body|)
  {
    hide ParsedCommand;
    hide Weight;
    hide IsAscii;
    hide NoLowerCase;
    var l := TrimSpaces(body);
    TrimAtMost(body);
    hide TrimSpaces;
    hide IndexByte;
    if l != [] && l[0] == COLON {
      var end := IndexByte(l, SPACE);
      var rest := l[end + 1..];
      assert SPACE !in l[1..end] by {
        assert forall i :: 1 <= i < end ==> l[..end][i] == l[i];
      }
      ParsedCommandShape(m0.(source := l[1..end]), rest);
    } else {
      ParsedCommandShape(m0, l);
    }
  }

  lemma {:induction false} TrimAtMost(s: Bytes)
    ensures s == [] || s[0] != SPACE ==> TrimSpaces(s) == s
  {
  }

  /** The converse for bodies: only readable messages come back unchanged. */
  lemma {:induction false} BodyReadBack(m0: Msg, m: Msg)
    requires ParamText(m.params, m.forceTrailing).Some? && m.command != [] && m0.source == []
    requires ParsedBody(m0, Body(m)) == Success(m0.(source := m.source, command := m.command, params := m.params), false)
    ensures Readable(m)
  {
    ParsedBodyShape(m0, Body(m));
    PrintedWeight(m.params, m.forceTrailing);
  }

  // ----- whole lines -----

  /** Exactly the messages that survive printing and parsing. */
  predicate Canonical(m: Msg) {
    && Readable(m)
    && (m.source == [] && m.tags == map[] && m.clientTags == map[] ==> m.command[0] != AT)
  }

  lemma {:induction false} TrimSealed(text: Bytes)
    ensures TrimEol(text + [CR, LF]) == text
  {
    assert (text + [CR, LF])[..|text| + 1] == text + [CR];
    assert (text + [CR])[..|text|] == text;
  }

  lemma {:induction false} EmptyEnumeration(ps: seq<Pair>, t: TagMap)
    requires Enumerates(ps, t)
    ensures ps == [] <==> t == map[]
  {
  }

  /** The parser separates a printed tag section from whatever body follows it. */
  lemma {:induction false} ParseSection(m: Msg, reg: seq<Pair>, client: seq<Pair>, body: Bytes, maxTagData: int, truncateLen: int)
    requires WellTagged(m) && Enumerates(reg, m.tags) && Enumerates(client, m.clientTags)
    requires ValidPairs(reg + client) && reg + client != []
    ensures ParsedTagged(TagSection(reg + client) + body, maxTagData, truncateLen) ==
            if 0 < maxTagData < |JoinTags(reg + client)| then Failure(TagsTooLong)
            else ParsedCut(EMPTY.(tags := m.tags, clientTags := m.clientTags), body, truncateLen)
  {
    hide ParsedCut;
    hide JoinTags;
    hide ParsedTags;
    hide Enumerates;
    hide ValidPairs;
    var ps := reg + client;
    var data := [AT] + JoinTags(ps);
    JoinShape(ps);
    IndexAfter(data, SPACE, body);
    var line := TagSection(ps) + body;
    assert line == data + [SPACE] + body;
    assert line[1..|data|] == JoinTags(ps) && line[|data| + 1..] == body;
    TagsRoundTrip(m, reg, client);
  }

  /** How the parser sees a printed line. */
  lemma {:induction false} ParsePrinted(m: Msg, reg: seq<Pair>, client: seq<Pair>)
    requires WellTagged(m) && Enumerates(reg, m.tags) && Enumerates(client, m.clientTags)
    requires Print(m, reg, client, NO_LIMITS).Line?
    ensures var text := Print(m, reg, client, NO_LIMITS).bytes;
            var body := Body(m);
            && body != []
            && Parse(text, 0, 0) ==
               if reg + client != [] then ParsedBody(EMPTY.(tags := m.tags, clientTags := m.clientTags), body)
               else if body[0] != AT then ParsedBody(EMPTY, body)
               else ParsedTagged(body, 0, 0)
  {
    hide JoinTags;
    hide ParsedTagged;
    hide ParsedBody;
    hide ParamText;
    hide ValidPairs;
    var section, body := TagSection(reg + client), Body(m);
    var line := section + body;
    assert Print(m, reg, client, NO_LIMITS) == Seal(line, false);
    TrimSealed(line);
    if reg + client != [] {
      ParseSection(m, reg, client, body, 0, 0);
      assert line[0] == AT;
    } else {
      assert line == body;
    }
  }

  /** Encode then decode: for every message the printer accepts and every enumeration
      order of its tags, the line reads back as the same message if and only if the
      message is canonical. */
  lemma {:induction false} PrintThenParse(m: Msg, reg: seq<Pair>, client: seq<Pair>)
    requires WellTagged(m) && Enumerates(reg, m.tags) && Enumerates(client, m.clientTags)
    requires Print(m, reg, client, NO_LIMITS).Line?
    ensures Parse(Print(m, reg, client, NO_LIMITS).bytes, 0, 0) == Success(m.(forceTrailing := false), false)
            <==> Canonical(m)
  {
    ParsePrinted(m, reg, client);
    EmptyEnumeration(reg, m.tags);
    EmptyEnumeration(client, m.clientTags);
    var m0 := EMPTY.(tags := m.tags, clientTags := m.clientTags);
    var body := Body(m);
    assert m.(forceTrailing := false) == m0.(source := m.source, command := m.command, params := m.params);
    if reg + client != [] || body[0] != AT {
      assert m.source == [] ==> body[0] == m.command[0];
      if Readable(m) {
        BodyRoundTrip(m0, m);
      } else if ParsedBody(m0, body) == Success(m.(forceTrailing := false), false) {
        BodyReadBack(m0, m);
        assert false;
      }
    } else {
      assert m.source == [] && m.command[0] == AT;
      CommandReadAsTags(m);
    }
  }

  /** A command that starts with `@` at the front of a line is taken for tags, and the
      rest of the line is too short to hold the message again. */
  lemma {:induction false} CommandReadAsTags(m: Msg)
    requires ParamText(m.params, m.forceTrailing).Some?
    requires m.source == [] && m.command != [] && m.command[0] == AT
    ensures ParsedTagged(Body(m), 0, 0) != Success(m.(forceTrailing := false), false)
  {
    hide ParsedTags;
    hide ParsedBody;
    hide ParsedCommand;
    hide IndexByte;
    var body := Body(m);
    var tagEnd := IndexByte(body, SPACE);
    PrintedWeight(m.params, m.forceTrailing);
    hide ParamText;
    hide Weight;
    if tagEnd > 0 {
      var tagged := ParsedTags(EMPTY, body[1..tagEnd]);
      if tagged.Some? {
        ParsedTagsKeep(EMPTY, body[1..tagEnd]);
        var rest := body[tagEnd + 1..];
        if ParsedBody(tagged.value, rest).Success? {
          ParsedBodyShape(tagged.value, rest);
        }
      }
    }
  }

  lemma {:induction false} AddPairKeeps(m: Msg, pair: Bytes)
    requires AddPair(m, pair).Some?
    ensures SameButTags(m, AddPair(m, pair).value)
  {
  }

  predicate SameButTags(m: Msg, r: Msg) {
    && r == m.(tags := r.tags, clientTags := r.clientTags)
    && (WellTagged(m) ==> WellTagged(r))
  }

  lemma {:induction false} ParsedTagsKeep(m: Msg, tags: Bytes)
    requires ParsedTags(m, tags).Some?
    ensures SameButTags(m, ParsedTags(m, tags).value)
    decreases |tags|
  {
    if tags != [] {
      var pair, rest := FirstPair(tags), AfterPair(tags);
      AddPairKeeps(m, pair);
      ParsedTagsKeep(AddPair(m, pair).value, rest);
    }
  }
}
