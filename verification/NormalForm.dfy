/** Parsing reaches a normal form: what was parsed can be printed, and prints to a
    line that parses to the same message (ircmsg/message.go). */
module NormalForm {
  import opened ByteStrings
  import opened Messages
  import opened RoundTrip
  import Tags

  // ----- what parsing guarantees about tags -----

  /** An entry the printer accepts and that puts no forbidden byte on the line. */
  predicate GoodPair(p: Pair) {
    ValidPair(p) && NUL !in p.1
  }

  predicate GoodMap(t: TagMap) {
    forall n :: n in t ==> GoodPair((n, t[n]))
  }

  predicate GoodTags(m: Msg) {
    GoodMap(m.tags) && GoodMap(m.clientTags) && WellTagged(m)
  }

  lemma {:induction false} AddPairGood(m: Msg, pair: Bytes)
    requires GoodTags(m) && NUL !in pair && AddPair(m, pair).Some?
    ensures GoodTags(AddPair(m, pair).value)
  {
    var name, value := NameOf(pair), ValueOf(pair);
    if Tags.ValidTagName(name) {
      Tags.UnescapeKeepsUtf8(value);
      Tags.UnescapeMakesNoNul(value);
      assert GoodPair((name, Tags.Unescape(value)));
    }
  }

  lemma {:induction false} ParsedTagsGood(m: Msg, tags: Bytes)
    requires GoodTags(m) && NUL !in tags && ParsedTags(m, tags).Some?
    ensures GoodTags(ParsedTags(m, tags).value)
    decreases |tags|
  {
    if tags != [] {
      var pair, rest := FirstPair(tags), AfterPair(tags);
      assert NUL !in pair && NUL !in rest;
      AddPairGood(m, pair);
      ParsedTagsGood(AddPair(m, pair).value, rest);
    }
  }

  predicate GoodPairs(ps: seq<Pair>) {
    forall i :: 0 <= i < |ps| ==> GoodPair(ps[i])
  }

  lemma {:induction false} EnumerationGood(ps: seq<Pair>, t: TagMap)
    requires Enumerates(ps, t) && GoodMap(t)
    ensures GoodPairs(ps)
  {
    hide GoodPair;
    if ps != [] {
      var n := |ps| - 1;
      var k := ps[n].0;
      EnumerationGood(ps[..n], t - {k});
      assert ps[n] == (k, t[k]);
    }
  }

  lemma {:induction false} CleanTagText(p: Pair)
    requires GoodPair(p)
    ensures !HasForbidden(TagText(p))
  {
    Tags.NameIsSafe(p.0);
    Tags.EscapeIsSafe(p.1);
  }

  lemma {:induction false} CleanJoin(ps: seq<Pair>)
    requires GoodPairs(ps)
    ensures !HasForbidden(JoinTags(ps))
  {
    if ps != [] {
      var n := |ps| - 1;
      CleanJoin(ps[..n]);
      CleanTagText(ps[n]);
    }
  }

  // ----- what parsing guarantees about the body -----

  predicate CleanParams(params: seq<Bytes>) {
    forall i :: 0 <= i < |params| ==> !HasForbidden(params[i])
  }

  lemma {:induction false} TrimClean(s: Bytes)
    requires !HasForbidden(s)
    ensures !HasForbidden(TrimSpaces(s))
  {
    if s != [] && s[0] == SPACE {
      TrimClean(s[1..]);
    }
  }

  lemma {:induction false} ParsedParamsClean(line: Bytes)
    requires !HasForbidden(line)
    ensures CleanParams(ParsedParams(line))
    decreases |line|
  {
    hide TrimSpaces;
    var l := TrimSpaces(line);
    TrimClean(line);
    if l != [] && l[0] != COLON {
      var end := IndexByte(l, SPACE);
      if end != -1 {
        ParsedParamsClean(l[end + 1..]);
      }
    }
  }

  /** Parsed parameters can be printed: only the last may need a colon. */
  lemma {:induction false} ParsedParamsPrint(line: Bytes, force: bool)
    ensures ParamText(ParsedParams(line), force).Some?
    decreases |line|
  {
    hide TrimSpaces;
    var l := TrimSpaces(line);
    if l != [] && l[0] != COLON {
      var end := IndexByte(l, SPACE);
      if end != -1 {
        var p, rest := l[..end], l[end + 1..];
        ParsedParamsPrint(rest, force);
        assert ParsedParams(line)[1..] == ParsedParams(rest);
        assert !RequiresTrailing(p) by {
          assert p[0] == l[0];
        }
      }
    }
  }

  lemma {:induction false} ParamTextClean(params: seq<Bytes>, force: bool)
    requires CleanParams(params) && ParamText(params, force).Some?
    ensures !HasForbidden(ParamText(params, force).value)
  {
    if |params| > 1 {
      assert CleanParams(params[1..]);
      ParamTextClean(params[1..], force);
    }
  }

  lemma {:induction false} UpperClean(s: Bytes)
    requires !HasForbidden(s)
    ensures !HasForbidden(ToUpper(s))
  {
    var up := ToUpper(s);
    forall i | 0 <= i < |up| ensures up[i] != NUL && up[i] != LF && up[i] != CR {
      assert s[i] in s;
    }
  }

  predicate PrintableBody(m: Msg) {
    && m.command != []
    && ParamText(m.params, m.forceTrailing).Some?
    && !HasForbidden(Body(m))
  }

  lemma {:induction false} ParsedCommandPrints(m0: Msg, line: Bytes)
    requires !HasForbidden(line) && !HasForbidden(m0.source) && ParsedCommand(m0, line).Success?
    ensures PrintableBody(ParsedCommand(m0, line).msg)
  {
    hide ParsedParams;
    hide ParamText;
    hide ToUpper;
    hide TrimSpaces;
    hide RequiresTrailing;
    var m := ParsedCommand(m0, line).msg;
    assert !HasForbidden([COLON] + m.source + [SPACE]) && !HasForbidden([]);
    var l := TrimSpaces(line);
    TrimClean(line);
    var end := IndexByte(l, SPACE);
    var command := if end == -1 then l else l[..end];
    var rest := if end == -1 then [] else l[end + 1..];
    assert !HasForbidden(command) && !HasForbidden(rest);
    UpperClean(command);
    ParsedParamsClean(rest);
    ParsedParamsPrint(rest, m.forceTrailing);
    ParamTextClean(m.params, m.forceTrailing);
    CleanConcat([COLON] + m.source + [SPACE], m.command);
    CleanConcat([], m.command);
    CleanConcat(Head(m), ParamText(m.params, m.forceTrailing).value);
  }

  lemma {:induction false} CleanConcat(a: Bytes, b: Bytes)
    requires !HasForbidden(a) && !HasForbidden(b)
    ensures !HasForbidden(a + b)
  {
  }

  lemma {:induction false} ParsedBodyPrints(m0: Msg, body: Bytes)
    requires !HasForbidden(body) && m0.source == [] && ParsedBody(m0, body).Success?
    ensures PrintableBody(ParsedBody(m0, body).msg)
  {
    hide ParsedCommand;
    hide TrimSpaces;
    hide PrintableBody;
    var l := TrimSpaces(body);
    TrimClean(body);
    if l != [] && l[0] == COLON {
      var end := IndexByte(l, SPACE);
      ParsedCommandPrints(m0.(source := l[1..end]), l[end + 1..]);
    } else {
      ParsedCommandPrints(m0, l);
    }
  }

  /** What a successfully parsed line guarantees. */
  predicate WellParsed(m: Msg) {
    && GoodTags(m) && PrintableBody(m) && !m.forceTrailing
    && SPACE !in m.source && SPACE !in m.command && IsAscii(m.command) && NoLowerCase(m.command)
  }

  lemma {:induction false} ParsedBodyWell(m0: Msg, body: Bytes)
    requires GoodTags(m0) && !m0.forceTrailing && m0.source == [] && !HasForbidden(body)
    requires ParsedBody(m0, body).Success?
    ensures WellParsed(ParsedBody(m0, body).msg)
  {
    ParsedBodyPrints(m0, body);
    ParsedBodyShape(m0, body);
  }

  lemma {:induction false} ParsedTaggedWell(line: Bytes)
    requires line != [] && !HasForbidden(line) && ParsedTagged(line, 0, 0).Success?
    ensures WellParsed(ParsedTagged(line, 0, 0).msg)
  {
    var tagEnd := IndexByte(line, SPACE);
    var tags, body := line[1..tagEnd], line[tagEnd + 1..];
    assert NUL !in tags && !HasForbidden(body);
    ParsedTagsGood(EMPTY, tags);
    ParsedTagsKeep(EMPTY, tags);
    ParsedBodyWell(ParsedTags(EMPTY, tags).value, body);
  }

  lemma {:induction false} ParsedLineWell(text: Bytes)
    requires Parse(text, 0, 0).Success?
    ensures WellParsed(Parse(text, 0, 0).msg)
  {
    var line := TrimEol(text);
    if line[0] == AT {
      ParsedTaggedWell(line);
    } else {
      ParsedBodyWell(EMPTY, line);
    }
  }

  lemma {:induction false} PrintGoodMessage(m: Msg, reg: seq<Pair>, client: seq<Pair>)
    requires GoodTags(m) && PrintableBody(m)
    requires Enumerates(reg, m.tags) && Enumerates(client, m.clientTags)
    ensures Print(m, reg, client, NO_LIMITS) == Line(TagSection(reg + client) + Body(m) + [CR, LF], false)
  {
    EnumerationGood(reg, m.tags);
    EnumerationGood(client, m.clientTags);
    var ps := reg + client;
    assert GoodPairs(ps);
    assert ValidPairs(ps) by {
      assert forall i :: 0 <= i < |ps| ==> GoodPair(ps[i]);
    }
    CleanJoin(ps);
    assert !HasForbidden(TagSection(ps) + Body(m));
  }

  /** Decode then encode: every line that parses yields a message that prints, under
      every enumeration order; the printed line parses to the same message exactly when
      the command cannot be mistaken for a source or for tags. */
  lemma {:induction false} ParseThenPrint(text: Bytes, reg: seq<Pair>, client: seq<Pair>)
    requires Parse(text, 0, 0).Success?
    requires Enumerates(reg, Parse(text, 0, 0).msg.tags) && Enumerates(client, Parse(text, 0, 0).msg.clientTags)
    ensures var m := Parse(text, 0, 0).msg;
            var again := Print(m, reg, client, NO_LIMITS);
            && m.command != []
            && again.Line? && !again.cut
            && (Parse(again.bytes, 0, 0) == Success(m, false) <==>
                && (m.source == [] ==> m.command[0] != COLON)
                && (m.source == [] && m.tags == map[] && m.clientTags == map[] ==> m.command[0] != AT))
  {
    var m := Parse(text, 0, 0).msg;
    ParsedLineWell(text);
    PrintGoodMessage(m, reg, client);
    PrintThenParse(m, reg, client);
    assert m.(forceTrailing := false) == m;
  }
}
