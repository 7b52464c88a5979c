/** The printer's size limits, and the strict parser's agreement with them
    (ircmsg/message.go, ircmsg/unicode.go). */
module WireLimits {
  import opened ByteStrings
  import opened Messages
  import opened RoundTrip
  import Utf8

  // ----- truncating a buffer that starts with a tag section -----

  /** A rune cannot reach back across an ASCII byte. */
  lemma {:induction false} LastRuneAfterAscii(pre: Bytes, q: Bytes)
    requires pre != [] && pre[|pre| - 1] <= 0x7F
    ensures Utf8.LastRuneLen(pre + q) == if q == [] then 1 else Utf8.LastRuneLen(q)
  {
    hide Utf8.LastRuneLen;
    var s := pre + q;
    var i := |s| - 1;
    while i >= |pre| && Utf8.IsContinuation(s[i])
      invariant |pre| - 1 <= i < |s|
      invariant forall j :: i < j < |s| ==> Utf8.IsContinuation(s[j])
    {
      i := i - 1;
    }
    Utf8.LastRuneFrom(s, i);
    forall j | 0 <= j < |q| ensures s[|pre| + j] == q[j] {}
    if i >= |pre| {
      Utf8.LastRuneFrom(q, i - |pre|);
      assert s[i..] == q[i - |pre|..];
    } else {
      Utf8.NoLeadNoRune(q);
    }
  }

  function OrEmpty(r: Option<Bytes>): (s: Bytes) {
    if r.None? then [] else r.value
  }

  /** The printer's loop on the whole buffer removes the same bytes as a loop on the body,
      and stops at the tag section at the latest. */
  lemma {:induction false} DropBrokenBehind(pre: Bytes, q: Bytes, tries: nat)
    requires pre != [] && pre[|pre| - 1] <= 0x7F
    ensures Utf8.DropBroken(pre + q, tries) == Some(pre + OrEmpty(Utf8.DropBroken(q, tries)))
    decreases tries
  {
    hide Utf8.LastRuneLen;
    LastRuneAfterAscii(pre, q);
    var p := pre + q;
    if tries == 0 || q == [] {
      assert q == [] ==> p == pre;
    } else if Utf8.LastRuneLen(q) == 0 {
      var shorter := q[..|q| - 1];
      assert p[..|p| - 1] == pre + shorter;
      DropBrokenBehind(pre, shorter, tries - 1);
    }
  }

  /** The body as it goes out: whole, or cut like TruncateUTF8Safe; where that would
      panic although a tag section precedes the body, nothing is left of the body. */
  function SentBody(body: Bytes, truncateLen: int): (r: Bytes) {
    if truncateLen == 0 then body else OrEmpty(Utf8.Truncated(body, truncateLen - 2))
  }

  predicate SectionShape(section: Bytes) {
    section == [] || section[|section| - 1] <= 0x7F
  }

  lemma {:induction false} CutBehindSection(section: Bytes, body: Bytes, limit: nat)
    requires SectionShape(section) && limit < |body|
    ensures var r := Utf8.DropBroken((section + body)[..|section| + limit], 3);
            r == if section == [] then Utf8.Truncated(body, limit)
                 else Some(section + OrEmpty(Utf8.Truncated(body, limit)))
  {
    hide Utf8.DropBroken;
    assert (section + body)[..|section| + limit] == section + body[..limit];
    if section == [] {
      assert section + body[..limit] == body[..limit];
    } else {
      DropBrokenBehind(section, body[..limit], 3);
    }
  }

  lemma {:induction false} SentBodyShape(body: Bytes, truncateLen: int)
    requires truncateLen == 0 || truncateLen >= 2
    ensures SentBody(body, truncateLen) <= body
    ensures truncateLen != 0 ==> |SentBody(body, truncateLen)| + 2 <= truncateLen
    ensures SentBody(body, truncateLen) == body <==> truncateLen == 0 || |body| + 2 <= truncateLen
    ensures truncateLen >= 5 ==> Utf8.Truncated(body, truncateLen - 2) == Some(SentBody(body, truncateLen))
  {
    hide Utf8.LastGood;
    if truncateLen != 0 && truncateLen - 2 < |body| {
      Utf8.TruncateAnyBytes(body, truncateLen - 2);
    }
  }

  /** Truncation leaves the tag section alone and cuts the body where TruncateUTF8Safe does.
      It fails exactly if TruncateUTF8Safe does and there is no tag section to stop at. */
  lemma {:induction false} FinishCutsBody(section: Bytes, body: Bytes, truncateLen: int)
    requires SectionShape(section) && (truncateLen == 0 || truncateLen >= 2)
    ensures Finish(section, body, truncateLen) ==
            if section == [] && truncateLen != 0 && Utf8.Truncated(body, truncateLen - 2).None? then Crash
            else Seal(section + SentBody(body, truncateLen), SentBody(body, truncateLen) != body)
  {
    hide Utf8.DropBroken;
    hide Seal;
    SentBodyShape(body, truncateLen);
    if truncateLen != 0 && truncateLen - 2 < |body| {
      CutBehindSection(section, body, truncateLen - 2);
      assert [] + SentBody(body, truncateLen) == SentBody(body, truncateLen);
    }
  }

  /** A nonzero limit below 2 is the one case in which truncation eats into the tags. */
  lemma {:induction false} TinyLimitCutsTags(section: Bytes, body: Bytes, truncateLen: int)
    requires truncateLen != 0 && truncateLen < 2
    ensures Finish(section, body, truncateLen).Line? ==>
              && Finish(section, body, truncateLen).cut
              && exists short :: short <= section && |short| < |section|
                                 && Finish(section, body, truncateLen).bytes == short + [CR, LF]
  {
    hide Utf8.DropBroken;
    var n := |section| + truncateLen - 2;
    if n >= 0 {
      assert (section + body)[..n] == section[..n];
    }
  }

  /** `@a X` printed with a limit of 1 goes out as `@a`: the space behind the tags is gone too. */
  lemma {:induction false} TinyLimitExample()
    ensures var m := Msg([], [0x58], [], false, map[[0x61] := []], map[]);
            && Enumerates([([0x61], [])], m.tags)
            && Print(m, [([0x61], [])], [], Limits(0, 0, 0, 1)) == Line([AT, 0x61, CR, LF], true)
  {
    var m := Msg([], [0x58], [], false, map[[0x61] := []], map[]);
    var p: Pair := ([0x61], []);
    var ps := [p];
    assert ps[..0] == [] && m.tags - {p.0} == map[];
    assert ps + [] == ps;
    var section := [AT, 0x61, SPACE];
    assert TagSection(ps) == section;
    assert ValidPair(p);
    assert ParamText(m.params, false) == Some([]) && Head(m) + [] == [0x58];
    assert (section + [0x58])[..2] == [AT, 0x61];
    var short := [AT, 0x61];
    Utf8.LastRuneFrom(short, 1);
    assert Utf8.RuneLen(short[1..]) == 1;
    assert Utf8.DropBroken(short, 3) == Some(short);
    assert !HasForbidden(short);
  }

  // ----- sizes -----

  /** What a print that emits a line has checked. */
  lemma {:induction false} PrintAccepted(m: Msg, reg: seq<Pair>, client: seq<Pair>, lim: Limits)
    requires Print(m, reg, client, lim).Line?
    ensures m.command != [] && ValidPairs(reg + client) && ParamText(m.params, m.forceTrailing).Some?
    ensures !(0 < lim.tag < |TagSection(reg + client)|)
    ensures !(0 < lim.client < ClientTagLen(reg, client)) && !(0 < lim.server < |JoinTags(reg)|)
    ensures Print(m, reg, client, lim) == Finish(TagSection(reg + client), Body(m), lim.truncateLen)
  {
    hide Finish;
    hide JoinTags;
    hide ParamText;
    hide ValidPairs;
  }

  /** Whatever a strict print emits fits: 4096 bytes of tags from a client, 8191 from a
      server, and a body that leaves room for CRLF. */
  lemma {:induction false} EmittedSizes(m: Msg, reg: seq<Pair>, client: seq<Pair>, fromClient: bool, truncateLen: int)
    requires truncateLen == 0 || truncateLen >= 2
    requires Print(m, reg, client, StrictLimits(fromClient, truncateLen)).Line?
    ensures ParamText(m.params, m.forceTrailing).Some? && ValidPairs(reg + client) && m.command != []
    ensures var line := Print(m, reg, client, StrictLimits(fromClient, truncateLen));
            var section, sent := TagSection(reg + client), SentBody(Body(m), truncateLen);
            && line == Line(section + sent + [CR, LF], truncateLen != 0 && truncateLen < |Body(m)| + 2)
            && !HasForbidden(section + sent)
            && |section| <= (if fromClient then 4096 else 8191)
            && (section != [] ==> |JoinTags(reg + client)| <= StrictTagData(fromClient))
            && sent <= Body(m)
            && (truncateLen != 0 ==> |sent| + 2 <= truncateLen)
  {
    hide Finish;
    hide JoinTags;
    hide ParamText;
    hide ValidPairs;
    hide HasForbidden;
    hide SentBody;
    hide Print;
    hide Body;
    PrintAccepted(m, reg, client, StrictLimits(fromClient, truncateLen));
    FinishCutsBody(TagSection(reg + client), Body(m), truncateLen);
    SentBodyShape(Body(m), truncateLen);
  }

  // ----- the strict parser -----

  /** A line without tags whose command looks like an oversized tag section. */
  predicate MistakenForTags(line: Bytes, maxTagData: int) {
    line != [] && line[0] == AT && maxTagData + 1 < IndexByte(line, SPACE)
  }

  predicate NoOversize(r: Parsed) {
    r != Panic && r != Failure(TagsTooLong) && r != Failure(BodyTooLong) && !(r.Success? && r.cut)
  }

  lemma {:induction false} ParsedWithin(m0: Msg, body: Bytes, truncateLen: int)
    requires truncateLen == 0 || |body| + 2 <= truncateLen
    ensures ParsedCut(m0, body, truncateLen) == ParsedCut(m0, body, 0)
    ensures NoOversize(ParsedCut(m0, body, 0))
  {
  }

  lemma {:induction false} TaggedWithin(line: Bytes, max: int, truncateLen: int)
    requires line != [] && max > 0
    requires truncateLen == 0 || |line| + 2 <= truncateLen
    ensures NoOversize(ParsedTagged(line, 0, 0))
    ensures ParsedTagged(line, max, truncateLen) ==
            if max + 1 < IndexByte(line, SPACE) then Failure(TagsTooLong) else ParsedTagged(line, 0, 0)
  {
    hide ParsedCut;
    hide ParsedTags;
    var tagEnd := IndexByte(line, SPACE);
    if tagEnd > 0 {
      var tagged := ParsedTags(EMPTY, line[1..tagEnd]);
      if tagged.Some? {
        ParsedWithin(tagged.value, line[tagEnd + 1..], truncateLen);
      }
    }
  }

  lemma {:induction false} IndexIgnoresEol(line: Bytes)
    ensures IndexByte(line + [CR, LF], SPACE) == IndexByte(line, SPACE)
  {
    if line != [] {
      assert (line + [CR, LF])[1..] == line[1..] + [CR, LF];
      IndexIgnoresEol(line[1..]);
    } else {
      assert line + [CR, LF] == [CR, LF];
      assert SPACE !in [CR, LF];
    }
  }

  /** The strict parser on a clean line within the body limit. */
  lemma {:induction false} StrictWithin(line: Bytes, max: int, truncateLen: int)
    requires !HasForbidden(line) && max > 0 && (truncateLen == 0 || truncateLen >= 3)
    requires truncateLen == 0 || |line| + 2 <= truncateLen
    ensures var r := Parse(line + [CR, LF], max, truncateLen);
            r == if MistakenForTags(line + [CR, LF], max) then Failure(TagsTooLong) else Parse(line + [CR, LF], 0, 0)
    ensures NoOversize(Parse(line + [CR, LF], 0, 0))
  {
    hide ParsedCut;
    hide ParsedTagged;
    hide HasForbidden;
    TrimSealed(line);
    IndexIgnoresEol(line);
    if line != [] {
      ParsedWithin(EMPTY, line, truncateLen);
      TaggedWithin(line, max, truncateLen);
    } else {
      assert line + [CR, LF] == [CR, LF];
    }
  }

  lemma {:induction false} StrictTagged(m: Msg, reg: seq<Pair>, client: seq<Pair>, sent: Bytes, max: int, truncateLen: int)
    requires WellTagged(m) && Enumerates(reg, m.tags) && Enumerates(client, m.clientTags)
    requires ValidPairs(reg + client) && reg + client != []
    requires truncateLen == 0 || (truncateLen >= 3 && |sent| + 2 <= truncateLen)
    requires |JoinTags(reg + client)| <= max
    requires !HasForbidden(TagSection(reg + client) + sent)
    ensures var text := TagSection(reg + client) + sent + [CR, LF];
            Parse(text, max, truncateLen) == Parse(text, 0, 0) && NoOversize(Parse(text, 0, 0))
  {
    hide ParsedCut;
    hide ParsedTagged;
    hide JoinTags;
    hide HasForbidden;
    hide ValidPairs;
    var line := TagSection(reg + client) + sent;
    TrimSealed(line);
    assert line[0] == AT;
    ParseSection(m, reg, client, sent, max, truncateLen);
    ParseSection(m, reg, client, sent, 0, 0);
    ParsedWithin(EMPTY.(tags := m.tags, clientTags := m.clientTags), sent, truncateLen);
  }

  // ----- the exception, as a condition on the message -----

  /** Where the first space of a body without source will be, -1 if there will be none. */
  function FirstSpace(m: Msg): (r: int) {
    if SPACE in m.command then IndexByte(m.command, SPACE)
    else if m.params != [] then |m.command|
    else -1
  }

  /** Without source and tags, a command that begins with `@` and runs on past the tag limit
      before its first space, that space being sent. */
  predicate LooksLikeTags(m: Msg, maxTagData: int, truncateLen: int)
    requires ParamText(m.params, m.forceTrailing).Some?
  {
    && m.source == [] && m.tags == map[] && m.clientTags == map[]
    && m.command != [] && m.command[0] == AT
    && maxTagData + 1 < FirstSpace(m) < |SentBody(Body(m), truncateLen)|
  }

  lemma {:induction false} IndexInPrefix(s: Bytes, t: Bytes, c: byte)
    requires s <= t
    ensures IndexByte(s, c) == if 0 <= IndexByte(t, c) < |s| then IndexByte(t, c) else -1
  {
    if s != [] && s[0] != c {
      IndexInPrefix(s[1..], t[1..], c);
    }
  }

  lemma {:induction false} FirstSpaceFound(m: Msg)
    requires ParamText(m.params, m.forceTrailing).Some? && m.source == []
    ensures IndexByte(Body(m), SPACE) == FirstSpace(m)
  {
    hide ParsedParams;
    ParamsRoundTrip(m.params, m.forceTrailing);
    NoParamText(m);
    hide ParamText;
    var ps, body := ParamText(m.params, m.forceTrailing).value, Body(m);
    assert body == m.command + ps;
    if SPACE in m.command {
      IndexInPrefix(m.command, body, SPACE);
    } else if m.params != [] {
      assert ps == [SPACE] + ps[1..];
      assert body == m.command + [SPACE] + ps[1..];
      IndexAfter(m.command, SPACE, ps[1..]);
    } else {
      assert body == m.command;
    }
  }

  lemma {:induction false} NoParamText(m: Msg)
    requires ParamText(m.params, m.forceTrailing).Some?
    ensures ParamText(m.params, m.forceTrailing).value == [] <==> m.params == []
  {
  }

  /** What the parser takes for an oversized tag section, said of the message. */
  lemma {:induction false} MistakenIff(m: Msg, maxTagData: nat, truncateLen: int)
    requires ParamText(m.params, m.forceTrailing).Some? && m.command != []
    requires m.tags == map[] && m.clientTags == map[]
    requires SentBody(Body(m), truncateLen) <= Body(m)
    ensures MistakenForTags(SentBody(Body(m), truncateLen) + [CR, LF], maxTagData) <==> LooksLikeTags(m, maxTagData, truncateLen)
  {
    hide ParamText;
    hide SentBody;
    var sent, body := SentBody(Body(m), truncateLen), Body(m);
    IndexIgnoresEol(sent);
    IndexInPrefix(sent, body, SPACE);
    assert body[0] == if m.source == [] then m.command[0] else COLON;
    if m.source == [] {
      FirstSpaceFound(m);
    }
    if sent != [] {
      assert (sent + [CR, LF])[0] == sent[0] == body[0];
    }
  }

  /** Encoder and decoder limits agree: on any line the strict printer emits, the strict
      parser with the same arguments reports no oversize and does what the unlimited parser
      does, if and only if the message does not look like tags. */
  lemma {:induction false} StrictParseAccepts(m: Msg, reg: seq<Pair>, client: seq<Pair>, fromClient: bool, truncateLen: int)
    requires WellTagged(m) && Enumerates(reg, m.tags) && Enumerates(client, m.clientTags)
    requires truncateLen == 0 || truncateLen >= 3
    requires Print(m, reg, client, StrictLimits(fromClient, truncateLen)).Line?
    ensures ParamText(m.params, m.forceTrailing).Some?
    ensures var text := Print(m, reg, client, StrictLimits(fromClient, truncateLen)).bytes;
            var max := StrictTagData(fromClient);
            && Parse(text, max, truncateLen) ==
               (if LooksLikeTags(m, max, truncateLen) then Failure(TagsTooLong) else Parse(text, 0, 0))
            && NoOversize(Parse(text, 0, 0))
  {
    hide Print;
    hide JoinTags;
    hide Parse;
    hide HasForbidden;
    hide ValidPairs;
    hide Body;
    hide SentBody;
    hide MistakenForTags;
    hide NoOversize;
    hide ParamText;
    hide FirstSpace;
    EmittedSizes(m, reg, client, fromClient, truncateLen);
    EmptyEnumeration(reg, m.tags);
    EmptyEnumeration(client, m.clientTags);
    var sent := SentBody(Body(m), truncateLen);
    if reg + client != [] {
      StrictTagged(m, reg, client, sent, StrictTagData(fromClient), truncateLen);
    } else {
      assert TagSection(reg + client) + sent == sent;
      StrictWithin(sent, StrictTagData(fromClient), truncateLen);
      MistakenIff(m, StrictTagData(fromClient), truncateLen);
    }
  }

  /** A command of `@` and 4095 letters, with one parameter. */
  const LONG_COMMAND: Msg := Msg([], [AT] + seq(4095, _ => 0x41), [[0x41]], false, map[], map[])

  /** A client may print it, and the strict parser calls it oversized tags. */
  lemma {:induction false} LongCommandRefused()
    ensures Print(LONG_COMMAND, [], [], StrictLimits(true, 0)).Line?
    ensures Parse(Print(LONG_COMMAND, [], [], StrictLimits(true, 0)).bytes, StrictTagData(true), 0) == Failure(TagsTooLong)
  {
    var m := LONG_COMMAND;
    assert SPACE !in m.command && !HasForbidden(m.command);
    var ps := [SPACE, 0x41];
    assert !RequiresTrailing([0x41]) && [SPACE] + [] + [0x41] == ps;
    assert ParamText(m.params, false) == Some(ps);
    assert Body(m) == m.command + ps;
    assert [] + Body(m) == Body(m) && !HasForbidden(Body(m));
    assert Print(m, [], [], StrictLimits(true, 0)) == Seal(Body(m), false);
    hide Parse;
    StrictParseAccepts(m, [], [], true, 0);
    assert FirstSpace(m) == 4096;
  }

  /** Below 3 the strict parser has no room for any body and says so at once. */
  lemma {:induction false} StrictParseTinyLimit(text: Bytes, maxTagData: int, truncateLen: int)
    ensures truncateLen != 0 && truncateLen <= 2 ==> Parse(text, maxTagData, truncateLen) == Failure(LineIsEmpty)
  {
  }

  /** A line printed within its limits is read back by the strict parser exactly when
      the message is canonical. */
  lemma {:induction false} StrictRoundTrip(m: Msg, reg: seq<Pair>, client: seq<Pair>, fromClient: bool, truncateLen: int)
    requires WellTagged(m) && Enumerates(reg, m.tags) && Enumerates(client, m.clientTags)
    requires truncateLen == 0 || truncateLen >= 3
    requires Print(m, reg, client, StrictLimits(fromClient, truncateLen)).Line?
    requires !Print(m, reg, client, StrictLimits(fromClient, truncateLen)).cut
    ensures Parse(Print(m, reg, client, StrictLimits(fromClient, truncateLen)).bytes, StrictTagData(fromClient), truncateLen)
            == Success(m.(forceTrailing := false), false)
            <==> Canonical(m)
  {
    hide Parse;
    hide JoinTags;
    hide Finish;
    hide ParamText;
    hide SentBody;
    hide ValidPairs;
    hide Canonical;
    hide Utf8.Truncated;
    EmittedSizes(m, reg, client, fromClient, truncateLen);
    StrictParseAccepts(m, reg, client, fromClient, truncateLen);
    SentBodyShape(Body(m), truncateLen);
    FinishCutsBody(TagSection(reg + client), Body(m), 0);
    SentBodyShape(Body(m), 0);
    PrintThenParse(m, reg, client);
    CanonicalNotMistaken(m, StrictTagData(fromClient), truncateLen);
  }

  lemma {:induction false} CanonicalNotMistaken(m: Msg, max: int, truncateLen: int)
    requires ParamText(m.params, m.forceTrailing).Some?
    ensures LooksLikeTags(m, max, truncateLen) ==> !Canonical(m)
  {
    hide ParamText;
    hide SentBody;
  }
}
