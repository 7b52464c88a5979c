/** What an IRC line is, without saying how it is taken apart: the parser of ircmsg/message.go
    accepts exactly these lines and reads them in exactly this way. */
module Grammar {
  import opened ByteStrings
  import opened Messages
  import Utf8
  import Tags

  // ----- spaces -----

  predicate Spaces(s: Bytes) {
    forall i :: 0 <= i < |s| ==> s[i] == 0x20
  }

  lemma {:induction false} TrimSplit(s: Bytes) returns (sp: Bytes)
    ensures Spaces(sp) && s == sp + TrimSpaces(s)
  {
    if s != [] && s[0] == SPACE {
      var rest := TrimSplit(s[1..]);
      var trimmed := TrimSpaces(s[1..]);
      assert TrimSpaces(s) == trimmed;
      hide TrimSpaces;
      sp := [0x20] + rest;
      assert s == [0x20] + s[1..] == [0x20] + (rest + trimmed) == sp + trimmed;
    } else {
      sp := [];
      assert [] + s == s;
    }
  }

  lemma {:induction false} TrimJoined(sp: Bytes, rest: Bytes)
    requires Spaces(sp) && (rest == [] || rest[0] != 0x20)
    ensures TrimSpaces(sp + rest) == rest
  {
    if sp == [] {
      assert sp + rest == rest;
    } else {
      assert (sp + rest)[1..] == sp[1..] + rest;
      TrimJoined(sp[1..], rest);
    }
  }

  // ----- parameters -----

  /** A parameter that needs no colon. */
  predicate Middle(p: Bytes) {
    p != [] && 0x20 !in p && p[0] != 0x3A
  }

  /** The text is a list of parameters: runs of spaces before each, the last possibly behind a
      colon, and spaces allowed at the end. */
  ghost predicate ParamsAs(text: Bytes, params: seq<Bytes>)
    decreases |params|, 1
  {
    if params == [] then Spaces(text)
    else exists sp, tail :: Spaces(sp) && text == sp + tail && FirstAs(tail, params)
  }

  ghost predicate FirstAs(tail: Bytes, params: seq<Bytes>)
    requires params != []
    decreases |params|, 0
  {
    || (|params| == 1 && tail == [0x3A] + params[0])
    || (Middle(params[0]) && |params| == 1 && tail == params[0])
    || (Middle(params[0]) && exists next :: tail == params[0] + [0x20] + next && ParamsAs(next, params[1..]))
  }

  lemma {:induction false} ParamsRead(text: Bytes)
    ensures ParamsAs(text, ParsedParams(text))
    decreases |text|
  {
    hide TrimSpaces;
    var sp := TrimSplit(text);
    var l, params := TrimSpaces(text), ParsedParams(text);
    if l != [] {
      if l[0] == COLON {
        assert l == [0x3A] + params[0];
      } else {
        var end := IndexByte(l, SPACE);
        if end != -1 {
          ParamsRead(l[end + 1..]);
          assert params[1..] == ParsedParams(l[end + 1..]);
          assert l == params[0] + [0x20] + l[end + 1..];
        }
      }
      assert FirstAs(l, params);
    } else {
      assert text == sp;
    }
  }

  lemma {:induction false} FirstReads(tail: Bytes, params: seq<Bytes>)
    requires params != [] && FirstAs(tail, params)
    ensures ParsedParams(tail) == params
    decreases |params|, 0
  {
    if |params| == 1 && tail == [0x3A] + params[0] {
      assert tail[1..] == params[0];
    } else if |params| == 1 && tail == params[0] {
      assert TrimSpaces(tail) == tail;
    } else {
      var next :| tail == params[0] + [0x20] + next && ParamsAs(next, params[1..]);
      IndexAfter(params[0], SPACE, next);
      assert tail[0] == params[0][0];
      assert tail[..|params[0]|] == params[0] && tail[|params[0]| + 1..] == next;
      ParamsReads(next, params[1..]);
    }
  }

  lemma {:induction false} ParamsReads(text: Bytes, params: seq<Bytes>)
    requires ParamsAs(text, params)
    ensures ParsedParams(text) == params
    decreases |params|, 1
  {
    if params == [] {
      TrimJoined(text, []);
      assert text + [] == text;
    } else {
      var sp, tail :| Spaces(sp) && text == sp + tail && FirstAs(tail, params);
      FirstReads(tail, params);
      assert tail[0] != 0x20;
      TrimJoined(sp, tail);
      assert TrimSpaces(tail) == tail;
    }
  }

  /** The parser's list of parameters is the only one the text can be read as. */
  lemma {:induction false} ParamsIff(text: Bytes, params: seq<Bytes>)
    ensures ParsedParams(text) == params <==> ParamsAs(text, params)
  {
    ParamsRead(text);
    if ParamsAs(text, params) {
      ParamsReads(text, params);
    }
  }

  // ----- command and source -----

  /** `c` is `w` in upper case. */
  predicate UpperCased(w: Bytes, c: Bytes) {
    && |c| == |w|
    && forall i :: 0 <= i < |w| ==> c[i] == if 0x61 <= w[i] <= 0x7A then w[i] - 0x20 else w[i]
  }

  /** The command as it stands in the line: a run of ASCII bytes other than space. */
  predicate Word(w: Bytes) {
    w != [] && 0x20 !in w && forall i :: 0 <= i < |w| ==> w[i] <= 127
  }

  ghost predicate TailAs(tail: Bytes, params: seq<Bytes>) {
    (tail == [] && params == []) || (tail != [] && tail[0] == 0x20 && ParamsAs(tail[1..], params))
  }

  ghost predicate CommandAs(text: Bytes, command: Bytes, params: seq<Bytes>) {
    exists sp, w, tail :: Spaces(sp) && Word(w) && TailAs(tail, params) && UpperCased(w, command) && text == sp + w + tail
  }

  /** Source, command and parameters, with spaces allowed in front. */
  ghost predicate BodyAs(text: Bytes, source: Bytes, command: Bytes, params: seq<Bytes>) {
    exists sp, rest ::
      Spaces(sp) && SourceAs(rest, source, command, params) && text == sp + rest
  }

  ghost predicate SourceAs(rest: Bytes, source: Bytes, command: Bytes, params: seq<Bytes>) {
    || (source == [] && rest != [] && rest[0] != 0x3A && rest[0] != 0x20 && CommandAs(rest, command, params))
    || (0x20 !in source && exists next :: rest == [0x3A] + source + [0x20] + next && CommandAs(next, command, params))
  }

  /** The command that `m0` extended by the text has. */
  lemma {:induction false} CommandRead(m0: Msg, text: Bytes)
    requires ParsedCommand(m0, text).Success?
    ensures var m := ParsedCommand(m0, text).msg;
            m == m0.(command := m.command, params := m.params) && CommandAs(text, m.command, m.params)
  {
    hide TrimSpaces;
    hide ParsedParams;
    hide IndexByte;
    hide ParamsAs;
    var sp := TrimSplit(text);
    var l := TrimSpaces(text);
    var end := IndexByte(l, SPACE);
    var w := if end == -1 then l else l[..end];
    var tail := if end == -1 then [] else l[end..];
    var rest := if end == -1 then [] else l[end + 1..];
    var m := ParsedCommand(m0, text).msg;
    ParamsRead(rest);
    NoParams();
    if end != -1 {
      assert tail[1..] == rest;
    }
    assert Word(w) && UpperCased(w, m.command) && TailAs(tail, m.params);
    assert text == sp + w + tail;
  }

  lemma {:induction false} NoParams()
    ensures ParsedParams([]) == []
  {
  }

  lemma {:induction false} WordFound(w: Bytes, tail: Bytes)
    requires Word(w) && (tail == [] || tail[0] == 0x20)
    ensures IndexByte(w + tail, SPACE) == if tail == [] then -1 else |w|
  {
    if tail == [] {
      assert w + tail == w;
    } else {
      assert w + tail == w + [SPACE] + tail[1..];
      IndexAfter(w, SPACE, tail[1..]);
    }
  }

  lemma {:induction false} CommandReads(m0: Msg, text: Bytes, command: Bytes, params: seq<Bytes>)
    requires CommandAs(text, command, params)
    ensures ParsedCommand(m0, text) == Success(m0.(command := command, params := params), false)
  {
    hide TrimSpaces;
    hide ParsedParams;
    hide ParamsAs;
    hide IndexByte;
    var sp, w, tail :| Spaces(sp) && Word(w) && TailAs(tail, params) && UpperCased(w, command) && text == sp + w + tail;
    var l := w + tail;
    assert text == sp + l && l[0] == w[0];
    TrimJoined(sp, l);
    WordFound(w, tail);
    NoParams();
    assert l[..|w|] == w;
    if tail == [] {
      assert l == w;
    } else {
      assert l[|w| + 1..] == tail[1..];
      ParamsReads(tail[1..], params);
    }
    assert ToUpper(w) == command;
  }

  /** A body parses if and only if it has this form, and then to these parts. */
  lemma {:induction false} BodyIff(m0: Msg, text: Bytes, source: Bytes, command: Bytes, params: seq<Bytes>)
    requires m0.source == []
    ensures ParsedBody(m0, text) == Success(m0.(source := source, command := command, params := params), false)
            <==> BodyAs(text, source, command, params)
  {
    hide ParsedCommand;
    if BodyAs(text, source, command, params) {
      BodyReads(m0, text, source, command, params);
    }
    if ParsedBody(m0, text) == Success(m0.(source := source, command := command, params := params), false) {
      BodyRead(m0, text);
    }
  }

  lemma {:induction false} SpaceCuts(l: Bytes)
    requires l != [] && l[0] == COLON && SPACE in l
    ensures var end := IndexByte(l, SPACE);
            1 <= end < |l| && SPACE !in l[1..end] && l == [0x3A] + l[1..end] + [0x20] + l[end + 1..]
  {
    var end := IndexByte(l, SPACE);
    assert forall i :: 1 <= i < end ==> l[..end][i] == l[i];
    assert l == [l[0]] + l[1..end] + [l[end]] + l[end + 1..];
  }

  lemma {:induction false} ColonRead(m0: Msg, l: Bytes)
    requires l != [] && l[0] == COLON && IndexByte(l, SPACE) > 0
    requires ParsedCommand(m0.(source := l[1..IndexByte(l, SPACE)]), l[IndexByte(l, SPACE) + 1..]).Success?
    ensures var end := IndexByte(l, SPACE);
            var m := ParsedCommand(m0.(source := l[1..end]), l[end + 1..]).msg;
            m.source == l[1..end] && SourceAs(l, m.source, m.command, m.params)
  {
    hide CommandAs;
    hide ParsedCommand;
    SpaceCuts(l);
    var end := IndexByte(l, SPACE);
    hide IndexByte;
    var source, next := l[1..end], l[end + 1..];
    CommandRead(m0.(source := source), next);
    var m := ParsedCommand(m0.(source := source), next).msg;
    assert CommandAs(next, m.command, m.params) && l == [0x3A] + source + [0x20] + next;
  }

  lemma {:induction false} BodyRead(m0: Msg, text: Bytes)
    requires ParsedBody(m0, text).Success? && m0.source == []
    ensures var m := ParsedBody(m0, text).msg;
            && m == m0.(source := m.source, command := m.command, params := m.params)
            && BodyAs(text, m.source, m.command, m.params)
            && !ParsedBody(m0, text).cut
  {
    hide TrimSpaces;
    hide CommandAs;
    hide ParsedCommand;
    var sp := TrimSplit(text);
    var l, m := TrimSpaces(text), ParsedBody(m0, text).msg;
    if l != [] && l[0] == COLON {
      var end := IndexByte(l, SPACE);
      var m1 := m0.(source := l[1..end]);
      CommandIsWhole(m1, l[end + 1..]);
      CommandRead(m1, l[end + 1..]);
      ColonRead(m0, l);
    } else {
      CommandIsWhole(m0, l);
      CommandRead(m0, l);
      TrimAgain(text);
    }
    hide SourceAs;
    assert Spaces(sp) && SourceAs(l, m.source, m.command, m.params) && text == sp + l;
  }

  lemma {:induction false} TrimAgain(s: Bytes)
    ensures TrimSpaces(TrimSpaces(s)) == TrimSpaces(s)
  {
  }

  lemma {:induction false} CommandIsWhole(m0: Msg, text: Bytes)
    requires ParsedCommand(m0, text).Success?
    ensures !ParsedCommand(m0, text).cut && TrimSpaces(text) != []
  {
  }

  lemma {:induction false} BodyReads(m0: Msg, text: Bytes, source: Bytes, command: Bytes, params: seq<Bytes>)
    requires BodyAs(text, source, command, params) && m0.source == []
    ensures ParsedBody(m0, text) == Success(m0.(source := source, command := command, params := params), false)
  {
    hide TrimSpaces;
    hide ParsedCommand;
    hide CommandAs;
    hide IndexByte;
    var sp, rest :| Spaces(sp) && SourceAs(rest, source, command, params) && text == sp + rest;
    assert rest[0] != 0x20;
    TrimJoined(sp, rest);
    if source == [] && rest[0] != 0x3A {
      CommandReads(m0, rest, command, params);
      assert m0.(source := source) == m0;
    } else {
      var next :| rest == [0x3A] + source + [0x20] + next && CommandAs(next, command, params);
      var front := [COLON] + source;
      assert rest == front + [SPACE] + next && SPACE !in front;
      IndexAfter(front, SPACE, next);
      assert rest[1..|front|] == source && rest[|front| + 1..] == next;
      CommandReads(m0.(source := source), next, command, params);
    }
  }

  // ----- tags -----

  /** Texts with semicolons between them. */
  function Joined(pairs: seq<Bytes>): (r: Bytes) {
    if pairs == [] then []
    else if |pairs| == 1 then pairs[0]
    else pairs[0] + [0x3B] + Joined(pairs[1..])
  }

  predicate NoSemicolons(pairs: seq<Bytes>) {
    forall i :: 0 <= i < |pairs| ==> 0x3B !in pairs[i]
  }

  /** The value the tags of a section give to a name: the last one does. */
  function LastValue(pairs: seq<Bytes>, name: Bytes): (r: Option<Bytes>) {
    if pairs == [] then None
    else
      var n := |pairs| - 1;
      if NameOf(pairs[n]) == name then Some(Tags.Unescape(ValueOf(pairs[n]))) else LastValue(pairs[..n], name)
  }

  /** Tags under invalid names do not count; the others need UTF-8 values. */
  predicate Acceptable(pair: Bytes) {
    Tags.ValidTagName(NameOf(pair)) ==> Utf8.Valid(ValueOf(pair))
  }

  function Folded(m: Msg, pairs: seq<Bytes>): (r: Option<Msg>) {
    if pairs == [] then Some(m)
    else
      match Folded(m, pairs[..|pairs| - 1])
      case None => None
      case Some(n) => AddPair(n, pairs[|pairs| - 1])
  }

  lemma {:induction false} FoldedFront(m: Msg, pairs: seq<Bytes>)
    requires pairs != []
    ensures Folded(m, pairs) ==
            match AddPair(m, pairs[0]) case None => None case Some(n) => Folded(n, pairs[1..])
  {
    hide AddPair;
    var n := |pairs| - 1;
    if n > 0 {
      FoldedFront(m, pairs[..n]);
      assert pairs[..n][1..] == pairs[1..][..n - 1];
    } else {
      assert pairs[..0] == [];
      assert Folded(m, pairs[..0]) == Some(m);
    }
  }

  lemma {:induction false} CutFirst(pair: Bytes, rest: Bytes)
    requires 0x3B !in pair
    ensures FirstPair(pair + [0x3B] + rest) == pair && AfterPair(pair + [0x3B] + rest) == rest
    ensures pair != [] ==> FirstPair(pair) == pair && AfterPair(pair) == []
  {
    IndexAfter(pair, SEMICOLON, rest);
    var s := pair + [0x3B] + rest;
    assert s[..|pair|] == pair && s[|pair| + 1..] == rest;
  }

  lemma {:induction false} EmptyPairIgnored(m: Msg)
    ensures AddPair(m, []) == Some(m)
  {
  }

  lemma {:induction false} ParsedIsFolded(m: Msg, pairs: seq<Bytes>)
    requires NoSemicolons(pairs)
    ensures ParsedTags(m, Joined(pairs)) == Folded(m, pairs)
    decreases |pairs|
  {
    hide AddPair;
    if pairs != [] {
      FoldedFront(m, pairs);
      EmptyPairIgnored(m);
      CutFirst(pairs[0], Joined(pairs[1..]));
      if |pairs| == 1 {
        assert pairs[1..] == [];
      } else if AddPair(m, pairs[0]).Some? {
        ParsedIsFolded(AddPair(m, pairs[0]).value, pairs[1..]);
      }
    }
  }

  lemma {:induction false} PairMeans(m: Msg, pair: Bytes, name: Bytes)
    requires Tags.ValidTagName(name)
    ensures AddPair(m, pair).Some? <==> Acceptable(pair)
    ensures AddPair(m, pair).Some? ==>
              TagOf(AddPair(m, pair).value, name) ==
              if NameOf(pair) == name then Some(Tags.Unescape(ValueOf(pair))) else TagOf(m, name)
  {
    Tags.NameIsSafe(name);
    hide Tags.ValidTagName;
    hide Tags.Unescape;
    hide NameOf;
    hide ValueOf;
    TagOfWithTag(m, NameOf(pair), Tags.Unescape(ValueOf(pair)), name);
    hide WithTag;
    hide TagOf;
  }

  predicate AllAcceptable(pairs: seq<Bytes>) {
    forall i :: 0 <= i < |pairs| ==> Acceptable(pairs[i])
  }

  lemma {:induction false} FoldedValues(m: Msg, pairs: seq<Bytes>, name: Bytes)
    requires Tags.ValidTagName(name)
    ensures Folded(m, pairs).Some? <==> AllAcceptable(pairs)
    ensures Folded(m, pairs).Some? ==>
              TagOf(Folded(m, pairs).value, name) ==
              if LastValue(pairs, name).Some? then LastValue(pairs, name) else TagOf(m, name)
  {
    hide Tags.ValidTagName;
    hide AddPair;
    hide Acceptable;
    hide TagOf;
    if pairs != [] {
      var n := |pairs| - 1;
      FoldedValues(m, pairs[..n], name);
      assert AllAcceptable(pairs) <==> AllAcceptable(pairs[..n]) && Acceptable(pairs[n]) by {
        assert forall i :: 0 <= i < n ==> pairs[..n][i] == pairs[i];
      }
      if Folded(m, pairs[..n]).Some? {
        PairMeans(Folded(m, pairs[..n]).value, pairs[n], name);
      }
    }
  }

  /** A tag section, cut at its semicolons: it is accepted if and only if every tag with a valid
      name has a UTF-8 value, and then each valid name has the value its last tag gives it. */
  lemma {:induction false} TagSectionMeans(pairs: seq<Bytes>, name: Bytes)
    requires NoSemicolons(pairs) && Tags.ValidTagName(name)
    ensures ParsedTags(EMPTY, Joined(pairs)).Some? <==> AllAcceptable(pairs)
    ensures ParsedTags(EMPTY, Joined(pairs)).Some? ==>
              TagOf(ParsedTags(EMPTY, Joined(pairs)).value, name) == LastValue(pairs, name)
  {
    hide Tags.ValidTagName;
    ParsedIsFolded(EMPTY, pairs);
    FoldedValues(EMPTY, pairs, name);
  }

  /** Every text is cut at its semicolons. */
  lemma {:induction false} CutAtSemicolons(data: Bytes) returns (pairs: seq<Bytes>)
    ensures NoSemicolons(pairs) && data == Joined(pairs)
    decreases |data|
  {
    var end := IndexByte(data, SEMICOLON);
    if end == -1 {
      return [data];
    }
    var rest := CutAtSemicolons(data[end + 1..]);
    if rest == [] {
      rest := [[]];
    }
    pairs := [data[..end]] + rest;
    assert pairs[1..] == rest;
    assert data == data[..end] + [0x3B] + data[end + 1..];
  }

  // ----- lines -----

  /** A line without its terminator, and the message it stands for. */
  ghost predicate LineAs(line: Bytes, m: Msg) {
    && 0x00 !in line && 0x0A !in line && 0x0D !in line
    && !m.forceTrailing
    && ((line != [] && line[0] != 0x40 && m.tags == map[] && m.clientTags == map[]
         && BodyAs(line, m.source, m.command, m.params))
        || (exists data, body ::
              0x20 !in data && BodyAs(body, m.source, m.command, m.params) && line == [0x40] + data + [0x20] + body
              && ParsedTags(EMPTY, data) == Some(EMPTY.(tags := m.tags, clientTags := m.clientTags))))
  }

  lemma {:induction false} TaggedReads(data: Bytes, body: Bytes)
    requires 0x20 !in data
    ensures ParsedTagged([0x40] + data + [0x20] + body, 0, 0) ==
            match ParsedTags(EMPTY, data) case None => Failure(InvalidTagContent) case Some(m) => ParsedBody(m, body)
  {
    hide ParsedTags;
    hide ParsedBody;
    var front := [AT] + data;
    var line := [0x40] + data + [0x20] + body;
    assert line == front + [SPACE] + body && SPACE !in front;
    IndexAfter(front, SPACE, body);
    assert line[1..|front|] == data && line[|front| + 1..] == body;
  }

  lemma {:induction false} TagsOnly(data: Bytes)
    requires ParsedTags(EMPTY, data).Some?
    ensures var m := ParsedTags(EMPTY, data).value; m == EMPTY.(tags := m.tags, clientTags := m.clientTags)
  {
    TagsOnlyFrom(EMPTY, data);
  }

  lemma {:induction false} TagsOnlyFrom(m0: Msg, data: Bytes)
    requires ParsedTags(m0, data).Some?
    ensures var m := ParsedTags(m0, data).value; m == m0.(tags := m.tags, clientTags := m.clientTags)
    decreases |data|
  {
    hide FirstPair;
    hide AddPair;
    if data != [] {
      PairOnlyTags(m0, FirstPair(data));
      TagsOnlyFrom(AddPair(m0, FirstPair(data)).value, AfterPair(data));
    }
  }

  lemma {:induction false} PairOnlyTags(m0: Msg, pair: Bytes)
    requires AddPair(m0, pair).Some?
    ensures var m := AddPair(m0, pair).value; m == m0.(tags := m.tags, clientTags := m.clientTags)
  {
    hide Tags.ValidTagName;
    hide Tags.Unescape;
  }

  lemma {:induction false} TaggedIff(line: Bytes, m: Msg)
    requires line != [] && line[0] == 0x40 && !m.forceTrailing
    ensures ParsedTagged(line, 0, 0) == Success(m, false) <==>
            exists data, body ::
              0x20 !in data && BodyAs(body, m.source, m.command, m.params) && line == [0x40] + data + [0x20] + body
              && ParsedTags(EMPTY, data) == Some(EMPTY.(tags := m.tags, clientTags := m.clientTags))
  {
    hide ParsedTags;
    hide ParsedBody;
    hide BodyAs;
    var m1 := EMPTY.(tags := m.tags, clientTags := m.clientTags);
    forall data: Bytes, body: Bytes
      | 0x20 !in data && BodyAs(body, m.source, m.command, m.params) && line == [0x40] + data + [0x20] + body
        && ParsedTags(EMPTY, data) == Some(m1)
      ensures ParsedTagged(line, 0, 0) == Success(m, false)
    {
      TaggedReads(data, body);
      BodyIff(m1, body, m.source, m.command, m.params);
    }
    if ParsedTagged(line, 0, 0) == Success(m, false) {
      var end := IndexByte(line, SPACE);
      var data, body := line[1..end], line[end + 1..];
      assert line == [0x40] + data + [0x20] + body;
      assert SPACE !in data by {
        assert forall i :: 1 <= i < end ==> line[..end][i] == line[i];
      }
      TagsOnly(data);
      BodyRead(ParsedTags(EMPTY, data).value, body);
    }
  }

  /** The parser reads a text as a message if and only if its line stands for that message. */
  lemma {:induction false} ParseIff(text: Bytes, m: Msg)
    ensures Parse(text, 0, 0) == Success(m, false) <==> LineAs(TrimEol(text), m)
  {
    hide ParsedTagged;
    hide ParsedBody;
    hide BodyAs;
    hide ParsedTags;
    hide TrimEol;
    var line := TrimEol(text);
    if HasForbidden(line) || line == [] {
    } else if line[0] == 0x40 {
      if !m.forceTrailing {
        TaggedIff(line, m);
      } else if ParsedTagged(line, 0, 0) == Success(m, false) {
        TaggedNotForced(line);
      }
    } else {
      BodyIff(EMPTY, line, m.source, m.command, m.params);
      if ParsedBody(EMPTY, line) == Success(m, false) {
        BodyRead(EMPTY, line);
      }
      assert EMPTY.(source := m.source, command := m.command, params := m.params) ==
             Msg(m.source, m.command, m.params, false, map[], map[]);
    }
  }

  lemma {:induction false} TaggedNotForced(line: Bytes)
    requires line != [] && ParsedTagged(line, 0, 0).Success?
    ensures !ParsedTagged(line, 0, 0).msg.forceTrailing
  {
    hide ParsedBody;
    hide ParsedTags;
    var end := IndexByte(line, SPACE);
    TagsOnly(line[1..end]);
    BodyRead(ParsedTags(EMPTY, line[1..end]).value, line[end + 1..]);
  }

  /** The terminator: one newline is removed, and then one carriage return. */
  lemma {:induction false} TerminatorMeans(line: Bytes)
    ensures TrimEol(line + [0x0D, 0x0A]) == line
    ensures line == [] || line[|line| - 1] != 0x0D ==> TrimEol(line + [0x0A]) == line
    ensures line == [] || (line[|line| - 1] != 0x0D && line[|line| - 1] != 0x0A) ==> TrimEol(line) == line
  {
    assert (line + [0x0D, 0x0A])[..|line| + 1] == line + [0x0D];
    assert (line + [0x0D])[..|line|] == line;
  }

  // ----- the command, for all limits -----

  /** Where the body stands in the line. */
  lemma {:induction false} ParsedFromBody(text: Bytes, max: int, truncateLen: int) returns (pre: Bytes, body: Bytes, m0: Msg)
    requires Parse(text, max, truncateLen).Success?
    ensures pre + body <= TrimEol(text) && m0.source == [] && AtWord(pre)
    ensures ParsedBody(m0, body).Success? && ParsedBody(m0, body).msg == Parse(text, max, truncateLen).msg
  {
    hide TrimEol;
    hide ParsedBody;
    hide ParsedTags;
    hide Utf8.Truncated;
    var line := TrimEol(text);
    var whole: Bytes;
    if line[0] == AT {
      var end := IndexByte(line, SPACE);
      TagsOnly(line[1..end]);
      pre, whole, m0 := line[..end + 1], line[end + 1..], ParsedTags(EMPTY, line[1..end]).value;
    } else {
      pre, whole, m0 := [], line, EMPTY;
    }
    body := whole;
    if truncateLen != 0 && truncateLen - 2 < |whole| {
      body := Utf8.Truncated(whole, truncateLen - 2).value;
      TruncatedPrefix(whole, truncateLen - 2);
    }
    assert line == pre + whole;
  }

  lemma {:induction false} TruncatedPrefix(s: Bytes, limit: int)
    requires Utf8.Truncated(s, limit).Some?
    ensures Utf8.Truncated(s, limit).value <= s
  {
  }

  /** A word may start behind this text. */
  predicate AtWord(pre: Bytes) {
    pre == [] || pre[|pre| - 1] == 0x20
  }

  lemma {:induction false} CommandInBody(text: Bytes, source: Bytes, command: Bytes, params: seq<Bytes>)
    returns (lead: Bytes, body: Bytes)
    requires BodyAs(text, source, command, params)
    ensures text == lead + body && CommandAs(body, command, params) && AtWord(lead)
  {
    hide CommandAs;
    var sp, rest :| Spaces(sp) && SourceAs(rest, source, command, params) && text == sp + rest;
    if rest != [] && rest[0] != 0x3A {
      return sp, rest;
    }
    var next :| rest == [0x3A] + source + [0x20] + next && CommandAs(next, command, params);
    lead, body := sp + [0x3A] + source + [0x20], next;
  }

  lemma {:induction false} WordInBody(text: Bytes, source: Bytes, command: Bytes, params: seq<Bytes>)
    returns (before: Bytes, w: Bytes)
    requires BodyAs(text, source, command, params)
    ensures Word(w) && UpperCased(w, command) && before + w <= text && AtWord(before)
  {
    var lead, body := CommandInBody(text, source, command, params);
    hide BodyAs;
    hide TailAs;
    hide Word;
    hide UpperCased;
    var sp, word, tail :|
      Spaces(sp) && Word(word) && TailAs(tail, params) && UpperCased(word, command) && body == sp + word + tail;
    before, w := lead + sp, word;
    assert text == before + w + tail;
  }

  /** Under every limit: the command of a parsed message has no lower-case letter, and it is the
      upper case of a word of the line that starts the line or follows a space. */
  lemma {:induction false} CommandIsUpper(text: Bytes, max: int, truncateLen: int)
    requires Parse(text, max, truncateLen).Success?
    ensures var c := Parse(text, max, truncateLen).msg.command;
            && (forall i :: 0 <= i < |c| ==> !(0x61 <= c[i] <= 0x7A))
            && exists pre, w ::
                 && Word(w) && UpperCased(w, c) && pre + w <= TrimEol(text)
                 && AtWord(pre)
  {
    hide Parse;
    hide TrimEol;
    hide ParsedBody;
    hide BodyAs;
    var pre, body, m0 := ParsedFromBody(text, max, truncateLen);
    BodyRead(m0, body);
    var m := ParsedBody(m0, body).msg;
    var before, w := WordInBody(body, m.source, m.command, m.params);
    var front := pre + before;
    assert front + w <= pre + body;
    assert AtWord(front);
  }
}
