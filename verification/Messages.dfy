/** IRC messages: the parser and the printer of ircmsg/message.go. */
module Messages {
  import opened ByteStrings
  import Utf8
  import Tags

  datatype Error =
    | LineIsEmpty
    | BadChar
    | BodyTooLong
    | TagsTooLong
    | InvalidTagContent
    | CommandMissing
    | BadParam

  const MAXLEN_TAG_DATA := 8189
  const MAXLEN_CLIENT_TAG_DATA := 4094
  const MAXLEN_SERVER_TAG_DATA := 4094
  const MAXLEN_TAGS_FROM_CLIENT := 4096

  type TagMap = map<Bytes, Bytes>
  type Pair = (Bytes, Bytes)

  /** The value of a message. An absent tag map and an empty one are the same. */
  datatype Msg = Msg(
    source: Bytes,
    command: Bytes,
    params: seq<Bytes>,
    forceTrailing: bool,
    tags: TagMap,
    clientTags: TagMap)

  const EMPTY: Msg := Msg([], [], [], false, map[], map[])

  // ----- tags of a message -----

  predicate IsClientOnly(name: Bytes) {
    name != [] && name[0] == PLUS
  }

  /** Each tag sits in the map its name calls for. */
  predicate WellTagged(m: Msg) {
    && (forall n :: n in m.tags ==> n != [] && !IsClientOnly(n))
    && (forall n :: n in m.clientTags ==> IsClientOnly(n))
  }

  function WithTag(m: Msg, name: Bytes, value: Bytes): (r: Msg)
    ensures WellTagged(m) ==> WellTagged(r)
  {
    if name == [] then m
    else if IsClientOnly(name) then m.(clientTags := m.clientTags[name := value])
    else m.(tags := m.tags[name := value])
  }

  function TagOf(m: Msg, name: Bytes): (r: Option<Bytes>) {
    var ms := if IsClientOnly(name) then m.clientTags else m.tags;
    if name != [] && name in ms then Some(ms[name]) else None
  }

  lemma {:induction false} TagOfWithTag(m: Msg, name: Bytes, value: Bytes, other: Bytes)
    ensures TagOf(WithTag(m, name, value), other) ==
            if other == name && name != [] then Some(value) else TagOf(m, other)
  {
  }

  // ----- parsing -----

  datatype Parsed =
    | Success(msg: Msg, cut: bool) // `cut` is the non-fatal "body too long"
    | Failure(err: Error)
    | Panic

  function TrimEol(s: Bytes): (r: Bytes) {
    TrimLast(TrimLast(s, LF), CR)
  }

  function TrimSpaces(s: Bytes): (r: Bytes)
    ensures |r| <= |s|
    ensures r == [] || r[0] != SPACE
  {
    if s != [] && s[0] == SPACE then TrimSpaces(s[1..]) else s
  }

  predicate HasForbidden(s: Bytes) {
    NUL in s || LF in s || CR in s
  }

  predicate IsAscii(s: Bytes) {
    forall i :: 0 <= i < |s| ==> s[i] <= 127
  }

  function UpperByte(b: byte): (r: byte) {
    if 0x61 <= b <= 0x7A then b - 0x20 else b
  }

  /** strings.ToUpper on ASCII text. */
  function ToUpper(s: Bytes): (r: Bytes)
    ensures |r| == |s|
    ensures forall i :: 0 <= i < |s| ==> r[i] == UpperByte(s[i])
  {
    seq(|s|, i requires 0 <= i < |s| => UpperByte(s[i]))
  }

  /** No ASCII letter is lower-case. */
  predicate NoLowerCase(s: Bytes) {
    forall i :: 0 <= i < |s| ==> !(0x61 <= s[i] <= 0x7A)
  }

  lemma {:induction false} UpperFixed(s: Bytes)
    ensures ToUpper(s) == s <==> NoLowerCase(s)
    ensures NoLowerCase(ToUpper(s))
  {
    if ToUpper(s) == s {
      forall i | 0 <= i < |s| ensures !(0x61 <= s[i] <= 0x7A) {
        assert ToUpper(s)[i] == s[i];
      }
    }
  }

  /** The tag data up to the separator, and what follows it. */
  function FirstPair(tags: Bytes): (r: Bytes) {
    var end := IndexByte(tags, SEMICOLON);
    if end == -1 then tags else tags[..end]
  }

  function AfterPair(tags: Bytes): (r: Bytes)
    requires tags != []
    ensures |r| < |tags|
  {
    var end := IndexByte(tags, SEMICOLON);
    if end == -1 then [] else tags[end + 1..]
  }

  /** One tag: ignored under an invalid name, fatal (None) if its value is not UTF-8. */
  function AddPair(m: Msg, pair: Bytes): (r: Option<Msg>) {
    if !Tags.ValidTagName(NameOf(pair)) then Some(m)
    else if !Utf8.Valid(ValueOf(pair)) then None
    else Some(WithTag(m, NameOf(pair), Tags.Unescape(ValueOf(pair))))
  }

  function ParsedTags(m: Msg, tags: Bytes): (r: Option<Msg>)
    decreases |tags|
  {
    if tags == [] then Some(m)
    else
      match AddPair(m, FirstPair(tags))
      case None => None
      case Some(n) => ParsedTags(n, AfterPair(tags))
  }

  function ParsedParams(line: Bytes): (r: seq<Bytes>)
    decreases |line|
  {
    var l := TrimSpaces(line);
    if l == [] then []
    else if l[0] == COLON then [l[1..]]
    else
      var end := IndexByte(l, SPACE);
      if end == -1 then [l] else [l[..end]] + ParsedParams(l[end + 1..])
  }

  function ParsedCommand(m: Msg, line: Bytes): (r: Parsed) {
    var l := TrimSpaces(line);
    var end := IndexByte(l, SPACE);
    var command := if end == -1 then l else l[..end];
    var rest := if end == -1 then [] else l[end + 1..];
    if command == [] then Failure(LineIsEmpty)
    else if !IsAscii(command) then Failure(BadChar)
    else Success(m.(command := ToUpper(command), params := ParsedParams(rest)), false)
  }

  function ParsedBody(m: Msg, body: Bytes): (r: Parsed) {
    var l := TrimSpaces(body);
    if l != [] && l[0] == COLON then
      var end := IndexByte(l, SPACE);
      if end == -1 then Failure(LineIsEmpty)
      else ParsedCommand(m.(source := l[1..end]), l[end + 1..])
    else ParsedCommand(m, l)
  }

  /** The body after the tag section, cut to `limit` bytes if there is a limit. */
  function ParsedCut(m: Msg, body: Bytes, truncateLen: int): (r: Parsed) {
    if truncateLen != 0 && truncateLen - 2 < |body| then
      match Utf8.Truncated(body, truncateLen - 2)
      case None => Panic
      case Some(short) =>
        var r := ParsedBody(m, short);
        if r.Success? then r.(cut := true) else r
    else ParsedBody(m, body)
  }

  /** A line that starts with a tag section. */
  function ParsedTagged(line: Bytes, maxTagData: int, truncateLen: int): (r: Parsed)
    requires line != []
  {
    var tagEnd := IndexByte(line, SPACE);
    if tagEnd <= 0 then Failure(LineIsEmpty)
    else if 0 < maxTagData < tagEnd - 1 then Failure(TagsTooLong)
    else
      match ParsedTags(EMPTY, line[1..tagEnd])
      case None => Failure(InvalidTagContent)
      case Some(m) => ParsedCut(m, line[tagEnd + 1..], truncateLen)
  }

  function Parse(text: Bytes, maxTagData: int, truncateLen: int): (r: Parsed) {
    var line := TrimEol(text);
    if truncateLen != 0 && truncateLen <= 2 then Failure(LineIsEmpty)
    else if HasForbidden(line) then Failure(BadChar)
    else if line == [] then Failure(LineIsEmpty)
    else if line[0] != AT then ParsedCut(EMPTY, line, truncateLen)
    else ParsedTagged(line, maxTagData, truncateLen)
  }

  // ----- printing -----

  datatype Printed =
    | Line(bytes: Bytes, cut: bool) // `cut` is the non-fatal "body too long"
    | Refused(err: Error)
    | Crash

  function TagText(p: Pair): (r: Bytes) {
    p.0 + if p.1 == [] then [] else [EQUALS] + Tags.Escape(p.1)
  }

  function JoinTags(ps: seq<Pair>): (r: Bytes) {
    if ps == [] then []
    else
      var n := |ps| - 1;
      (if n == 0 then [] else JoinTags(ps[..n]) + [SEMICOLON]) + TagText(ps[n])
  }

  /** `ps` lists the entries of `m`, each once, in some order. */
  predicate Enumerates(ps: seq<Pair>, m: TagMap) {
    if ps == [] then m == map[]
    else
      var n := |ps| - 1;
      ps[n].0 in m && m[ps[n].0] == ps[n].1 && Enumerates(ps[..n], m - {ps[n].0})
  }

  predicate ValidPair(p: Pair) {
    Tags.ValidTagName(p.0) && Utf8.Valid(p.1)
  }

  predicate ValidPairs(ps: seq<Pair>) {
    forall i :: 0 <= i < |ps| ==> ValidPair(ps[i])
  }

  function TagSection(ps: seq<Pair>): (r: Bytes) {
    if ps == [] then [] else [AT] + JoinTags(ps) + [SPACE]
  }

  /** Bytes charged to the client-only budget; the semicolon between the two groups is free. */
  function ClientTagLen(reg: seq<Pair>, client: seq<Pair>): (r: int) {
    |JoinTags(reg + client)| - |JoinTags(reg)| - if JoinTags(reg) != [] then 1 else 0
  }

  predicate RequiresTrailing(param: Bytes) {
    param == [] || SPACE in param || param[0] == COLON
  }

  /** None is a parameter that may only stand last. */
  function ParamText(params: seq<Bytes>, force: bool): (r: Option<Bytes>) {
    if params == [] then Some([])
    else if |params| == 1 then
      Some([SPACE] + (if force || RequiresTrailing(params[0]) then [COLON] else []) + params[0])
    else if RequiresTrailing(params[0]) then None
    else
      match ParamText(params[1..], force)
      case None => None
      case Some(rest) => Some([SPACE] + params[0] + rest)
  }

  function Head(m: Msg): (r: Bytes) {
    (if m.source == [] then [] else [COLON] + m.source + [SPACE]) + m.command
  }

  function Seal(text: Bytes, cut: bool): (r: Printed) {
    if HasForbidden(text) then Refused(BadChar) else Line(text + [CR, LF], cut)
  }

  /** The end of `line`: truncate the whole buffer if the body is too long, then terminate and validate. */
  function Finish(section: Bytes, body: Bytes, truncateLen: int): (r: Printed) {
    if truncateLen == 0 || |body| <= truncateLen - 2 then Seal(section + body, false)
    else if |section| + truncateLen - 2 < 0 then Crash
    else
      match Utf8.DropBroken((section + body)[..|section| + truncateLen - 2], 3)
      case None => Crash
      case Some(short) => Seal(short, true)
  }

  datatype Limits = Limits(tag: int, client: int, server: int, truncateLen: int)

  const NO_LIMITS := Limits(0, 0, 0, 0)

  /** What `line` produces when the two maps are walked in the orders `reg` and `client`. */
  function Print(m: Msg, reg: seq<Pair>, client: seq<Pair>, lim: Limits): (r: Printed) {
    if m.command == [] then Refused(CommandMissing)
    else if !ValidPairs(reg + client) then Refused(InvalidTagContent)
    else if 0 < lim.tag < |TagSection(reg + client)| then Refused(TagsTooLong)
    else if 0 < lim.client < ClientTagLen(reg, client) || 0 < lim.server < |JoinTags(reg)| then Refused(TagsTooLong)
    else
      match ParamText(m.params, m.forceTrailing)
      case None => Refused(BadParam)
      case Some(ps) => Finish(TagSection(reg + client), Head(m) + ps, lim.truncateLen)
  }

  function StrictLimits(fromClient: bool, truncateLen: int): (r: Limits) {
    if fromClient then Limits(MAXLEN_TAGS_FROM_CLIENT, 0, 0, truncateLen)
    else Limits(0, MAXLEN_CLIENT_TAG_DATA, MAXLEN_SERVER_TAG_DATA, truncateLen)
  }

  function StrictTagData(fromClient: bool): (r: int) {
    if fromClient then MAXLEN_CLIENT_TAG_DATA else MAXLEN_TAG_DATA
  }

  // ----- the code -----

  method TrimInitialSpaces(str: Bytes) returns (r: Bytes)
    ensures r == TrimSpaces(str)
  {
    var i := 0;
    while i < |str| && str[i] == SPACE
      invariant 0 <= i <= |str|
      invariant TrimSpaces(str) == TrimSpaces(str[i..])
    {
      assert str[i..][1..] == str[i + 1..];
      i := i + 1;
    }
    return str[i..];
  }

  method CheckAscii(str: Bytes) returns (ok: bool)
    ensures ok == IsAscii(str)
  {
    var i := 0;
    while i < |str|
      invariant 0 <= i <= |str|
      invariant forall j :: 0 <= j < i ==> str[j] <= 127
    {
      if str[i] > 127 {
        return false;
      }
      i := i + 1;
    }
    return true;
  }

  class Message {
    var source: Bytes
    var command: Bytes
    var params: seq<Bytes>
    var forceTrailing: bool
    var tags: TagMap
    var clientOnlyTags: TagMap

    function View(): (m: Msg)
      reads this
    {
      Msg(source, command, params, forceTrailing, tags, clientOnlyTags)
    }

    constructor ()
      ensures View() == EMPTY
    {
      source, command, params, forceTrailing := [], [], [], false;
      tags, clientOnlyTags := map[], map[];
    }

    method SetTag(tagName: Bytes, tagValue: Bytes)
      modifies this`tags, this`clientOnlyTags
      ensures View() == WithTag(old(View()), tagName, tagValue)
    {
      if |tagName| == 0 {
        return;
      } else if tagName[0] == PLUS {
        clientOnlyTags := clientOnlyTags[tagName := tagValue];
      } else {
        tags := tags[tagName := tagValue];
      }
    }

    method GetTag(tagName: Bytes) returns (present: bool, value: Bytes)
      ensures (if present then Some(value) else None) == TagOf(View(), tagName)
      ensures !present ==> value == []
    {
      present, value := false, [];
      if |tagName| == 0 {
        return;
      } else if tagName[0] == PLUS {
        if tagName in clientOnlyTags {
          return true, clientOnlyTags[tagName];
        }
      } else if tagName in tags {
        return true, tags[tagName];
      }
    }

    /** The first tag of the data, split into name and value, and the data behind it. */
    static method NextTag(tagData: Bytes) returns (tagName: Bytes, tagValue: Bytes, rest: Bytes)
      requires tagData != []
      ensures tagName == NameOf(FirstPair(tagData)) && tagValue == ValueOf(FirstPair(tagData))
      ensures rest == AfterPair(tagData)
    {
      hide IndexByte;
      var tagEnd := IndexByte(tagData, SEMICOLON);
      var endPos, nextPos := tagEnd, tagEnd + 1;
      if tagEnd == -1 {
        endPos, nextPos := |tagData|, |tagData|;
      }
      var tagPair := tagData[..endPos];
      assert tagPair == FirstPair(tagData);
      var equalsIndex := IndexByte(tagPair, EQUALS);
      tagName, tagValue := tagPair, [];
      if equalsIndex != -1 {
        tagName, tagValue := tagPair[..equalsIndex], tagPair[equalsIndex + 1..];
      }
      rest := tagData[nextPos..];
    }

    method ParseTags(input: Bytes, table: array<byte>) returns (ok: bool)
      requires Tags.IsTable(table)
      modifies this`tags, this`clientOnlyTags
      ensures ok <==> ParsedTags(old(View()), input).Some?
      ensures ok ==> View() == ParsedTags(old(View()), input).value
    {
      hide Tags.ValidTagName;
      hide Tags.Unescape;
      hide Utf8.Valid;
      hide NameOf;
      hide ValueOf;
      hide FirstPair;
      hide AfterPair;
      hide WithTag;
      var tagData := input;
      while 0 < |tagData|
        invariant ParsedTags(old(View()), input) == ParsedTags(View(), tagData)
        decreases |tagData|
      {
        var tagName, tagValue, rest := NextTag(tagData);
        var validName := Tags.ValidateTagName(tagName);
        if validName {
          if !Utf8.Valid(tagValue) {
            return false;
          }
          var raw := Tags.UnescapeTagValue(tagValue, table);
          SetTag(tagName, raw);
        }
        tagData := rest;
      }
      return true;
    }

    method ParseParams(rest: Bytes)
      requires params == []
      modifies this`params
      ensures params == ParsedParams(rest)
    {
      hide ParsedParams;
      hide TrimSpaces;
      hide IndexByte;
      var line := rest;
      while true
        invariant ParsedParams(rest) == params + ParsedParams(line)
        decreases |line|
      {
        ParamsFront(line);
        var trimmed := TrimInitialSpaces(line);
        if |trimmed| == 0 {
          return;
        }
        if trimmed[0] == COLON {
          params := params + [trimmed[1..]];
          return;
        }
        var paramEnd := IndexByte(trimmed, SPACE);
        if paramEnd == -1 {
          params := params + [trimmed];
          return;
        }
        var first, next := trimmed[..paramEnd], trimmed[paramEnd + 1..];
        assert params + ([first] + ParsedParams(next)) == (params + [first]) + ParsedParams(next);
        params := params + [first];
        line := next;
      }
    }

    method ParseCommand(rest: Bytes) returns (err: Option<Error>)
      requires params == []
      modifies this`command, this`params
      ensures match ParsedCommand(old(View()), rest)
              case Success(m, cut) => err == None && View() == m && !cut
              case Failure(e) => err == Some(e)
              case Panic => false
    {
      var line := TrimInitialSpaces(rest);
      var commandEnd := IndexByte(line, SPACE);
      var paramStart := commandEnd + 1;
      if commandEnd == -1 {
        commandEnd, paramStart := |line|, |line|;
      }
      var baseCommand := line[..commandEnd];
      if |baseCommand| == 0 {
        return Some(LineIsEmpty);
      }
      var ascii := CheckAscii(baseCommand);
      if !ascii {
        return Some(BadChar);
      }
      command := ToUpper(baseCommand);
      ParseParams(line[paramStart..]);
      return None;
    }

    /** From the (possibly truncated) body on. */
    method ParseBody(body: Bytes) returns (err: Option<Error>)
      requires params == []
      modifies this`source, this`command, this`params
      ensures match ParsedBody(old(View()), body)
              case Success(m, cut) => err == None && View() == m && !cut
              case Failure(e) => err == Some(e)
              case Panic => false
    {
      var line := TrimInitialSpaces(body);
      if 0 < |line| && line[0] == COLON {
        var sourceEnd := IndexByte(line, SPACE);
        if sourceEnd == -1 {
          return Some(LineIsEmpty);
        }
        source := line[1..sourceEnd];
        line := line[sourceEnd + 1..];
      }
      err := ParseCommand(line);
    }

    /** The `writeTags` closure: appends the tags of one map in an arbitrary order. */
    method WriteTags(ts: TagMap, text: Bytes, first: bool, ghost before: seq<Pair>)
      returns (buf: Bytes, firstTag: bool, allValid: bool, ghost order: seq<Pair>)
      requires text == [AT] + JoinTags(before) && first == (before == [])
      ensures Enumerates(order, ts)
      ensures buf == [AT] + JoinTags(before + order) && firstTag == (before + order == [])
      ensures allValid == ValidPairs(order)
    {
      hide JoinTags;
      hide ValidPair;
      buf, firstTag, allValid, order := text, first, true, [];
      var left := ts.Keys;
      ghost var written := before;
      assert ts - left == map[];
      while left != {}
        invariant left <= ts.Keys && Enumerates(order, ts - left)
        invariant written == before + order
        invariant buf == [AT] + JoinTags(written) && firstTag == (written == [])
        invariant allValid == ValidPairs(order)
      {
        var tag :| tag in left;
        ghost var p := (tag, ts[tag]);
        var valid := CheckTag(tag, ts[tag]);
        allValid := allValid && valid;
        buf := WriteTag(buf, firstTag, tag, ts[tag], written);
        EnumerateNext(ts, left, tag, order);
        ValidPairsConcat(order, [p]);
        written := written + [p];
        order := order + [p];
        firstTag := false;
        left := left - {tag};
      }
      assert ts - {} == ts;
    }

    static method CheckTag(tag: Bytes, val: Bytes) returns (ok: bool)
      ensures ok == ValidPairs([(tag, val)])
    {
      ok := Tags.ValidateTagName(tag);
      ok := ok && Utf8.Valid(val);
      ghost var ps := [(tag, val)];
      assert ps[0] == (tag, val);
    }

    static method WriteTag(text: Bytes, firstTag: bool, tag: Bytes, val: Bytes, ghost before: seq<Pair>)
      returns (buf: Bytes)
      requires text == [AT] + JoinTags(before) && firstTag == (before == [])
      ensures buf == [AT] + JoinTags(before + [(tag, val)])
    {
      hide Tags.Escape;
      buf := text;
      if !firstTag {
        buf := buf + [SEMICOLON];
      }
      ghost var lead := buf;
      buf := buf + tag;
      if val != [] {
        buf := buf + [EQUALS];
        buf := buf + Tags.Escape(val);
      }
      assert buf == lead + TagText((tag, val));
      JoinMore(before, (tag, val));
    }

    method WriteParams(text: Bytes) returns (buf: Bytes, ok: bool)
      ensures ok <==> ParamText(params, forceTrailing).Some?
      ensures ok ==> buf == text + ParamText(params, forceTrailing).value
    {
      buf := text;
      var i := 0;
      while i < |params|
        invariant 0 <= i <= |params|
        invariant ParamText(params, forceTrailing).Some? <==> ParamText(params[i..], forceTrailing).Some?
        invariant ParamText(params, forceTrailing).Some? ==>
                    text + ParamText(params, forceTrailing).value == buf + ParamText(params[i..], forceTrailing).value
      {
        var param := params[i];
        assert params[i..][0] == param && params[i..][1..] == params[i + 1..];
        buf := buf + [SPACE];
        var requiresTrailing := RequiresTrailing(param);
        var lastParam := i == |params| - 1;
        if (requiresTrailing || forceTrailing) && lastParam {
          buf := buf + [COLON];
        } else if requiresTrailing && !lastParam {
          return buf, false;
        }
        buf := buf + param;
        i := i + 1;
      }
      return buf, true;
    }

    /** The tag section and its two charged lengths. */
    method WriteTagSection() returns (buf: Bytes, lenRegular: int, lenClient: int, allValid: bool,
                                      ghost reg: seq<Pair>, ghost client: seq<Pair>)
      ensures Enumerates(reg, tags) && Enumerates(client, clientOnlyTags)
      ensures buf == TagSection(reg + client)
      ensures lenRegular == |JoinTags(reg)| && lenClient == ClientTagLen(reg, client)
      ensures allValid == ValidPairs(reg + client)
    {
      if tags == map[] && clientOnlyTags == map[] {
        assert ValidPairs([]);
        return [], 0, 0, true, [], [];
      }
      buf := [AT];
      var first, validReg, validClient;
      buf, first, validReg, reg := WriteTags(tags, buf, true, []);
      assert [] + reg == reg;
      lenRegular := |buf| - 1;
      buf, first, validClient, client := WriteTags(clientOnlyTags, buf, first, reg);
      assert reg + client != [];
      lenClient := |buf| - 1 - lenRegular;
      if lenRegular != 0 {
        lenClient := lenClient - 1;
      }
      buf := buf + [SPACE];
      allValid := validReg && validClient;
      ValidPairsConcat(reg, client);
    }

    /** `line`: the orders in which the maps were walked are reported as ghosts. */
    method Line(lim: Limits) returns (r: Printed, ghost reg: seq<Pair>, ghost client: seq<Pair>)
      ensures r == Print(View(), reg, client, lim)
      ensures r != Refused(CommandMissing) ==> Enumerates(reg, tags) && Enumerates(client, clientOnlyTags)
    {
      hide Finish;
      hide JoinTags;
      hide ParamText;
      if |command| == 0 {
        return Refused(CommandMissing), [], [];
      }
      var buf, lenRegular, lenClient, allValid;
      buf, lenRegular, lenClient, allValid, reg, client := WriteTagSection();
      if !allValid {
        return Refused(InvalidTagContent), reg, client;
      }
      if 0 < lim.tag < |buf| {
        return Refused(TagsTooLong), reg, client;
      }
      if 0 < lim.client < lenClient || 0 < lim.server < lenRegular {
        return Refused(TagsTooLong), reg, client;
      }
      var section := buf;
      var body: Bytes := [];
      if |source| > 0 {
        body := [COLON] + source + [SPACE];
      }
      body := body + command;
      var ok;
      body, ok := WriteParams(body);
      if !ok {
        return Refused(BadParam), reg, client;
      }
      r := Complete(section, body, lim.truncateLen);
    }
  }

  /** Truncation, CRLF and validation at the end of `line`; `section + body` is the buffer. */
  method Complete(section: Bytes, body: Bytes, truncateLen: int) returns (r: Printed)
    ensures r == Finish(section, body, truncateLen)
  {
    hide Utf8.LastRuneLen;
    var buf := section + body;
    var cut := false;
    if truncateLen != 0 && truncateLen - 2 < |buf| - |section| {
      cut := true;
      var newBufLen := |section| + (truncateLen - 2);
      if newBufLen < 0 {
        return Crash;
      }
      buf := buf[..newBufLen];
      var i := 0;
      while i < 3
        invariant 0 <= i <= 3 && newBufLen == |buf|
        invariant Utf8.DropBroken((section + body)[..|section| + truncateLen - 2], 3) == Utf8.DropBroken(buf, 3 - i)
      {
        var bad, n := Utf8.DecodeLastRune(buf);
        if !bad {
          break;
        }
        newBufLen := newBufLen - 1;
        if newBufLen < 0 {
          return Crash;
        }
        buf := buf[..newBufLen];
        i := i + 1;
      }
    }
    if HasForbidden(buf) {
      return Refused(BadChar);
    }
    return Line(buf + [CR, LF], cut);
  }

  /** parseLine. On success the message object holds the result. */
  method ParseLine(text: Bytes, maxTagDataLength: int, truncateLen: int)
    returns (m: Message, r: Parsed)
    ensures fresh(m)
    ensures r == Parse(text, maxTagDataLength, truncateLen)
    ensures r.Success? ==> m.View() == r.msg
  {
    hide ParsedTagged;
    hide ParsedCut;
    m := new Message();
    var line := TrimLast(TrimLast(text, LF), CR);
    var limit := truncateLen;
    if limit != 0 {
      if limit <= 2 {
        return m, Failure(LineIsEmpty);
      }
      limit := limit - 2;
    }
    if HasForbidden(line) {
      return m, Failure(BadChar);
    }
    if |line| < 1 {
      return m, Failure(LineIsEmpty);
    }
    if line[0] == AT {
      r := ParseTagged(m, line, maxTagDataLength, limit);
    } else {
      r := ParseRest(m, line, limit);
    }
  }

  method ParseTagged(m: Message, line: Bytes, maxTagDataLength: int, limit: nat) returns (r: Parsed)
    requires m.View() == EMPTY && line != [] && line[0] == AT
    modifies m
    ensures r == ParsedTagged(line, maxTagDataLength, if limit == 0 then 0 else limit + 2)
    ensures r.Success? ==> m.View() == r.msg
  {
    hide ParsedTags;
    hide ParsedCut;
    var tagEnd := IndexByte(line, SPACE);
    if tagEnd == -1 {
      return Failure(LineIsEmpty);
    }
    var tagData := line[1..tagEnd];
    if 0 < maxTagDataLength && maxTagDataLength < |tagData| {
      return Failure(TagsTooLong);
    }
    var table := Tags.InitTable();
    var ok := m.ParseTags(tagData, table);
    if !ok {
      return Failure(InvalidTagContent);
    }
    assert ParsedTags(EMPTY, tagData) == Some(m.View());
    r := ParseRest(m, line[tagEnd + 1..], limit);
  }

  method ParseRest(m: Message, body: Bytes, limit: nat) returns (r: Parsed)
    requires m.params == []
    modifies m
    ensures r == ParsedCut(old(m.View()), body, if limit == 0 then 0 else limit + 2)
    ensures r.Success? ==> m.View() == r.msg
  {
    hide ParsedBody;
    hide Utf8.Truncated;
    var line := body;
    var cut := false;
    if limit != 0 && limit < |line| {
      cut := true;
      var short := Utf8.TruncateUTF8Safe(line, limit);
      if short.None? {
        return Panic;
      }
      line := short.value;
    }
    var err := m.ParseBody(line);
    match err {
      case None => return Success(m.View(), cut);
      case Some(e) => return Failure(e);
    }
  }

  // ----- one parameter at a time -----

  lemma {:induction false} ParamsFront(line: Bytes)
    ensures var l := TrimSpaces(line);
            var end := IndexByte(l, SPACE);
            ParsedParams(line) ==
            if l == [] then []
            else if l[0] == COLON then [l[1..]]
            else if end == -1 then [l]
            else [l[..end]] + ParsedParams(l[end + 1..])
  {
  }

  // ----- enumeration orders -----

  lemma {:induction false} JoinMore(ps: seq<Pair>, p: Pair)
    ensures JoinTags(ps + [p]) == (if ps == [] then [] else JoinTags(ps) + [SEMICOLON]) + TagText(p)
  {
    assert (ps + [p])[..|ps|] == ps;
  }

  lemma {:induction false} EnumerateNext(all: TagMap, left: set<Bytes>, k: Bytes, ps: seq<Pair>)
    requires k in left && left <= all.Keys && Enumerates(ps, all - left)
    ensures Enumerates(ps + [(k, all[k])], all - (left - {k}))
  {
    EnumeratesMore(ps, all - left, (k, all[k]));
    assert (all - left)[k := all[k]] == all - (left - {k});
  }

  lemma {:induction false} EnumeratesMore(ps: seq<Pair>, m: TagMap, p: Pair)
    requires Enumerates(ps, m) && p.0 !in m
    ensures Enumerates(ps + [p], m[p.0 := p.1])
  {
    assert (ps + [p])[..|ps|] == ps;
    assert m[p.0 := p.1] - {p.0} == m;
  }

  lemma {:induction false} ValidPairsConcat(a: seq<Pair>, b: seq<Pair>)
    ensures ValidPairs(a + b) <==> ValidPairs(a) && ValidPairs(b)
  {
    if ValidPairs(a + b) {
      forall i | 0 <= i < |b| ensures ValidPair(b[i]) {
        assert b[i] == (a + b)[|a| + i];
      }
      forall i | 0 <= i < |a| ensures ValidPair(a[i]) {
        assert a[i] == (a + b)[i];
      }
    }
  }
}
