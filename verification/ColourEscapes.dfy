/** `$` escapes (Unescape of ircfmt/ircfmt.go): colour names become codes that Split reads back. */
module ColourEscapes {
  import opened ByteStrings
  import opened Formatting

  const DOLLAR: byte := 0x24
  const LETTER_C: byte := 0x63
  const OPEN: byte := 0x5B
  const CLOSE: byte := 0x5D
  const ZERO: byte := 0x30

  /** Bytes read as characters, to compare them with names. */
  function AsText(s: Bytes): (r: string)
    ensures |r| == |s|
  {
    seq(|s|, i requires 0 <= i < |s| => s[i] as char)
  }

  // ----- colour names -----

  /** colourcodesTruncated, in two parts. */
  function NamedCode(name: string): (r: Bytes)
    ensures IsCode(r)
  {
    if PrimaryCode(name) != [] then PrimaryCode(name) else SecondaryCode(name)
  }

  function PrimaryCode(name: string): (r: Bytes)
    ensures IsCode(r)
  {
    if name == "white" then [0x30]
    else if name == "black" then [0x31]
    else if name == "blue" then [0x32]
    else if name == "green" then [0x33]
    else if name == "red" then [0x34]
    else if name == "brown" then [0x35]
    else if name == "magenta" then [0x36]
    else if name == "orange" then [0x37]
    else if name == "yellow" then [0x38]
    else []
  }

  function SecondaryCode(name: string): (r: Bytes)
    ensures IsCode(r)
  {
    if name == "light green" then [0x39]
    else if name == "cyan" then [0x31, 0x30]
    else if name == "light cyan" then [0x31, 0x31]
    else if name == "light blue" then [0x31, 0x32]
    else if name == "pink" then [0x31, 0x33]
    else if name == "grey" || name == "gray" then [0x31, 0x34]
    else if name == "light grey" || name == "light gray" then [0x31, 0x35]
    else if name == "default" then [0x39, 0x39]
    else []
  }

  /** Empty, or a code of one or two digits. */
  predicate IsCode(s: Bytes) {
    |s| <= 2 && AllDigits(s)
  }

  /** Length of the white-space character that ends `s`, 0 if there is none. */
  function SpaceEnd(s: Bytes): (n: nat)
    ensures n <= |s|
  {
    if |s| > 0 && SpaceLen(s[|s| - 1..]) == 1 then 1
    else if |s| > 1 && SpaceLen(s[|s| - 2..]) == 2 then 2
    else if |s| > 2 && SpaceLen(s[|s| - 3..]) == 3 then 3
    else 0
  }

  function TrimFront(s: Bytes): (r: Bytes)
    decreases |s|
  {
    if SpaceLen(s) > 0 then TrimFront(s[SpaceLen(s)..]) else s
  }

  function TrimBack(s: Bytes): (r: Bytes)
    decreases |s|
  {
    if SpaceEnd(s) > 0 then TrimBack(s[..|s| - SpaceEnd(s)]) else s
  }

  function LowerByte(b: byte): (r: byte) {
    if 0x41 <= b <= 0x5A then b + 0x20 else b
  }

  /** strings.ToLower as far as it yields ASCII: the letters, U+0130 to `i` and U+212A to `k`.
      What it makes of other characters is not ASCII and so in no name and no number. */
  function Lower(s: Bytes): (r: Bytes) {
    if s == [] then []
    else if |s| > 1 && s[0] == 0xC4 && s[1] == 0xB0 then [0x69] + Lower(s[2..])
    else if |s| > 2 && s[0] == 0xE2 && s[1] == 0x84 && s[2] == 0xAA then [0x6B] + Lower(s[3..])
    else [LowerByte(s[0])] + Lower(s[1..])
  }

  /** resolveToColourCode: a name or one or two digits, in any case, with space around. */
  function Resolve(str: Bytes): (r: Bytes)
    ensures IsCode(r)
  {
    var s := Lower(TrimBack(TrimFront(str)));
    if 1 <= |s| <= 2 && AllDigits(s) then s else NamedCode(AsText(s))
  }

  lemma {:induction false} LowerPlain(s: Bytes)
    requires forall i :: 0 <= i < |s| ==> 0x61 <= s[i] <= 0x7A || s[i] == SPACE
    ensures Lower(s) == s
  {
    if s != [] {
      LowerPlain(s[1..]);
    }
  }

  /** The two halves of a bracketed expression, brackets removed. */
  function ForeName(inner: Bytes): (r: Bytes) {
    var comma := IndexByte(inner, COMMA);
    if comma == -1 then inner else inner[..comma]
  }

  function BackName(inner: Bytes): (r: Bytes) {
    var comma := IndexByte(inner, COMMA);
    if comma == -1 then [] else inner[comma + 1..]
  }

  /** The code as written after the colour byte: padded where the next byte is a digit. */
  function CodeText(fore: Bytes, back: Bytes, digitNext: bool): (r: Bytes) {
    if fore == [] then []
    else if back == [] then (if |fore| == 1 && digitNext then [ZERO] else []) + fore
    else fore + [COMMA] + (if |back| == 1 && digitNext then [ZERO] else []) + back
  }

  // ----- Unescape -----

  /** Length of the bracketed expression at the front, 0 if there is none. A newline ends the search. */
  function Bracketed(s: Bytes): (n: nat)
    ensures n <= |s| && (n > 0 ==> n >= 2)
  {
    if s == [] || s[0] != OPEN then 0
    else
      var close := IndexByte(s, CLOSE);
      if close <= 0 || LF in s[..close] then 0 else close + 1
  }

  /** escapetoval: the escapes other than the colour; an unknown one is the byte itself. */
  function EscapeValue(c: byte): (r: byte) {
    if c == 0x62 then BOLD
    else if c == 0x69 then ITALIC
    else if c == 0x76 then REVERSE
    else if c == 0x73 then STRIKETHROUGH
    else if c == 0x75 then UNDERLINE
    else if c == 0x6D then MONOSPACE
    else if c == 0x72 then RESET
    else c
  }

  predicate DigitNext(s: Bytes) {
    s != [] && IsDigit(s[0])
  }

  /** The code for what stands between the brackets. */
  function ColourCode(inner: Bytes, digitNext: bool): (r: Bytes) {
    CodeText(Resolve(ForeName(inner)), Resolve(BackName(inner)), digitNext)
  }

  /** The same for what follows `$c`: the code, and how much of the text it takes up. */
  function NextColour(rest: Bytes): (r: (Bytes, nat))
    ensures r.1 <= |rest|
  {
    var n := Bracketed(rest);
    if n == 0 then ([COLOUR], 0)
    else ([COLOUR] + ColourCode(rest[1..n - 1], DigitNext(rest[n..])), n)
  }

  /** What the front of the input turns into, and how much of it is used up. */
  function NextEscape(s: Bytes): (r: (Bytes, nat))
    requires s != []
    ensures 0 < r.1 <= |s|
  {
    if s[0] != DOLLAR || |s| == 1 then ([s[0]], 1)
    else if s[1] != LETTER_C then ([EscapeValue(s[1])], 2)
    else var (code, n) := NextColour(s[2..]); (code, 2 + n)
  }

  function Unescaped(s: Bytes): (r: Bytes)
    decreases |s|
  {
    if s == [] then [] else NextEscape(s).0 + Unescaped(s[NextEscape(s).1..])
  }

  method Unescape(input: Bytes) returns (out: Bytes)
    ensures out == Unescaped(input)
  {
    hide NextEscape;
    out := [];
    var remaining := input;
    while |remaining| != 0
      invariant Unescaped(input) == out + Unescaped(remaining)
      decreases |remaining|
    {
      var text, rest := UnescapeNext(remaining);
      out := out + text;
      remaining := rest;
    }
  }

  /** One round of the loop in Unescape. */
  method UnescapeNext(input: Bytes) returns (out: Bytes, remaining: Bytes)
    requires input != []
    ensures out == NextEscape(input).0 && remaining == input[NextEscape(input).1..]
  {
    hide ForeName;
    hide BackName;
    hide Resolve;
    hide Bracketed;
    hide EscapeValue;
    hide CodeText;
    var c := input[0];
    remaining := input[1..];
    if c != DOLLAR || |remaining| == 0 {
      return [c], remaining;
    }
    c := remaining[0];
    remaining := remaining[1..];
    assert remaining == input[2..];
    if c != LETTER_C {
      return [EscapeValue(c)], remaining;
    }
    var n := Bracketed(remaining);
    if n == 0 {
      return [COLOUR], remaining;
    }
    var bracket := remaining[..n];
    var inner := bracket[1..|bracket| - 1];
    assert inner == remaining[1..n - 1];
    remaining := remaining[n..];
    var foreground, background := Resolve(ForeName(inner)), Resolve(BackName(inner));
    var followedByDigit := |remaining| != 0 && 0x30 <= remaining[0] <= 0x39;
    var code := WriteCode(foreground, background, followedByDigit);
    out := [COLOUR] + code;
  }

  method WriteCode(foreground: Bytes, background: Bytes, followedByDigit: bool) returns (out: Bytes)
    ensures out == CodeText(foreground, background, followedByDigit)
  {
    out := [];
    if foreground != [] {
      if |foreground| == 1 && background == [] && followedByDigit {
        out := out + [ZERO];
      }
      out := out + foreground;
      if background != [] {
        out := out + [COMMA];
        if |background| == 1 && followedByDigit {
          out := out + [ZERO];
        }
        out := out + background;
      }
    }
  }

  // ----- codes are unambiguous -----

  lemma {:induction false} PadKeepsColor(d: byte)
    requires IsDigit(d)
    ensures ParseColor([ZERO, d]) == ParseColor([d])
  {
    assert [ZERO, d][..1] == [ZERO] && [ZERO][..0] == [] && [d][..0] == [];
    assert Decimal([ZERO]) == 0;
    assert Decimal([ZERO, d]) == d - 0x30 == Decimal([d]);
  }

  function Padded(code: Bytes, digitNext: bool): (r: Bytes) {
    (if |code| == 1 && digitNext then [ZERO] else []) + code
  }

  /** A padded code in front of text is read as that code and no further. */
  lemma {:induction false} ReadPadded(code: Bytes, text: Bytes)
    requires IsCode(code) && code != []
    ensures var p := Padded(code, DigitNext(text));
            && DigitRun(p + text) == |p| && (p + text)[..|p|] == p && (p + text)[|p|..] == text
            && ParseColor(p) == ParseColor(code)
  {
    var p := Padded(code, DigitNext(text));
    if |code| == 1 && DigitNext(text) {
      PadKeepsColor(code[0]);
      assert p == [ZERO, code[0]] && code == [code[0]];
    } else {
      assert p == code;
    }
    assert (p + text)[0] == p[0];
    assert |p| == 2 ==> (p + text)[1] == p[1];
    assert |p| == 1 && text != [] ==> (p + text)[1] == text[0];
  }

  lemma {:induction false} ReadFore(fore: Bytes, rest: Bytes)
    requires IsCode(fore) && fore != [] && (rest == [] || !IsDigit(rest[0]))
    ensures DigitRun(fore + rest) == |fore| && (fore + rest)[..|fore|] == fore && (fore + rest)[|fore|..] == rest
  {
    var all := fore + rest;
    assert all[0] == fore[0];
    assert |fore| == 2 ==> all[1] == fore[1];
    assert |fore| == 1 && rest != [] ==> all[1] == rest[0];
  }

  predicate CommaDigit(text: Bytes) {
    |text| >= 2 && text[0] == COMMA && IsDigit(text[1])
  }

  /** What the colour byte and its code do to the style, and what text is left. */
  lemma {:induction false} ApplyForeOnly(fore: Bytes, text: Bytes)
    requires IsCode(fore) && fore != []
    ensures var r := ApplyColor(PLAIN, CodeText(fore, [], DigitNext(text)) + text);
            if CommaDigit(text) then |r.1| < |text|
            else r == (PLAIN.(foreground := ParseColor(fore)), text)
  {
    hide ParseColor;
    ReadPadded(fore, text);
    var p := Padded(fore, DigitNext(text));
    var all := p + text;
    assert CodeText(fore, [], DigitNext(text)) == p;
    assert text != [] ==> all[|p|] == text[0] && all[|p| + 1..] == text[1..];
  }

  lemma {:induction false} ApplyTwoCodes(all: Bytes, n: nat, k: nat)
    requires DigitRun(all) == n > 0 && n < |all| && all[n] == COMMA && DigitRun(all[n + 1..]) == k > 0
    ensures ApplyColor(PLAIN, all) ==
            (PLAIN.(foreground := ParseColor(all[..n]), background := ParseColor(all[n + 1..][..k])), all[n + 1..][k..])
  {
    hide ParseColor;
    hide DigitRun;
    assert all[n + 1..][..k] == all[n + 1..n + 1 + k] && all[n + 1..][k..] == all[n + 1 + k..];
  }

  lemma {:induction false} CodeTextBoth(fore: Bytes, back: Bytes, text: Bytes, digitNext: bool)
    requires fore != [] && back != []
    ensures CodeText(fore, back, digitNext) + text == fore + ([COMMA] + (Padded(back, digitNext) + text))
  {
    var pad := if |back| == 1 && digitNext then [ZERO] else [];
    assert fore + [COMMA] + pad + back + text == fore + ([COMMA] + ((pad + back) + text));
  }

  lemma {:induction false} ApplyForeBack(fore: Bytes, back: Bytes, text: Bytes)
    requires IsCode(fore) && fore != [] && IsCode(back) && back != []
    ensures ApplyColor(PLAIN, CodeText(fore, back, DigitNext(text)) + text) ==
            (PLAIN.(foreground := ParseColor(fore), background := ParseColor(back)), text)
  {
    hide ParseColor;
    hide DigitRun;
    hide IsCode;
    hide ApplyColor;
    hide CodeText;
    hide Padded;
    hide DigitNext;
    var p := Padded(back, DigitNext(text));
    var tail := [COMMA] + (p + text);
    var all := fore + tail;
    CodeTextBoth(fore, back, text, DigitNext(text));
    ReadFore(fore, tail);
    ReadPadded(back, text);
    PaddedNonempty(back, DigitNext(text));
    assert tail[1..] == p + text;
    assert all[|fore|] == COMMA && all[|fore| + 1..] == p + text;
    ApplyTwoCodes(all, |fore|, |p|);
  }

  lemma {:induction false} PaddedNonempty(code: Bytes, digitNext: bool)
    requires code != []
    ensures Padded(code, digitNext) != []
  {
  }

  lemma {:induction false} PlainUnescaped(text: Bytes)
    requires DOLLAR !in text
    ensures Unescaped(text) == text
  {
    if text != [] {
      assert text[0] in text;
      assert DOLLAR !in text[1..];
      PlainUnescaped(text[1..]);
    }
  }

  /** `$c[inner]` followed by text. */
  function Escaped(inner: Bytes, text: Bytes): (r: Bytes) {
    [DOLLAR, LETTER_C, OPEN] + inner + [CLOSE] + text
  }

  lemma {:induction false} UnescapedColour(inner: Bytes, text: Bytes)
    requires CLOSE !in inner && LF !in inner && DOLLAR !in text
    ensures Unescaped(Escaped(inner, text)) ==
            [COLOUR] + CodeText(Resolve(ForeName(inner)), Resolve(BackName(inner)), DigitNext(text)) + text
  {
    hide Resolve;
    hide CodeText;
    var s := Escaped(inner, text);
    var bracket := [OPEN] + inner + [CLOSE];
    var rest := bracket + text;
    assert s[0] == DOLLAR && s[1] == LETTER_C && s[2..] == rest;
    IndexAfter([OPEN] + inner, CLOSE, text);
    assert rest == [OPEN] + inner + [CLOSE] + text;
    assert rest[..|inner| + 1] == [OPEN] + inner;
    assert Bracketed(rest) == |bracket|;
    assert rest[..|bracket|] == bracket && rest[|bracket|..] == text;
    assert bracket[1..|bracket| - 1] == inner;
    assert s[2 + |bracket|..] == text;
    PlainUnescaped(text);
  }

  lemma {:induction false} SplitAfterColour(code: Bytes, text: Bytes)
    ensures var r := ApplyColor(PLAIN, code + text);
            SplitFrom(PLAIN, [COLOUR] + code + text) == SplitFrom(r.0, r.1)
  {
    hide ApplyColor;
    hide SplitFrom;
    var s := [COLOUR] + code + text;
    assert s[1..] == code + text && s[0] == COLOUR;
    SplitStep(PLAIN, s);
    assert NextMeta(s) == 0;
    assert TextChunk(s[..0], PLAIN) == [];
  }

  lemma {:induction false} SplitBound(style: Style, raw: Bytes)
    ensures |Contents(SplitFrom(style, raw))| <= |raw|
    decreases |raw|
  {
    hide ApplyMeta;
    hide SplitFrom;
    var n := NextMeta(raw);
    SplitStep(style, raw);
    var head := TextChunk(raw[..n], style);
    if n < |raw| {
      var (next, rest) := ApplyMeta(style, raw[n], raw[n + 1..]);
      SplitBound(next, rest);
      assert head != [] ==> (head + SplitFrom(next, rest))[1..] == SplitFrom(next, rest);
      assert head == [] ==> head + SplitFrom(next, rest) == SplitFrom(next, rest);
    }
  }

  /** A foreground alone: the text comes back as one chunk in that colour, digits and all,
      if and only if it does not start with a comma and a digit. */
  lemma {:induction false} ForegroundReadBack(name: Bytes, text: Bytes)
    requires Resolve(name) != [] && COMMA !in name && CLOSE !in name && LF !in name
    requires text != [] && DOLLAR !in text && NoMeta(text)
    ensures SplitFrom(PLAIN, Unescaped(Escaped(name, text)))
            == [Chunk(text, PLAIN.(foreground := ParseColor(Resolve(name))))]
            <==> !CommaDigit(text)
  {
    hide Resolve;
    hide ApplyColor;
    hide ParseColor;
    hide SplitFrom;
    hide CodeText;
    var fore := Resolve(name);
    assert BackName(name) == [] && ForeName(name) == name;
    ResolveNothing();
    UnescapedColour(name, text);
    var code := CodeText(fore, [], DigitNext(text));
    SplitAfterColour(code, text);
    ApplyForeOnly(fore, text);
    var r := ApplyColor(PLAIN, code + text);
    if CommaDigit(text) {
      SplitBound(r.0, r.1);
      var one := [Chunk(text, PLAIN.(foreground := ParseColor(fore)))];
      assert Contents(one) == text + Contents(one[1..]);
    } else {
      SplitPlainText(r.0, text);
    }
  }

  lemma {:induction false} ResolveNothing()
    ensures Resolve([]) == []
  {
  }

  /** Foreground and background: the text always comes back as one chunk in those colours. */
  lemma {:induction false} BothColoursReadBack(foreName: Bytes, backName: Bytes, text: Bytes)
    requires Resolve(foreName) != [] && Resolve(backName) != []
    requires COMMA !in foreName && CLOSE !in foreName && LF !in foreName
    requires CLOSE !in backName && LF !in backName
    requires text != [] && DOLLAR !in text && NoMeta(text)
    ensures SplitFrom(PLAIN, Unescaped(Escaped(foreName + [COMMA] + backName, text)))
            == [Chunk(text, PLAIN.(foreground := ParseColor(Resolve(foreName)),
                                   background := ParseColor(Resolve(backName))))]
  {
    hide Resolve;
    hide ApplyColor;
    hide ParseColor;
    hide SplitFrom;
    hide CodeText;
    var inner := foreName + [COMMA] + backName;
    IndexAfter(foreName, COMMA, backName);
    assert ForeName(inner) == foreName && BackName(inner) == backName;
    UnescapedColour(inner, text);
    var code := CodeText(Resolve(foreName), Resolve(backName), DigitNext(text));
    SplitAfterColour(code, text);
    ApplyForeBack(Resolve(foreName), Resolve(backName), text);
    var r := ApplyColor(PLAIN, code + text);
    SplitPlainText(r.0, text);
  }

  // ----- the table's names are covered -----

  predicate NameLike(s: string) {
    && s != "" && s[0] != ' ' && s[|s| - 1] != ' '
    && forall i :: 0 <= i < |s| ==> 'a' <= s[i] <= 'z' || s[i] == ' '
  }

  lemma {:induction false} TableNames(name: string)
    requires NamedCode(name) != []
    ensures NameLike(name)
  {
    hide NameLike;
    if PrimaryCode(name) != [] {
      hide PrimaryCode;
      PrimaryNames(name);
    } else {
      hide SecondaryCode;
      SecondaryNames(name);
    }
  }

  lemma {:induction false} PrimaryNames(name: string)
    requires PrimaryCode(name) != []
    ensures NameLike(name)
  {
  }

  lemma {:induction false} SecondaryNames(name: string)
    requires SecondaryCode(name) != []
    ensures NameLike(name)
  {
  }

  lemma {:induction false} TrimPlain(s: Bytes)
    requires forall i :: 0 <= i < |s| ==> 0x61 <= s[i] <= 0x7A || s[i] == SPACE
    requires s != [] && s[0] != SPACE && s[|s| - 1] != SPACE
    ensures TrimBack(TrimFront(s)) == s
  {
    assert SpaceLen(s) == 0;
    var n := |s|;
    assert SpaceLen(s[n - 1..]) == 0;
    if n > 1 {
      assert SpaceLen(s[n - 2..]) != 2;
    }
    if n > 2 {
      assert SpaceLen(s[n - 3..]) != 3;
    }
  }

  /** Every name of the table resolves to its code and may stand between the brackets. */
  lemma {:induction false} KnownNameResolves(name: Bytes)
    requires NamedCode(AsText(name)) != []
    ensures Resolve(name) == NamedCode(AsText(name))
    ensures COMMA !in name && CLOSE !in name && LF !in name
  {
    var s := AsText(name);
    hide NamedCode;
    hide TrimFront;
    hide TrimBack;
    hide Lower;
    TableNames(s);
    forall i | 0 <= i < |name| ensures 0x61 <= name[i] <= 0x7A || name[i] == SPACE {
      assert s[i] == name[i] as char;
    }
    assert name[0] as char == s[0] && name[|name| - 1] as char == s[|s| - 1];
    TrimPlain(name);
    LowerPlain(name);
    assert !IsDigit(name[0]);
  }

  /** The colour numbers the documentation lists; `default` is no colour. */
  function DocumentedColour(name: string): (r: ColorCode) {
    if name == "white" then Color(0)
    else if name == "black" then Color(1)
    else if name == "blue" then Color(2)
    else if name == "green" then Color(3)
    else if name == "red" then Color(4)
    else if name == "brown" then Color(5)
    else if name == "magenta" then Color(6)
    else if name == "orange" then Color(7)
    else if name == "yellow" then Color(8)
    else if name == "light green" then Color(9)
    else if name == "cyan" then Color(10)
    else if name == "light cyan" then Color(11)
    else if name == "light blue" then Color(12)
    else if name == "pink" then Color(13)
    else if name == "grey" || name == "gray" then Color(14)
    else if name == "light grey" || name == "light gray" then Color(15)
    else Unset
  }

  /** The digits a name turns into are read back as the documented colour. */
  lemma {:induction false} CodesMatchDocumentation(name: string)
    ensures NamedCode(name) != [] <==> DocumentedColour(name) != Unset || name == "default"
    ensures NamedCode(name) != [] ==> ParseColor(NamedCode(name)) == DocumentedColour(name)
    ensures |NamedCode(name)| == 1 <==> DocumentedColour(name).Color? && DocumentedColour(name).value < 10
  {
    hide ParseColor;
    if NamedCode(name) == [] {
      return;
    }
    var code := NamedCode(name);
    if |code| == 1 {
      OneDigit(code[0]);
      assert code == [code[0]];
    } else {
      TwoDigits(code[0], code[1]);
      assert code == [code[0], code[1]];
    }
  }

  /** The style each letter escape stands for: $b, $i, $v, $s, $u, $m and $r. */
  function EscapedStyle(c: byte): (r: Style) {
    if c == 0x62 then PLAIN.(bold := true)
    else if c == 0x69 then PLAIN.(italic := true)
    else if c == 0x76 then PLAIN.(reverse := true)
    else if c == 0x73 then PLAIN.(strikethrough := true)
    else if c == 0x75 then PLAIN.(underline := true)
    else if c == 0x6D then PLAIN.(monospace := true)
    else PLAIN
  }

  predicate IsLetterEscape(c: byte) {
    c == 0x62 || c == 0x69 || c == 0x76 || c == 0x73 || c == 0x75 || c == 0x6D || c == 0x72
  }

  lemma {:induction false} MetaThenText(code: byte, text: Bytes)
    requires IsMeta(code) && code != COLOUR && text != [] && NoMeta(text)
    ensures SplitFrom(PLAIN, [code] + text) == [Chunk(text, Toggle(PLAIN, code))]
  {
    hide SplitFrom;
    hide Toggle;
    var raw := [code] + text;
    SplitStep(PLAIN, raw);
    assert raw[0] == code && raw[1..] == text;
    assert NextMeta(raw) == 0;
    assert TextChunk(raw[..0], PLAIN) == [];
    SplitPlainText(Toggle(PLAIN, code), text);
  }

  /** A letter escape in front of text formats the text as documented. */
  lemma {:induction false} LetterEscapes(c: byte, text: Bytes)
    requires IsLetterEscape(c) && text != [] && DOLLAR !in text && NoMeta(text)
    ensures SplitFrom(PLAIN, Unescaped([DOLLAR, c] + text)) == [Chunk(text, EscapedStyle(c))]
  {
    hide SplitFrom;
    hide NoMeta;
    var s := [DOLLAR, c] + text;
    assert s[0] == DOLLAR && s[1] == c && s[2..] == text;
    PlainUnescaped(text);
    assert Unescaped(s) == [EscapeValue(c)] + text;
    MetaThenText(EscapeValue(c), text);
  }

  // ----- escapes, byte by byte -----

  /** Text without a dollar stays; `$$` is a dollar, `$` at the end too; the seven letters are
      their control bytes; a `$c` without a bracket is the colour byte; any other byte behind
      a dollar is itself. */
  lemma {:induction false} UnescapedMeans(c: byte, rest: Bytes)
    ensures Unescaped([]) == [] && Unescaped(Ascii("$")) == Ascii("$")
    ensures c as char != '$' ==> Unescaped([c] + rest) == [c] + Unescaped(rest)
    ensures c as char != 'c' ==>
              Unescaped(Ascii("$") + [c] + rest) ==
              [match c as char
               case 'b' => 0x02
               case 'm' => 0x11
               case 'v' => 0x16
               case 'i' => 0x1D
               case 's' => 0x1E
               case 'u' => 0x1F
               case 'r' => 0x0F
               case _ => c] + Unescaped(rest)
    ensures rest == [] || rest[0] as char != '[' || ']' as int !in rest ||
            (exists i :: 0 <= i < |rest| && rest[i] as char == '\n' && ']' as int !in rest[..i]) ==>
              Unescaped(Ascii("$c") + rest) == [0x03] + Unescaped(rest)
  {
    hide Unescaped;
    assert Ascii("$") == [DOLLAR] && Ascii("$c") == [DOLLAR, LETTER_C];
    PlainFirst(c, rest);
    LetterFirst(c, rest);
    if rest == [] || rest[0] != OPEN || CLOSE !in rest ||
       (exists i :: 0 <= i < |rest| && rest[i] == LF && CLOSE !in rest[..i]) {
      BareColour(rest);
    }
    assert [DOLLAR] + [c] + rest == [DOLLAR, c] + rest;
  }

  lemma {:induction false} PlainFirst(c: byte, rest: Bytes)
    ensures Unescaped([]) == [] && Unescaped([DOLLAR]) == [DOLLAR]
    ensures c != DOLLAR ==> Unescaped([c] + rest) == [c] + Unescaped(rest)
  {
    assert ([c] + rest)[1..] == rest;
    assert Unescaped([]) == [];
    assert [DOLLAR][1..] == [];
  }

  lemma {:induction false} LetterFirst(c: byte, rest: Bytes)
    ensures c != LETTER_C ==> Unescaped([DOLLAR, c] + rest) == [EscapeValue(c)] + Unescaped(rest)
  {
    hide EscapeValue;
    assert ([DOLLAR, c] + rest)[2..] == rest;
  }

  lemma {:induction false} BareColour(rest: Bytes)
    requires rest == [] || rest[0] != OPEN || CLOSE !in rest
             || (exists i :: 0 <= i < |rest| && rest[i] == LF && CLOSE !in rest[..i])
    ensures Unescaped([DOLLAR, LETTER_C] + rest) == [COLOUR] + Unescaped(rest)
  {
    var s := [DOLLAR, LETTER_C] + rest;
    assert s[2..] == rest && s[2 + 0..] == rest;
    if rest != [] && rest[0] == OPEN && CLOSE in rest {
      var i :| 0 <= i < |rest| && rest[i] == LF && CLOSE !in rest[..i];
      var close := IndexByte(rest, CLOSE);
      assert i < close;
      assert rest[..close][i] == LF;
    }
    assert Bracketed(rest) == 0;
  }

  /** A bracket whose foreground is no colour leaves only the colour byte, whatever its background. */
  lemma {:induction false} UnknownForeground(inner: Bytes, text: Bytes)
    requires CLOSE !in inner && LF !in inner && DOLLAR !in text && Resolve(ForeName(inner)) == []
    ensures Unescaped(Escaped(inner, text)) == [0x03] + text
  {
    hide Resolve;
    hide Unescaped;
    hide Escaped;
    hide ForeName;
    hide BackName;
    UnescapedColour(inner, text);
    assert [COLOUR] + [] + text == [COLOUR] + text;
  }

  // ----- names, loosely written -----

  lemma {:induction false} LowerMeans(c: byte, s: Bytes)
    requires c < 0x80
    ensures Lower([c] + s) == [if 'A' <= c as char <= 'Z' then c + 32 else c] + Lower(s)
  {
    assert ([c] + s)[1..] == s;
  }

  /** Capital letters count as small ones. */
  lemma {:induction false} LowerOfCased(s: Bytes, t: Bytes)
    requires |s| == |t|
    requires forall i :: 0 <= i < |s| ==>
               s[i] < 0x80 && (t[i] == s[i] || ('A' <= s[i] as char <= 'Z' && t[i] == s[i] + 32))
    ensures Lower(s) == Lower(t)
  {
    if s != [] {
      LowerOfCased(s[1..], t[1..]);
      assert s == [s[0]] + s[1..] && t == [t[0]] + t[1..];
      LowerMeans(s[0], s[1..]);
      LowerMeans(t[0], t[1..]);
    }
  }

  lemma {:induction false} SpaceLenKept(s: Bytes, c: byte)
    requires s != [] && (c == 0x20 || 0x09 <= c <= 0x0D)
    ensures SpaceLen(s + [c]) == SpaceLen(s)
  {
    assert forall i :: 0 <= i < |s| ==> (s + [c])[i] == s[i];
    assert (s + [c])[|s|] == c;
  }

  lemma {:induction false} TrimFrontKept(s: Bytes, c: byte)
    requires c == 0x20 || 0x09 <= c <= 0x0D
    ensures TrimFront(s + [c]) == if TrimFront(s) == [] then [] else TrimFront(s) + [c]
    decreases |s|
  {
    if s == [] {
      assert s + [c] == [c] && [c][1..] == [];
      assert SpaceLen([c]) == 1;
      assert TrimFront([]) == [];
    } else {
      SpaceLenKept(s, c);
      var n := SpaceLen(s);
      if n > 0 {
        assert (s + [c])[n..] == s[n..] + [c];
        TrimFrontKept(s[n..], c);
      }
    }
  }

  lemma {:induction false} TrimLeading(s: Bytes, c: byte)
    requires c == 0x20 || 0x09 <= c <= 0x0D
    ensures TrimFront([c] + s) == TrimFront(s)
  {
    assert ([c] + s)[1..] == s;
    assert SpaceLen([c] + s) == 1;
  }

  lemma {:induction false} TrimTrailing(s: Bytes, c: byte)
    requires c == 0x20 || 0x09 <= c <= 0x0D
    ensures TrimBack(s + [c]) == TrimBack(s)
  {
    var t := s + [c];
    assert t[|t| - 1..] == [c] && t[..|t| - 1] == s;
    assert SpaceEnd(t) == 1;
  }

  /** White space around a name or number does not matter; one or two digits are their own code. */
  lemma {:induction false} ResolveLoosely(s: Bytes, c: byte)
    ensures c == 0x20 || 0x09 <= c <= 0x0D ==> Resolve([c] + s) == Resolve(s) == Resolve(s + [c])
    ensures 1 <= |s| <= 2 && AllDigits(s) ==> Resolve(s) == s
  {
    hide SpaceLen;
    hide SpaceEnd;
    hide Lower;
    hide TrimFront;
    hide TrimBack;
    hide NamedCode;
    hide AsText;
    if c == 0x20 || 0x09 <= c <= 0x0D {
      TrimLeading(s, c);
      TrimFrontKept(s, c);
      TrimTrailing(TrimFront(s), c);
    }
    if 1 <= |s| <= 2 && AllDigits(s) {
      DigitsPlain(s);
    }
  }

  lemma {:induction false} NoSpaceAtDigit(s: Bytes)
    requires s != [] && IsDigit(s[0])
    ensures SpaceLen(s) == 0
  {
  }

  lemma {:induction false} DigitsPlain(s: Bytes)
    requires 1 <= |s| <= 2 && AllDigits(s)
    ensures TrimBack(TrimFront(s)) == s && Lower(s) == s
  {
    var n := |s|;
    NoSpaceAtDigit(s);
    NoSpaceAtDigit(s[n - 1..]);
    hide SpaceLen;
    if n == 2 {
      assert s[0..] == s;
    }
    assert SpaceEnd(s) == 0;
    DigitsLower(s);
  }

  lemma {:induction false} DigitsLower(s: Bytes)
    requires AllDigits(s)
    ensures Lower(s) == s
  {
    if s != [] {
      DigitsLower(s[1..]);
      LowerMeans(s[0], s[1..]);
      assert s == [s[0]] + s[1..];
    } else {
      assert Lower([]) == [];
    }
  }
}
