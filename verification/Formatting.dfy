/** Formatting codes in message text: Split and Strip of ircfmt/ircfmt.go, and the
    byte-at-a-time formatting machine they implement. */
module Formatting {
  import opened ByteStrings

  const BOLD: byte := 0x02
  const COLOUR: byte := 0x03
  const RESET: byte := 0x0F
  const MONOSPACE: byte := 0x11
  const REVERSE: byte := 0x16
  const ITALIC: byte := 0x1D
  const STRIKETHROUGH: byte := 0x1E
  const UNDERLINE: byte := 0x1F

  datatype ColorCode = Unset | Color(value: int)

  datatype Style = Style(
    foreground: ColorCode,
    background: ColorCode,
    bold: bool,
    monospace: bool,
    strikethrough: bool,
    underline: bool,
    italic: bool,
    reverse: bool)

  const PLAIN := Style(Unset, Unset, false, false, false, false, false, false)

  datatype Chunk = Chunk(content: Bytes, style: Style)

  predicate IsMeta(b: byte) {
    || b == BOLD || b == COLOUR || b == RESET || b == MONOSPACE
    || b == REVERSE || b == ITALIC || b == STRIKETHROUGH || b == UNDERLINE
  }

  predicate NoMeta(s: Bytes) {
    forall i :: 0 <= i < |s| ==> !IsMeta(s[i])
  }

  // ----- colour codes -----

  predicate AllDigits(s: Bytes) {
    forall i :: 0 <= i < |s| ==> IsDigit(s[i])
  }

  function Decimal(s: Bytes): (r: nat)
    requires AllDigits(s)
  {
    if s == [] then 0 else 10 * Decimal(s[..|s| - 1]) + (s[|s| - 1] - 0x30)
  }

  /** ParseColor: 99 and anything that is no such number mean the default colour. */
  function ParseColor(str: Bytes): (r: ColorCode) {
    if str != [] && AllDigits(str) && Decimal(str) < 99 then Color(Decimal(str)) else Unset
  }

  /** How many digits a colour takes: as many as there are, up to two. */
  function DigitRun(s: Bytes): (n: nat)
    ensures n <= |s| && n <= 2
  {
    if s == [] || !IsDigit(s[0]) then 0
    else if |s| == 1 || !IsDigit(s[1]) then 1
    else 2
  }

  /** The colour code after a colour byte: the new style and what remains. */
  function ApplyColor(style: Style, rest: Bytes): (r: (Style, Bytes))
    ensures |r.1| <= |rest|
  {
    var n := DigitRun(rest);
    if n == 0 then (style.(foreground := Unset, background := Unset), rest)
    else
      var s1 := style.(foreground := ParseColor(rest[..n]));
      if n < |rest| && rest[n] == COMMA && DigitRun(rest[n + 1..]) > 0 then
        var k := DigitRun(rest[n + 1..]);
        (s1.(background := ParseColor(rest[n + 1..n + 1 + k])), rest[n + 1 + k..])
      else (s1, rest[n..])
  }

  function Toggle(style: Style, b: byte): (r: Style) {
    if b == BOLD then style.(bold := !style.bold)
    else if b == MONOSPACE then style.(monospace := !style.monospace)
    else if b == STRIKETHROUGH then style.(strikethrough := !style.strikethrough)
    else if b == UNDERLINE then style.(underline := !style.underline)
    else if b == ITALIC then style.(italic := !style.italic)
    else if b == REVERSE then style.(reverse := !style.reverse)
    else if b == RESET then PLAIN
    else style
  }

  function ApplyMeta(style: Style, b: byte, rest: Bytes): (r: (Style, Bytes))
    ensures |r.1| <= |rest|
  {
    if b == COLOUR then ApplyColor(style, rest) else (Toggle(style, b), rest)
  }

  // ----- Split -----

  /** strings.IndexAny for the formatting bytes, with the length standing for "none". */
  function NextMeta(s: Bytes): (n: nat)
    ensures n <= |s| && NoMeta(s[..n])
    ensures n < |s| ==> IsMeta(s[n])
  {
    if s == [] || IsMeta(s[0]) then 0
    else
      var n := NextMeta(s[1..]);
      assert s[..n + 1] == [s[0]] + s[1..][..n];
      n + 1
  }

  function TextChunk(content: Bytes, style: Style): (r: seq<Chunk>) {
    if content == [] then [] else [Chunk(content, style)]
  }

  function SplitFrom(style: Style, raw: Bytes): (r: seq<Chunk>)
    decreases |raw|
  {
    var n := NextMeta(raw);
    if n == |raw| then TextChunk(raw, style)
    else
      var (next, rest) := ApplyMeta(style, raw[n], raw[n + 1..]);
      TextChunk(raw[..n], style) + SplitFrom(next, rest)
  }

  method Split(input: Bytes) returns (result: seq<Chunk>)
    ensures result == SplitFrom(PLAIN, input)
  {
    hide ApplyMeta;
    hide SplitFrom;
    result := [];
    var style := PLAIN;
    var raw := input;
    while true
      invariant SplitFrom(PLAIN, input) == result + SplitFrom(style, raw)
      decreases |raw|
    {
      var idx := NextMeta(raw);
      SplitStep(style, raw);
      var content := raw[..idx];
      if |content| != 0 {
        result := result + [Chunk(content, style)];
      }
      if |raw[idx..]| == 0 {
        return;
      }
      var metacharacter := raw[idx];
      var (next, rest) := ApplyMeta(style, metacharacter, raw[idx + 1..]);
      style, raw := next, rest;
    }
  }

  // ----- the formatting machine -----

  /** One visible byte and how it is shown. */
  datatype Cell = Cell(b: byte, style: Style)

  /** Where the machine stands inside a colour code. */
  datatype Mode =
    | Text
    | AfterColour // nothing read yet
    | Fore1(d: int) // one foreground digit
    | Fore2 // two foreground digits
    | Comma // a comma that is text unless a digit follows
    | Back1(d: int) // one background digit

  datatype Machine = Machine(mode: Mode, style: Style)

  datatype StepResult = StepResult(next: Machine, shown: seq<Cell>)

  /** The control bytes other than the colour, by their codes. */
  predicate IsSwitch(b: byte) {
    b == 0x02 || b == 0x0F || b == 0x11 || b == 0x16 || b == 0x1D || b == 0x1E || b == 0x1F
  }

  function Switch(style: Style, b: byte): (r: Style)
    requires IsSwitch(b)
  {
    match b
    case 0x02 => style.(bold := !style.bold)
    case 0x11 => style.(monospace := !style.monospace)
    case 0x16 => style.(reverse := !style.reverse)
    case 0x1D => style.(italic := !style.italic)
    case 0x1E => style.(strikethrough := !style.strikethrough)
    case 0x1F => style.(underline := !style.underline)
    case _ => Style(Unset, Unset, false, false, false, false, false, false)
  }

  /** Colour 99 is the default. */
  function Coloured(n: int): (r: ColorCode) {
    if n == 99 then Unset else Color(n)
  }

  function StepText(style: Style, b: byte): (r: StepResult) {
    if b == 0x03 then StepResult(Machine(AfterColour, style), [])
    else if IsSwitch(b) then StepResult(Machine(Text, Switch(style, b)), [])
    else StepResult(Machine(Text, style), [Cell(b, style)])
  }

  function Step(m: Machine, b: byte): (r: StepResult) {
    var digit := '0' as int <= b <= '9' as int;
    var n: int := b - 0x30;
    match m.mode
    case Text => StepText(m.style, b)
    case AfterColour =>
      if digit then StepResult(Machine(Fore1(n), m.style.(foreground := Coloured(n))), [])
      else StepText(m.style.(foreground := Unset, background := Unset), b)
    case Fore1(d) =>
      if digit then StepResult(Machine(Fore2, m.style.(foreground := Coloured(10 * d + n))), [])
      else if b == 0x2C then StepResult(Machine(Comma, m.style), [])
      else StepText(m.style, b)
    case Fore2 =>
      if b == 0x2C then StepResult(Machine(Comma, m.style), []) else StepText(m.style, b)
    case Comma =>
      if digit then StepResult(Machine(Back1(n), m.style.(background := Coloured(n))), [])
      else
        var r := StepText(m.style, b);
        r.(shown := [Cell(0x2C, m.style)] + r.shown)
    case Back1(d) =>
      if digit then StepResult(Machine(Text, m.style.(background := Coloured(10 * d + n))), [])
      else StepText(m.style, b)
  }

  /** Everything the machine shows for a text. */
  function Run(m: Machine, s: Bytes): (r: seq<Cell>)
    decreases |s|
  {
    if s == [] then (if m.mode.Comma? then [Cell(COMMA, m.style)] else [])
    else var r := Step(m, s[0]); r.shown + Run(r.next, s[1..])
  }

  function Cells(content: Bytes, style: Style): (r: seq<Cell>)
    ensures |r| == |content|
  {
    seq(|content|, i requires 0 <= i < |content| => Cell(content[i], style))
  }

  function ChunkCells(chunks: seq<Chunk>): (r: seq<Cell>) {
    if chunks == [] then [] else Cells(chunks[0].content, chunks[0].style) + ChunkCells(chunks[1..])
  }

  // ----- Split refines the machine -----

  lemma {:induction false} OneDigit(d: byte)
    requires IsDigit(d)
    ensures ParseColor([d]) == Coloured(d - 0x30) == Color(d - 0x30)
  {
    assert [d][..0] == [];
    assert Decimal([d]) == d - 0x30;
  }

  lemma {:induction false} TwoDigits(c: byte, d: byte)
    requires IsDigit(c) && IsDigit(d)
    ensures var n := 10 * (c - 0x30) + d - 0x30; ParseColor([c, d]) == Coloured(n)
  {
    assert [c, d][..1] == [c] && [c][..0] == [];
    assert Decimal([c]) == c - 0x30;
    assert Decimal([c, d]) == 10 * (c - 0x30) + d - 0x30;
  }

  lemma {:induction false} SwitchesAgree(style: Style, b: byte)
    ensures IsMeta(b) <==> b == 0x03 || IsSwitch(b)
    ensures IsSwitch(b) ==> b != COLOUR && Toggle(style, b) == Switch(style, b)
  {
  }

  lemma {:induction false} RunText(style: Style, pre: Bytes, rest: Bytes)
    requires NoMeta(pre)
    ensures Run(Machine(Text, style), pre + rest) == Cells(pre, style) + Run(Machine(Text, style), rest)
  {
    if pre == [] {
      assert pre + rest == rest;
    } else {
      assert (pre + rest)[1..] == pre[1..] + rest;
      assert NoMeta(pre[1..]);
      RunText(style, pre[1..], rest);
      assert Cells(pre, style) == [Cell(pre[0], style)] + Cells(pre[1..], style);
    }
  }

  /** A digit that belongs to the code; otherwise the machine is back in plain text. */
  lemma {:induction false} RunBack(style: Style, d: byte, rest: Bytes)
    requires IsDigit(d)
    ensures var k := DigitRun([d] + rest);
            Run(Machine(Back1(d - 0x30), style.(background := ParseColor([d]))), rest) ==
            Run(Machine(Text, style.(background := ParseColor(([d] + rest)[..k]))), ([d] + rest)[k..])
  {
    hide ParseColor;
    var all := [d] + rest;
    if rest != [] && IsDigit(rest[0]) {
      TwoDigits(d, rest[0]);
      assert all[..2] == [d, rest[0]] && all[2..] == rest[1..];
    } else {
      assert all[..1] == [d] && all[1..] == rest;
    }
  }

  lemma {:induction false} RunComma(style: Style, rest: Bytes)
    ensures var k := DigitRun(rest);
            Run(Machine(Comma, style), rest) ==
            if k > 0 then Run(Machine(Text, style.(background := ParseColor(rest[..k]))), rest[k..])
            else [Cell(COMMA, style)] + Run(Machine(Text, style), rest)
  {
    hide ParseColor;
    hide StepText;
    hide Coloured;
    if DigitRun(rest) > 0 {
      OneDigit(rest[0]);
      RunBack(style, rest[0], rest[1..]);
      assert [rest[0]] + rest[1..] == rest;
    }
  }

  /** After the foreground digits. */
  lemma {:induction false} RunFore(m: Machine, rest: Bytes)
    requires m.mode.Fore2? || (m.mode.Fore1? && (rest == [] || !IsDigit(rest[0])))
    ensures Run(m, rest) ==
            if rest != [] && rest[0] == COMMA && DigitRun(rest[1..]) > 0 then
              var k := DigitRun(rest[1..]);
              Run(Machine(Text, m.style.(background := ParseColor(rest[1..k + 1]))), rest[k + 1..])
            else Run(Machine(Text, m.style), rest)
  {
    if rest != [] && rest[0] == COMMA {
      RunComma(m.style, rest[1..]);
      var k := DigitRun(rest[1..]);
      assert rest[1..][..k] == rest[1..k + 1] && rest[1..][k..] == rest[k + 1..];
    }
  }

  lemma {:induction false} RunDigits(style: Style, rest: Bytes)
    requires DigitRun(rest) > 0
    ensures var n := DigitRun(rest);
            var s1 := style.(foreground := ParseColor(rest[..n]));
            Run(Machine(AfterColour, style), rest) ==
            Run(Machine(if n == 1 then Fore1(rest[0] - 0x30) else Fore2, s1), rest[n..])
  {
    hide ParseColor;
    var n := DigitRun(rest);
    OneDigit(rest[0]);
    if n == 1 {
      assert rest[..n] == [rest[0]];
    } else {
      TwoDigits(rest[0], rest[1]);
      assert rest[..n] == [rest[0], rest[1]] && rest[1..][1..] == rest[n..];
    }
  }

  /** The same slices, counted from the comma and from the start. */
  lemma {:induction false} ColourSlices(rest: Bytes, n: nat)
    requires n < |rest|
    ensures var tail := rest[n..];
            && tail[0] == rest[n] && tail[1..] == rest[n + 1..]
            && var k := DigitRun(rest[n + 1..]);
               tail[1..k + 1] == rest[n + 1..n + 1 + k] && tail[k + 1..] == rest[n + 1 + k..]
  {
    hide DigitRun;
  }

  lemma {:induction false} RunColour(style: Style, rest: Bytes)
    ensures var r := ApplyColor(style, rest);
            Run(Machine(AfterColour, style), rest) == Run(Machine(Text, r.0), r.1)
  {
    hide ParseColor;
    hide Run;
    var n := DigitRun(rest);
    if n == 0 {
      RunNoDigits(style, rest);
    } else {
      var s1 := style.(foreground := ParseColor(rest[..n]));
      RunDigits(style, rest);
      RunFore(Machine(if n == 1 then Fore1(rest[0] - 0x30) else Fore2, s1), rest[n..]);
      hide DigitRun;
      if n < |rest| {
        ColourSlices(rest, n);
      }
    }
  }

  lemma {:induction false} RunNoDigits(style: Style, rest: Bytes)
    requires DigitRun(rest) == 0
    ensures Run(Machine(AfterColour, style), rest) ==
            Run(Machine(Text, style.(foreground := Unset, background := Unset)), rest)
  {
  }

  lemma {:induction false} ChunkCellsConcat(a: seq<Chunk>, b: seq<Chunk>)
    ensures ChunkCells(a + b) == ChunkCells(a) + ChunkCells(b)
  {
    if a == [] {
      assert a + b == b;
    } else {
      assert (a + b)[1..] == a[1..] + b;
      ChunkCellsConcat(a[1..], b);
    }
  }

  lemma {:induction false} TextChunkCells(content: Bytes, style: Style)
    ensures ChunkCells(TextChunk(content, style)) == Cells(content, style)
  {
  }

  lemma {:induction false} RunMeta(style: Style, b: byte, rest: Bytes)
    requires IsMeta(b)
    ensures var r := ApplyMeta(style, b, rest);
            Run(Machine(Text, style), [b] + rest) == Run(Machine(Text, r.0), r.1)
  {
    SwitchesAgree(style, b);
    hide ApplyColor;
    hide Toggle;
    assert ([b] + rest)[1..] == rest;
    if b == COLOUR {
      RunColour(style, rest);
    }
  }

  /** One round of the scan: text up to the next control code, then the code. */
  lemma {:induction false} SplitStep(style: Style, raw: Bytes)
    ensures var n := NextMeta(raw);
            SplitFrom(style, raw) == TextChunk(raw[..n], style) +
              if n == |raw| then []
              else var r := ApplyMeta(style, raw[n], raw[n + 1..]); SplitFrom(r.0, r.1)
  {
    hide ApplyMeta;
    assert raw[..|raw|] == raw;
  }

  /** Every visible byte of every text gets the formatting the machine gives it. */
  lemma {:induction false} SplitRefinesMachine(style: Style, raw: Bytes)
    ensures ChunkCells(SplitFrom(style, raw)) == Run(Machine(Text, style), raw)
    decreases |raw|
  {
    hide ApplyMeta;
    hide Run;
    hide SplitFrom;
    hide TextChunk;
    hide ChunkCells;
    hide Cells;
    var n := NextMeta(raw);
    var pre, tail := raw[..n], raw[n..];
    assert raw == pre + tail;
    SplitStep(style, raw);
    RunText(style, pre, tail);
    TextChunkCells(pre, style);
    if n == |raw| {
      RunNothing(style);
      assert TextChunk(pre, style) + [] == TextChunk(pre, style);
      assert Cells(pre, style) + [] == Cells(pre, style);
    } else {
      var b, rest := raw[n], raw[n + 1..];
      assert tail == [b] + rest;
      RunMeta(style, b, rest);
      var (next, after) := ApplyMeta(style, b, rest);
      SplitRefinesMachine(next, after);
      ChunkCellsConcat(TextChunk(pre, style), SplitFrom(next, after));
    }
  }

  lemma {:induction false} RunNothing(style: Style)
    ensures Run(Machine(Text, style), []) == []
  {
  }

  predicate CleanChunks(chunks: seq<Chunk>) {
    forall i :: 0 <= i < |chunks| ==> chunks[i].content != [] && NoMeta(chunks[i].content)
  }

  /** Chunks are never empty and never hold a control code. */
  lemma {:induction false} SplitIsClean(style: Style, raw: Bytes)
    ensures CleanChunks(SplitFrom(style, raw))
    decreases |raw|
  {
    hide ApplyMeta;
    hide SplitFrom;
    var n := NextMeta(raw);
    SplitStep(style, raw);
    assert CleanChunks(TextChunk(raw[..n], style));
    if n < |raw| {
      var (next, rest) := ApplyMeta(style, raw[n], raw[n + 1..]);
      SplitIsClean(next, rest);
    }
  }

  // ----- what the codes do -----

  /** Each control byte but the colour, from every style: six of them negate one attribute and
      leave the rest alone, and 0x0F unsets everything. */
  lemma {:induction false} CodesMean(style: Style, rest: Bytes)
    ensures SplitFrom(style, [0x02] + rest) == SplitFrom(style.(bold := !style.bold), rest)
    ensures SplitFrom(style, [0x11] + rest) == SplitFrom(style.(monospace := !style.monospace), rest)
    ensures SplitFrom(style, [0x16] + rest) == SplitFrom(style.(reverse := !style.reverse), rest)
    ensures SplitFrom(style, [0x1D] + rest) == SplitFrom(style.(italic := !style.italic), rest)
    ensures SplitFrom(style, [0x1E] + rest) == SplitFrom(style.(strikethrough := !style.strikethrough), rest)
    ensures SplitFrom(style, [0x1F] + rest) == SplitFrom(style.(underline := !style.underline), rest)
    ensures SplitFrom(style, [0x0F] + rest) ==
            SplitFrom(Style(Unset, Unset, false, false, false, false, false, false), rest)
  {
    hide SplitFrom;
    CodeFirst(style, 0x02, rest);
    CodeFirst(style, 0x11, rest);
    CodeFirst(style, 0x16, rest);
    CodeFirst(style, 0x1D, rest);
    CodeFirst(style, 0x1E, rest);
    CodeFirst(style, 0x1F, rest);
    CodeFirst(style, 0x0F, rest);
  }

  lemma {:induction false} CodeFirst(style: Style, b: byte, rest: Bytes)
    requires IsSwitch(b)
    ensures SplitFrom(style, [b] + rest) == SplitFrom(Switch(style, b), rest)
  {
    SwitchesAgree(style, b);
    hide SplitFrom;
    hide Toggle;
    hide Switch;
    var raw := [b] + rest;
    assert raw[1..] == rest && NextMeta(raw) == 0;
    SplitStep(style, raw);
    assert TextChunk(raw[..0], style) == [];
  }

  lemma {:induction false} TextThenCode(style: Style, x: Bytes, b: byte, rest: Bytes)
    requires IsSwitch(b) && NoMeta(x) && x != []
    ensures SplitFrom(style, x + [b] + rest) == [Chunk(x, style)] + SplitFrom(Switch(style, b), rest)
  {
    SwitchesAgree(style, b);
    hide SplitFrom;
    hide Toggle;
    hide Switch;
    var raw := x + [b] + rest;
    NextAfterText(x, b, rest);
    assert raw[..|x|] == x && raw[|x|] == b && raw[|x| + 1..] == rest;
    SplitStep(style, raw);
  }

  lemma {:induction false} NextAfterText(x: Bytes, b: byte, rest: Bytes)
    requires NoMeta(x) && IsMeta(b)
    ensures NextMeta(x + [b] + rest) == |x|
  {
    hide IsMeta;
    var raw := x + [b] + rest;
    if x == [] {
      assert raw[0] == b;
    } else {
      assert raw[0] == x[0] && raw[1..] == x[1..] + [b] + rest;
      assert NoMeta(x[1..]);
      NextAfterText(x[1..], b, rest);
    }
  }

  /** A switch between two texts applies to the second one only, and twice the same switch
      leads back: `b x b y` shows x switched and y plain. */
  lemma {:induction false} SwitchOnAndOff(b: byte, x: Bytes, y: Bytes)
    requires IsSwitch(b) && b != 0x0F && NoMeta(x) && x != [] && NoMeta(y) && y != []
    ensures SplitFrom(PLAIN, [b] + (x + [b] + y)) == [Chunk(x, Switch(PLAIN, b)), Chunk(y, PLAIN)]
    ensures Switch(PLAIN, b) != PLAIN
  {
    assert Switch(Switch(PLAIN, b), b) == PLAIN;
    hide SplitFrom;
    hide Switch;
    hide IsSwitch;
    CodeFirst(PLAIN, b, x + [b] + y);
    TextThenCode(Switch(PLAIN, b), x, b, y);
    SplitPlainText(PLAIN, y);
  }

  // ----- Strip -----

  function Contents(chunks: seq<Chunk>): (r: Bytes) {
    if chunks == [] then [] else chunks[0].content + Contents(chunks[1..])
  }

  function Stripped(s: Bytes): (r: Bytes) {
    Contents(SplitFrom(PLAIN, s))
  }

  method Strip(input: Bytes) returns (r: Bytes)
    ensures r == Stripped(input)
  {
    hide SplitFrom;
    var chunks := Split(input);
    if |chunks| == 0 {
      return [];
    } else if |chunks| == 1 {
      assert Contents(chunks) == chunks[0].content + [];
      return chunks[0].content;
    }
    r := [];
    var i := 0;
    while i < |chunks|
      invariant 0 <= i <= |chunks|
      invariant Contents(chunks) == r + Contents(chunks[i..])
    {
      assert chunks[i..][1..] == chunks[i + 1..];
      r := r + chunks[i].content;
      i := i + 1;
    }
  }

  lemma {:induction false} ContentsClean(chunks: seq<Chunk>)
    requires CleanChunks(chunks)
    ensures NoMeta(Contents(chunks))
  {
    if chunks != [] {
      ContentsClean(chunks[1..]);
    }
  }

  /** Text without control codes is one plain chunk. */
  lemma {:induction false} SplitPlainText(style: Style, s: Bytes)
    requires NoMeta(s)
    ensures SplitFrom(style, s) == TextChunk(s, style)
  {
    var n := NextMeta(s);
  }

  /** Stripping leaves no control code, keeps text that has none, and so is idempotent. */
  lemma {:induction false} StripIdempotent(s: Bytes)
    ensures NoMeta(Stripped(s)) && Stripped(Stripped(s)) == Stripped(s)
  {
    hide SplitFrom;
    SplitIsClean(PLAIN, s);
    ContentsClean(SplitFrom(PLAIN, s));
    var t := Stripped(s);
    SplitPlainText(PLAIN, t);
    assert Contents(TextChunk(t, PLAIN)) == t;
  }

  function Visible(cells: seq<Cell>): (r: Bytes)
    ensures |r| == |cells|
  {
    seq(|cells|, i requires 0 <= i < |cells| => cells[i].b)
  }

  lemma {:induction false} ContentsVisible(chunks: seq<Chunk>)
    ensures Contents(chunks) == Visible(ChunkCells(chunks))
  {
    if chunks != [] {
      ContentsVisible(chunks[1..]);
    }
  }

  /** Strip returns exactly the bytes the machine shows. */
  lemma {:induction false} StripIsVisibleText(s: Bytes)
    ensures Stripped(s) == Visible(Run(Machine(Text, PLAIN), s))
  {
    hide SplitFrom;
    SplitRefinesMachine(PLAIN, s);
    ContentsVisible(SplitFrom(PLAIN, s));
  }
}
