/** String literals from the compiler's .ascii lines through the assembler's comment stripping and
    escape parsing, back to bytes. Text is a sequence of bytes. */
module StringLiterals {
  import opened Wrappers
  import opened Words

  type Text = seq<Byte>

  const QUOTE: Byte := 34
  const APOSTROPHE: Byte := 39
  const BACKSLASH: Byte := 92
  const SEMICOLON: Byte := 59
  const NEWLINE: Byte := 10
  const SPACE: Byte := 32
  const LETTER_X: Byte := 120

  /** ".ascii" */
  const ASCII: Text := [46, 97, 115, 99, 105, 105]
  /** ".byte 0" and the end of the line. */
  const BYTE_ZERO: Text := [46, 98, 121, 116, 101, 32, 48, 10]

  // ---- the compiler's side ----

  /** An upper-case hexadecimal digit. */
  function HexDigit(d: nat): Byte
    requires d < 16
  {
    if d < 10 then 48 + d else 65 + (d - 10)
  }

  function Escape(c: Byte): (t: Text)
    ensures 1 <= |t| <= 4
  {
    if c == QUOTE || c == BACKSLASH then [BACKSLASH, c]
    else if 32 <= c < 127 then [c]
    else [BACKSLASH, LETTER_X, HexDigit(c / 16), HexDigit(c % 16)]
  }

  function Escaped(data: Text): Text {
    if data == [] then [] else Escape(data[0]) + Escaped(data[1..])
  }

  function AsciiLine(body: Text): Text {
    ASCII + [SPACE, QUOTE] + body + [QUOTE, NEWLINE]
  }

  /** How many bytes of data one line takes: it is full from 160 characters on. */
  function Fit(data: Text, k: nat): (n: nat)
    ensures n <= |data| && (k < 160 && data != [] ==> n > 0)
    decreases |data|
  {
    if data == [] || k >= 160 then 0 else 1 + Fit(data[1..], k + |Escape(data[0])|)
  }

  /** The lines of emit_string. */
  function Lines(data: Text): seq<Text>
    decreases |data|
  {
    if data == [] then [BYTE_ZERO] else [AsciiLine(Escaped(data[..Fit(data, 0)]))] + Lines(data[Fit(data, 0)..])
  }

  // ---- the assembler's side ----

  predicate Blank(c: Byte) {
    c == SPACE || 9 <= c <= 13
  }

  /** skipws. */
  function SkipWs(s: Text): Text {
    if s != [] && (s[0] == SPACE || s[0] == 9 || s[0] == 13 || s[0] == NEWLINE) then SkipWs(s[1..]) else s
  }

  function Rtrim(s: Text): Text {
    if s != [] && Blank(s[|s| - 1]) then Rtrim(s[..|s| - 1]) else s
  }

  /** strip_comment from inside a quotation q, or outside one when q is 0. */
  function Strip(s: Text, q: Byte): Text {
    if s == [] then []
    else if q != 0 then
      if s[0] == BACKSLASH && |s| > 1 then s[..2] + Strip(s[2..], q)
      else [s[0]] + Strip(s[1..], if s[0] == q then 0 else q)
    else if s[0] == QUOTE || s[0] == APOSTROPHE then [s[0]] + Strip(s[1..], s[0])
    else if s[0] == SEMICOLON then []
    else [s[0]] + Strip(s[1..], 0)
  }

  function HexValue(c: Byte): (v: Option<nat>)
    ensures v.Some? ==> v.value < 16
  {
    if 48 <= c <= 57 then Some(c - 48)
    else if 65 <= c <= 70 then Some(c - 65 + 10)
    else if 97 <= c <= 102 then Some(c - 97 + 10)
    else None
  }

  /** Up to n hexadecimal digits: the value so far and what follows. */
  function Digits(s: Text, n: nat, v: nat): (r: (nat, Text))
    ensures |r.1| <= |s|
  {
    if n > 0 && s != [] && HexValue(s[0]).Some? then Digits(s[1..], n - 1, v * 16 + HexValue(s[0]).value) else (v, s)
  }

  function SimpleEscape(c: Byte): Option<Byte> {
    if c == 110 then Some(10) else if c == 116 then Some(9) else if c == 114 then Some(13) else if c == 98 then Some(8)
    else if c == 97 then Some(7) else if c == 102 then Some(12) else if c == 118 then Some(11)
    else if c == 48 then Some(0)
    else if c == BACKSLASH || c == APOSTROPHE || c == QUOTE then Some(c)
    else None
  }

  datatype Char = Char(code: nat, rest: Text)

  /** esc_char: one character, escaped or not, and what follows; none is a fatal error. */
  function EscChar(s: Text): (r: Option<Char>)
    ensures r.Some? ==> |r.value.rest| < |s|
  {
    if s == [] || s[0] == 0 then None
    else if s[0] != BACKSLASH then Some(Char(s[0], s[1..]))
    else if |s| == 1 then None
    else if s[1] == LETTER_X then
      var (v, rest) := Digits(s[2..], 2, 0);
      Some(Char(v, rest))
    else
      match SimpleEscape(s[1])
      case None => None
      case Some(c) => Some(Char(c, s[2..]))
  }

  /** parse_string after the opening quote: put8 keeps the low eight bits. */
  function Parse(s: Text): Option<Text>
    decreases |s|
  {
    if s == [] then None
    else if s[0] == QUOTE then if SkipWs(s[1..]) == [] then Some([]) else None
    else
      match EscChar(s)
      case None => None
      case Some(Char(c, rest)) =>
        match Parse(rest)
        case None => None
        case Some(t) => Some([c % 256] + t)
  }

  /** process_line's preparation of a line. */
  function Prepare(line: Text): Text {
    SkipWs(Rtrim(Strip(line, 0)))
  }

  /** One prepared line, of the two forms emit_string writes. */
  function AssembleText(s: Text): Option<Text> {
    if s == BYTE_ZERO[..7] then Some([0])
    else if ASCII <= s && |s| > 6 && s[6] == SPACE then
      var rest := SkipWs(s[6..]);
      if rest == [] || rest[0] != QUOTE then None else Parse(rest[1..])
    else None
  }

  function Assemble(lines: seq<Text>): Option<Text> {
    if lines == [] then Some([])
    else
      match AssembleText(Prepare(lines[0]))
      case None => None
      case Some(a) =>
        match Assemble(lines[1..])
        case None => None
        case Some(b) => Some(a + b)
  }

  // ---- the round trip ----

  lemma HexRound(d: nat)
    requires d < 16
    ensures HexValue(HexDigit(d)) == Some(d) && HexDigit(d) != QUOTE && HexDigit(d) != BACKSLASH && HexDigit(d) != 0
  {
  }

  /** One escape reads back as its byte, whatever text follows. */
  lemma EscapeRound(c: Byte, rest: Text)
    ensures EscChar(Escape(c) + rest) == Some(Char(c, rest)) && Escape(c)[0] != QUOTE
  {
    var s := Escape(c) + rest;
    if !(c == QUOTE || c == BACKSLASH) && !(32 <= c < 127) {
      HexRound(c / 16);
      HexRound(c % 16);
      assert s[2..] == [HexDigit(c / 16), HexDigit(c % 16)] + rest;
      assert s[2..][1..] == [HexDigit(c % 16)] + rest;
      assert s[2..][1..][1..] == rest;
      assert Digits(s[2..], 2, 0) == Digits(s[2..][1..], 1, c / 16) == Digits(rest, 0, c);
    } else if c == QUOTE || c == BACKSLASH {
      assert s[2..] == rest;
    } else {
      assert s[1..] == rest;
    }
  }

  lemma ParseEnd()
    ensures Parse([QUOTE]) == Some([])
  {
    assert [QUOTE][1..] == [] && SkipWs([]) == [];
  }

  lemma ParseOne(c: Byte, rest: Text)
    ensures Parse(Escape(c) + rest)
         == match Parse(rest) case None => None case Some(t) => Some([c] + t)
  {
    hide Escape, EscChar;
    EscapeRound(c, rest);
  }

  lemma {:induction false} ParseRound(data: Text)
    ensures Parse(Escaped(data) + [QUOTE]) == Some(data)
  {
    hide Parse, Escape;
    if data == [] {
      assert Escaped(data) + [QUOTE] == [QUOTE];
      ParseEnd();
    } else {
      var rest := Escaped(data[1..]) + [QUOTE];
      assert Escaped(data) + [QUOTE] == Escape(data[0]) + rest;
      ParseOne(data[0], rest);
      ParseRound(data[1..]);
      assert [data[0]] + data[1..] == data;
    }
  }

  /** Inside the quotation nothing looks like its end or like a comment. */
  lemma {:induction false} StripRound(data: Text, tail: Text)
    ensures Strip(Escaped(data) + tail, QUOTE) == Escaped(data) + Strip(tail, QUOTE)
  {
    hide Strip, Escape;
    if data == [] {
      assert Escaped(data) + tail == tail;
    } else {
      var c := data[0];
      var rest := Escaped(data[1..]) + tail;
      assert Escaped(data) + tail == Escape(c) + rest;
      StripEscape(c, rest);
      StripRound(data[1..], tail);
      assert Escape(c) + (Escaped(data[1..]) + Strip(tail, QUOTE)) == Escaped(data) + Strip(tail, QUOTE);
    }
  }

  lemma StripEscape(c: Byte, rest: Text)
    ensures Strip(Escape(c) + rest, QUOTE) == Escape(c) + Strip(rest, QUOTE)
  {
    var s := Escape(c) + rest;
    if c == QUOTE || c == BACKSLASH {
      assert s[..2] == Escape(c) && s[2..] == rest;
    } else if 32 <= c < 127 {
      assert s[1..] == rest;
    } else {
      var h, l := HexDigit(c / 16), HexDigit(c % 16);
      HexRound(c / 16);
      HexRound(c % 16);
      assert s[..2] == [BACKSLASH, LETTER_X] && s[2..] == [h, l] + rest;
      StripPlain(h, [l] + rest);
      StripPlain(l, rest);
      assert [h] + ([l] + rest) == s[2..];
    }
  }

  lemma StripPlain(c: Byte, rest: Text)
    requires c != QUOTE && c != BACKSLASH
    ensures Strip([c] + rest, QUOTE) == [c] + Strip(rest, QUOTE)
  {
    assert ([c] + rest)[1..] == rest;
  }

  lemma {:induction false} StripHead(head: Text, tail: Text)
    requires forall i :: 0 <= i < |head| ==> head[i] != QUOTE && head[i] != APOSTROPHE && head[i] != SEMICOLON
    ensures Strip(head + tail, 0) == head + Strip(tail, 0)
  {
    if head == [] {
      assert head + tail == tail;
    } else {
      StripHead(head[1..], tail);
      assert (head + tail)[1..] == head[1..] + tail;
      assert [head[0]] + (head[1..] + Strip(tail, 0)) == head + Strip(tail, 0);
    }
  }

  lemma Dispatch(x: Text)
    ensures AssembleText(ASCII + [SPACE, QUOTE] + x) == Parse(x)
  {
    hide Parse;
    var s, rest := ASCII + [SPACE, QUOTE] + x, [QUOTE] + x;
    assert s[1] == 97 && BYTE_ZERO[..7][1] == 98;
    assert s[..6] == ASCII && s[6] == SPACE && s[6..] == [SPACE] + rest;
    SkipOne(rest);
    assert rest[1..] == x;
  }

  lemma SkipOne(rest: Text)
    requires rest != [] && rest[0] == QUOTE
    ensures SkipWs([SPACE] + rest) == rest
  {
    assert ([SPACE] + rest)[1..] == rest;
  }

  /** An .ascii line assembles to the bytes it was made from. */
  lemma LineRound(data: Text)
    ensures AssembleText(Prepare(AsciiLine(Escaped(data)))) == Some(data)
  {
    hide Escaped, Parse, Strip, SkipWs, Rtrim, AssembleText;
    var body := Escaped(data);
    StripAscii(data);
    var s := ASCII + [SPACE, QUOTE] + (body + [QUOTE]);
    assert AsciiLine(body) == s + [NEWLINE];
    RtrimLine(s);
    Dispatch(body + [QUOTE]);
    ParseRound(data);
  }

  lemma StripAscii(data: Text)
    ensures Strip(AsciiLine(Escaped(data)), 0) == AsciiLine(Escaped(data))
  {
    var body, head := Escaped(data), ASCII + [SPACE];
    var tail := body + [QUOTE, NEWLINE];
    assert AsciiLine(body) == head + ([QUOTE] + tail);
    StripHead(head, [QUOTE] + tail);
    StripRound(data, [QUOTE, NEWLINE]);
    StripEnd();
    assert ([QUOTE] + tail)[1..] == tail;
  }

  lemma StripEnd()
    ensures Strip([QUOTE, NEWLINE], QUOTE) == [QUOTE, NEWLINE]
  {
    assert [QUOTE, NEWLINE][1..] == [NEWLINE];
    assert [NEWLINE][1..] == [];
    assert Strip([NEWLINE], 0) == [NEWLINE] + Strip([], 0);
  }

  lemma RtrimLine(s: Text)
    requires s != [] && !Blank(s[|s| - 1]) && !Blank(s[0])
    ensures SkipWs(Rtrim(s + [NEWLINE])) == s
  {
    assert (s + [NEWLINE])[..|s|] == s;
  }

  lemma ZeroRound()
    ensures AssembleText(Prepare(BYTE_ZERO)) == Some([0])
  {
    var s := BYTE_ZERO[..7];
    StripHead(BYTE_ZERO, []);
    assert BYTE_ZERO + [] == BYTE_ZERO;
    assert BYTE_ZERO == s + [NEWLINE];
    RtrimLine(s);
  }

  /** Every byte string: the lines emit_string writes assemble to the string and a zero. */
  lemma {:induction false} StringRound(data: Text)
    ensures Assemble(Lines(data)) == Some(data + [0])
    decreases |data|
  {
    hide AssembleText, Prepare, AsciiLine, Escaped;
    if data == [] {
      ZeroRound();
      assert Lines(data)[1..] == [] && [0] + [] == data + [0];
    } else {
      var n := Fit(data, 0);
      LineRound(data[..n]);
      StringRound(data[n..]);
      var line := AsciiLine(Escaped(data[..n]));
      assert Lines(data) == [line] + Lines(data[n..]);
      assert Lines(data)[1..] == Lines(data[n..]);
      assert data[..n] + (data[n..] + [0]) == data + [0];
    }
  }

  // ---- the loops as the compiler runs them ----

  /** emit_string. */
  method EmitString(data: Text) returns (out: seq<Text>)
    ensures out == Lines(data)
    ensures Assemble(out) == Some(data + [0])
  {
    StringRound(data);
    hide Assemble, AsciiLine, Escaped, Fit;
    out := [];
    var i := 0;
    assert data[0..] == data;
    while i < |data|
      invariant i <= |data| && Lines(data) == out + Lines(data[i..])
    {
      var buf, next := FillLine(data, i);
      assert data[i..][..next - i] == data[i..next] && data[i..][next - i..] == data[next..];
      out, i := out + [AsciiLine(buf)], next;
    }
    assert data[i..] == [];
    out := out + [BYTE_ZERO];
  }

  /** The inner loop: one line's text, and where the next line starts. */
  method FillLine(data: Text, start: nat) returns (buf: Text, i: nat)
    requires start < |data|
    ensures start < i <= |data| && i - start == Fit(data[start..], 0) && buf == Escaped(data[start..i])
  {
    hide Escape;
    buf, i := [], start;
    while i < |data| && |buf| < 160
      invariant start <= i <= |data| && buf == Escaped(data[start..i])
      invariant Fit(data[start..], 0) == (i - start) + Fit(data[i..], |buf|)
    {
      EscapedSnoc(data[start..i], data[i]);
      assert data[start..i + 1] == data[start..i] + [data[i]];
      assert data[i..][1..] == data[i + 1..];
      buf := buf + Escape(data[i]);
      i := i + 1;
    }
  }

  lemma {:induction false} EscapedSnoc(a: Text, c: Byte)
    ensures Escaped(a + [c]) == Escaped(a) + Escape(c)
  {
    hide Escape;
    if a == [] {
      assert (a + [c])[1..] == [];
    } else {
      EscapedSnoc(a[1..], c);
      assert (a + [c])[1..] == a[1..] + [c];
    }
  }
}
