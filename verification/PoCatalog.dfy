/** `_catalog`: the line-driven PO parser, and what it makes of a printed catalogue. */
module PoCatalog {
  import opened Wrappers

  // ----------------------------------------------------------------------
  // Lines and string literals
  // ----------------------------------------------------------------------

  /** The characters `str.strip` removes. */
  predicate IsSpace(c: char) {
    var v := c as int;
    || 9 <= v <= 13 || 28 <= v <= 32 || v == 0x85 || v == 0xA0 || v == 0x1680 || 0x2000 <= v <= 0x200A
    || v == 0x2028 || v == 0x2029 || v == 0x202F || v == 0x205F || v == 0x3000
  }

  function Strip(s: string): string {
    if s == [] then s
    else if IsSpace(s[0]) then Strip(s[1..])
    else if IsSpace(s[|s| - 1]) then Strip(s[..|s| - 1])
    else s
  }

  /** The 29 blanks, one by one. */
  lemma BlankIff(c: char)
    ensures IsSpace(c) <==>
      c in "\t\n\U{0B}\U{0C}\r\U{1C}\U{1D}\U{1E}\U{1F} \U{85}\U{A0}\U{1680}\U{2000}\U{2001}\U{2002}\U{2003}"
         + "\U{2004}\U{2005}\U{2006}\U{2007}\U{2008}\U{2009}\U{200A}\U{2028}\U{2029}\U{202F}\U{205F}\U{3000}"
  {
  }

  /** The characters `str.splitlines` cuts at. */
  predicate IsBreak(c: char) {
    var v := c as int;
    10 <= v <= 13 || 28 <= v <= 30 || v == 0x85 || v == 0x2028 || v == 0x2029
  }

  function FirstBreak(s: string, i: nat): (n: nat)
    requires i <= |s|
    ensures i <= n <= |s| && (forall k :: i <= k < n ==> !IsBreak(s[k])) && (n < |s| ==> IsBreak(s[n]))
    decreases |s| - i
  {
    if i < |s| && !IsBreak(s[i]) then FirstBreak(s, i + 1) else i
  }

  /** `str.splitlines` */
  function SplitLines(s: string): seq<string> {
    if s == "" then []
    else
      var n := FirstBreak(s, 0);
      if n == |s| then [s]
      else
        var width := if s[n] == '\r' && n + 1 < |s| && s[n + 1] == '\n' then 2 else 1;
        [s[..n]] + SplitLines(s[n + width..])
  }

  /** A text as a double-quoted literal. */
  function Quote(s: string): string {
    "\"" + Escaped(s) + "\""
  }

  function Escaped(s: string): string {
    if s == [] then "" else EscapedChar(s[0]) + Escaped(s[1..])
  }

  /** What a literal holds for one character: an escape for the two that end it and for every line break. */
  function EscapedChar(c: char): string {
    if c == '"' then "\\\"" else if c == '\\' then "\\\\" else if c == '\n' then "\\n"
    else if c == '\r' then "\\r" else if c == '\t' then "\\t"
    else if c == '\U{0B}' then "\\v" else if c == '\U{0C}' then "\\f"
    else if c == '\U{1C}' then "\\x1c" else if c == '\U{1D}' then "\\x1d" else if c == '\U{1E}' then "\\x1e"
    else if c == '\U{85}' then "\\x85" else if c == '\U{2028}' then "\\u2028" else if c == '\U{2029}' then "\\u2029"
    else [c]
  }

  /** The value of a double-quoted literal, after leading blanks. */
  function Unquote(s: string): Option<string> {
    if s == [] then None
    else if s[0] == ' ' || s[0] == '\t' then Unquote(s[1..])
    else if s[0] == '"' then Unescaped(s[1..])
    else None
  }

  /** The rest of a literal, up to the closing quote, which must end the line. */
  function Unescaped(s: string): Option<string> {
    if s == [] then None
    else if s[0] == '"' then if |s| == 1 then Some("") else None
    else if s[0] == '\\' then
      var c := ReadEscape(s[1..]);
      if c.None? then None
      else
        var rest := Unescaped(s[1 + c.value.1..]);
        if rest.None? then None else Some([c.value.0] + rest.value)
    else
      var rest := Unescaped(s[1..]);
      if rest.None? then None else Some([s[0]] + rest.value)
  }

  /** The character an escape stands for, and how much follows the backslash. */
  function ReadEscape(s: string): (r: Option<(char, nat)>)
    ensures r.Some? ==> 1 <= r.value.1 <= |s|
  {
    if s == [] then None
    else if UnescapedChar(s[0]).Some? then Some((UnescapedChar(s[0]).value, 1))
    else if s[0] == 'x' then ReadHex(s, 2)
    else if s[0] == 'u' then ReadHex(s, 4)
    else None
  }

  function UnescapedChar(c: char): Option<char> {
    if c == '"' || c == '\\' then Some(c) else if c == 'n' then Some('\n')
    else if c == 'r' then Some('\r') else if c == 't' then Some('\t')
    else if c == 'v' then Some('\U{0B}') else if c == 'f' then Some('\U{0C}') else None
  }

  /** The character given by the `n` hexadecimal digits after the first character. */
  function ReadHex(s: string, n: nat): (r: Option<(char, nat)>)
    ensures r.Some? ==> r.value.1 == n + 1 <= |s|
  {
    if |s| < n + 1 then None
    else
      var v := HexValue(s[1..n + 1]);
      if v.Some? && (v.value < 0xD800 || 0xE000 <= v.value < 0x11_0000) then Some((v.value as char, n + 1)) else None
  }

  function HexDigit(c: char): Option<nat> {
    if '0' <= c <= '9' then Some((c - '0') as nat)
    else if 'a' <= c <= 'f' then Some((c - 'a') as nat + 10)
    else if 'A' <= c <= 'F' then Some((c - 'A') as nat + 10)
    else None
  }

  function HexValue(s: string): Option<nat> {
    if s == [] then Some(0)
    else
      var front, last := HexValue(s[..|s| - 1]), HexDigit(s[|s| - 1]);
      if front.None? || last.None? then None else Some(16 * front.value + last.value)
  }

  /** The sixteen digits, in either case. */
  lemma HexDigitIff(c: char, v: nat)
    ensures HexDigit(c) == Some(v) <==> v < 16 && (c == "0123456789abcdef"[v] || c == "0123456789ABCDEF"[v])
  {
    if v < 10 {
      assert "0123456789abcdef"[v] == "0123456789ABCDEF"[v] == '0' + v as char;
    } else if v < 16 {
      assert "0123456789abcdef"[v] == 'a' + (v - 10) as char && "0123456789ABCDEF"[v] == 'A' + (v - 10) as char;
    }
  }

  lemma HexTwo(a: char, b: char)
    requires HexDigit(a).Some? && HexDigit(b).Some?
    ensures HexValue([a, b]) == Some(16 * HexDigit(a).value + HexDigit(b).value)
  {
    assert [a, b][..1] == [a] && [a][..0] == [];
    assert HexValue([a]) == Some(HexDigit(a).value);
  }

  lemma HexFour(a: char, b: char, c: char, d: char)
    requires HexDigit(a).Some? && HexDigit(b).Some? && HexDigit(c).Some? && HexDigit(d).Some?
    ensures HexValue([a, b, c, d])
         == Some(4096 * HexDigit(a).value + 256 * HexDigit(b).value + 16 * HexDigit(c).value + HexDigit(d).value)
  {
    HexTwo(a, b);
    assert [a, b, c][..2] == [a, b] && [a, b, c, d][..3] == [a, b, c];
    assert HexValue([a, b, c]) == Some(256 * HexDigit(a).value + 16 * HexDigit(b).value + HexDigit(c).value);
  }

  /** Every escape that is written is read back, whatever follows it. */
  lemma EscapeBack(c: char, rest: string)
    requires |EscapedChar(c)| > 1
    ensures EscapedChar(c)[0] == '\\'
    ensures ReadEscape((EscapedChar(c) + rest)[1..]) == Some((c, |EscapedChar(c)| - 1))
  {
    var e := EscapedChar(c);
    var s := (e + rest)[1..];
    assert forall k :: 1 <= k < |e| ==> s[k - 1] == e[k];
    if |e| == 4 {
      HexTwo(e[2], e[3]);
      assert s[1] == e[2] && s[2] == e[3];
      assert s[1..3] == [e[2], e[3]];
    } else if |e| == 6 {
      HexFour(e[2], e[3], e[4], e[5]);
      assert s[1] == e[2] && s[2] == e[3] && s[3] == e[4] && s[4] == e[5];
      assert s[1..5] == [e[2], e[3], e[4], e[5]];
    }
  }

  lemma CharBack(c: char, rest: string)
    requires Unescaped(rest).Some?
    ensures Unescaped(EscapedChar(c) + rest) == Some([c] + Unescaped(rest).value)
  {
    var e := EscapedChar(c);
    assert (e + rest)[|e|..] == rest;
    if |e| > 1 {
      EscapeBack(c, rest);
    } else {
      assert e == [c];
    }
  }

  lemma {:induction false} UnescapeEscaped(s: string)
    ensures Unescaped(Escaped(s) + "\"") == Some(s)
  {
    if s != [] {
      UnescapeEscaped(s[1..]);
      CharBack(s[0], Escaped(s[1..]) + "\"");
      assert Escaped(s) + "\"" == EscapedChar(s[0]) + (Escaped(s[1..]) + "\"");
      assert [s[0]] + s[1..] == s;
    }
  }

  lemma UnquoteQuoted(s: string)
    ensures Unquote(Quote(s)) == Some(s)
  {
    UnescapeEscaped(s);
    assert Quote(s)[1..] == Escaped(s) + "\"";
  }

  ghost predicate Spaces(s: string) {
    forall k :: 0 <= k < |s| ==> IsSpace(s[k])
  }

  /** `t` with blanks before and after. */
  ghost predicate Surrounded(s: string, a: string, t: string, b: string) {
    s == a + t + b && Spaces(a) && Spaces(b)
  }

  lemma BlankBefore(c: char, s: string, a: string, t: string, b: string)
    requires IsSpace(c) && Surrounded(s, a, t, b)
    ensures Surrounded([c] + s, [c] + a, t, b)
  {
    assert [c] + (a + t + b) == [c] + a + t + b;
  }

  lemma BlankAfter(c: char, s: string, a: string, t: string, b: string)
    requires IsSpace(c) && Surrounded(s, a, t, b)
    ensures Surrounded(s + [c], a, t, b + [c])
  {
    assert a + t + b + [c] == a + t + (b + [c]);
  }

  /** Stripping takes off the blanks at both ends, all of them and nothing else. */
  lemma {:induction false} StripMeaning(s: string) returns (a: string, b: string)
    ensures Surrounded(s, a, Strip(s), b)
    ensures Strip(s) != "" ==> !IsSpace(Strip(s)[0]) && !IsSpace(Strip(s)[|Strip(s)| - 1])
  {
    a, b := "", "";
    if s == "" {
    } else if IsSpace(s[0]) {
      a, b := StripMeaning(s[1..]);
      BlankBefore(s[0], s[1..], a, Strip(s[1..]), b);
      assert s == [s[0]] + s[1..];
      a := [s[0]] + a;
    } else if IsSpace(s[|s| - 1]) {
      a, b := StripMeaning(s[..|s| - 1]);
      BlankAfter(s[|s| - 1], s[..|s| - 1], a, Strip(s[..|s| - 1]), b);
      assert s == s[..|s| - 1] + [s[|s| - 1]];
      b := b + [s[|s| - 1]];
    }
  }

  const BREAKS := {'\n', '\r', '\U{0B}', '\U{0C}', '\U{1C}', '\U{1D}', '\U{1E}', '\U{85}', '\U{2028}', '\U{2029}'}

  lemma BreakIff(c: char)
    ensures IsBreak(c) <==> c in BREAKS
  {
  }

  lemma BreakFound(line: string, end: char, rest: string)
    requires end in BREAKS && forall k :: 0 <= k < |line| ==> line[k] !in BREAKS
    ensures FirstBreak(line + [end] + rest, 0) == |line|
    ensures IsBreak(end) && FirstBreak(line, 0) == |line|
  {
    var text := line + [end] + rest;
    BreakIff(end);
    forall k | 0 <= k < |line|
      ensures !IsBreak(line[k]) && text[k] == line[k]
    {
      BreakIff(line[k]);
    }
    assert text[|line|] == end;
  }

  /** A line ends at a break character, where a carriage return takes a newline after it along. */
  lemma CutAt(line: string, end: char, rest: string)
    requires end in BREAKS && forall k :: 0 <= k < |line| ==> line[k] !in BREAKS
    ensures SplitLines(line + [end] + rest)
         == [line] + SplitLines(if end == '\r' && rest != "" && rest[0] == '\n' then rest[1..] else rest)
    ensures SplitLines(line) == if line == "" then [] else [line]
  {
    var text := line + [end] + rest;
    BreakFound(line, end, rest);
    var n := |line|;
    assert text[n] == end && text[..n] == line && text[n + 1..] == rest;
    if rest != "" {
      assert text[n + 1] == rest[0] && text[n + 2..] == rest[1..];
    }
  }

  // ----------------------------------------------------------------------
  // The parser
  // ----------------------------------------------------------------------

  datatype Active = Idle | InId | InStr

  datatype Parser = Parser(messages: map<string, string>, msgid: string, msgstr: string, active: Active)

  /** `finish()` */
  function Finish(p: Parser): Parser {
    Parser(if p.active != Idle && p.msgstr != "" then p.messages[p.msgid := p.msgstr] else p.messages, "", "", Idle)
  }

  datatype SyntaxError = UnsupportedSyntax(raw: string)

  /** One turn of the loop. */
  function Take(p: Parser, raw: string): Result<Parser, SyntaxError> {
    var line := Strip(raw);
    if line == "" then Ok(Finish(p))
    else if "#" <= line then Ok(p)
    else if "msgid " <= line then
      var p := if p.active == InStr then Finish(p) else p;
      var text := Unquote(line[6..]);
      if text.None? then Err(UnsupportedSyntax(raw)) else Ok(p.(active := InId, msgid := text.value))
    else if "msgstr " <= line then
      var text := Unquote(line[7..]);
      if text.None? then Err(UnsupportedSyntax(raw)) else Ok(p.(active := InStr, msgstr := text.value))
    else if "\"" <= line && p.active != Idle then
      var text := Unquote(line);
      if text.None? then Err(UnsupportedSyntax(raw))
      else if p.active == InId then Ok(p.(msgid := p.msgid + text.value))
      else Ok(p.(msgstr := p.msgstr + text.value))
    else Err(UnsupportedSyntax(raw))
  }

  function TakeAll(p: Parser, lines: seq<string>): Result<Parser, SyntaxError>
    decreases |lines|
  {
    if lines == [] then Ok(p)
    else
      var next := Take(p, lines[0]);
      if next.Err? then next else TakeAll(next.value, lines[1..])
  }

  const START := Parser(map[], "", "", Idle)

  /** The catalogue of a file given as its lines; the parser adds an empty line of its own. */
  function Parse(lines: seq<string>): Result<map<string, string>, SyntaxError> {
    var r := TakeAll(START, lines + [""]);
    if r.Err? then Err(r.error) else Ok(r.value.messages)
  }

  lemma {:induction false} TakeAllSplit(p: Parser, a: seq<string>, b: seq<string>)
    ensures TakeAll(p, a + b) == (var r := TakeAll(p, a); if r.Err? then r else TakeAll(r.value, b))
    decreases |a|
  {
    if a == [] {
      assert a + b == b;
    } else {
      assert (a + b)[1..] == a[1..] + b;
      if Take(p, a[0]).Ok? {
        TakeAllSplit(Take(p, a[0]).value, a[1..], b);
      }
    }
  }

  /** `_catalog`, with the loop and the variables of the source. */
  method Catalog(text: string) returns (r: Result<map<string, string>, SyntaxError>)
    ensures r == Parse(SplitLines(text))
  {
    var messages: map<string, string>, msgid, msgstr, active := map[], "", "", Idle;
    var lines := SplitLines(text) + [""];
    var i := 0;
    while i < |lines|
      invariant 0 <= i <= |lines|
      invariant TakeAll(START, lines[..i]) == Ok(Parser(messages, msgid, msgstr, active))
    {
      ghost var before := Parser(messages, msgid, msgstr, active);
      OneMore(lines, i);
      ErrorEnds(lines, i + 1);
      var raw := lines[i];
      i := i + 1;
      var line := Strip(raw);
      if line == "" {
        messages, msgid, msgstr, active := FinishEntry(messages, msgid, msgstr, active);
        continue;
      }
      if "#" <= line {
        continue;
      }
      if "msgid " <= line {
        if active == InStr {
          messages, msgid, msgstr, active := FinishEntry(messages, msgid, msgstr, active);
        }
        active := InId;
        var value := Unquote(line[6..]);
        if value.None? {
          return Err(UnsupportedSyntax(raw));
        }
        msgid := value.value;
        continue;
      }
      if "msgstr " <= line {
        active := InStr;
        var value := Unquote(line[7..]);
        if value.None? {
          return Err(UnsupportedSyntax(raw));
        }
        msgstr := value.value;
        continue;
      }
      if "\"" <= line && active != Idle {
        var value := Unquote(line);
        if value.None? {
          return Err(UnsupportedSyntax(raw));
        }
        if active == InId {
          msgid := msgid + value.value;
        } else {
          msgstr := msgstr + value.value;
        }
        continue;
      }
      return Err(UnsupportedSyntax(raw));
    }
    assert lines[..i] == lines;
    return Ok(messages);
  }

  method FinishEntry(messages: map<string, string>, msgid: string, msgstr: string, active: Active)
    returns (messages': map<string, string>, msgid': string, msgstr': string, active': Active)
    ensures Parser(messages', msgid', msgstr', active') == Finish(Parser(messages, msgid, msgstr, active))
  {
    messages' := messages;
    if active != Idle && msgstr != "" {
      messages' := messages'[msgid := msgstr];
    }
    msgid', msgstr', active' := "", "", Idle;
  }

  /** The parser's state one line further. */
  lemma OneMore(lines: seq<string>, i: nat)
    requires i < |lines| && TakeAll(START, lines[..i]).Ok?
    ensures TakeAll(START, lines[..i + 1]) == Take(TakeAll(START, lines[..i]).value, lines[i])
  {
    TakeSnoc(START, lines[..i], lines[i], lines[..i + 1]);
  }

  /** A line in error ends the parse. */
  lemma ErrorEnds(lines: seq<string>, i: nat)
    requires i <= |lines|
    ensures TakeAll(START, lines[..i]).Err? ==> TakeAll(START, lines) == TakeAll(START, lines[..i])
  {
    TakeStops(START, lines[..i], lines[i..], lines);
  }

  lemma TakeSnoc(p: Parser, lines: seq<string>, line: string, all: seq<string>)
    requires all == lines + [line] && TakeAll(p, lines).Ok?
    ensures TakeAll(p, all) == Take(TakeAll(p, lines).value, line)
  {
    TakeAllSplit(p, lines, [line]);
    TakeOne(TakeAll(p, lines).value, line);
  }

  lemma TakeStops(p: Parser, some: seq<string>, rest: seq<string>, all: seq<string>)
    requires all == some + rest
    ensures TakeAll(p, some).Err? ==> TakeAll(p, all) == TakeAll(p, some)
  {
    TakeAllSplit(p, some, rest);
  }

  lemma TakeOne(p: Parser, line: string)
    ensures TakeAll(p, [line]) == Take(p, line)
  {
  }

  // ----------------------------------------------------------------------
  // Which lines are errors
  // ----------------------------------------------------------------------

  predicate IsLiteral(s: string) { Unquote(s).Some? }

  /** A line, stripped, is refused exactly when it is not empty, no comment, no keyword with a literal, and no literal
    * that continues an open entry; and the error holds the line as it was. */
  lemma LineRefusedIff(p: Parser, raw: string)
    ensures var line := Strip(raw);
      Take(p, raw).Err? <==>
        && line != "" && line[0] != '#'
        && !("msgid " <= line && IsLiteral(line[6..])) && !("msgstr " <= line && IsLiteral(line[7..]))
        && !(line[0] == '"' && p.active != Idle && IsLiteral(line))
    ensures Take(p, raw).Err? ==> Take(p, raw) == Err(UnsupportedSyntax(raw))
  {
    var line := Strip(raw);
    if line != "" {
      assert "#" <= line <==> line[0] == '#';
      assert "\"" <= line <==> line[0] == '"';
      assert "msgid " <= line ==> line[0] == 'm';
      assert "msgstr " <= line ==> line[0] == 'm' && line[3] == 's';
      assert "msgid " <= line ==> line[3] == 'i';
    }
  }

  /** A literal is blanks and then a text between two quotes. */
  lemma {:induction false} LiteralShape(s: string) returns (k: nat)
    requires IsLiteral(s)
    ensures k + 1 < |s| && s[k] == '"' && s[|s| - 1] == '"' && forall i :: 0 <= i < k ==> s[i] == ' ' || s[i] == '\t'
  {
    if s[0] == '"' {
      k := 0;
      EndsQuoted(s[1..]);
    } else {
      var n := LiteralShape(s[1..]);
      k := n + 1;
    }
  }

  lemma {:induction false} EndsQuoted(s: string)
    requires Unescaped(s).Some?
    ensures s != [] && s[|s| - 1] == '"'
    decreases |s|
  {
    if s[0] == '\\' {
      var width := ReadEscape(s[1..]).value.1;
      EndsQuoted(s[1 + width..]);
    } else if s[0] != '"' {
      EndsQuoted(s[1..]);
    }
  }

  /** A text without quotes and backslashes is read as it stands. */
  lemma {:induction false} RawRead(s: string)
    requires forall k :: 0 <= k < |s| ==> s[k] != '"' && s[k] != '\\'
    ensures Unescaped(s + "\"") == Some(s)
  {
    if s != [] {
      assert (s + "\"")[1..] == s[1..] + "\"";
      RawRead(s[1..]);
      assert [s[0]] + s[1..] == s;
    }
  }

  // ----------------------------------------------------------------------
  // Printing
  // ----------------------------------------------------------------------

  /** An entry with each string cut into pieces, one per line. */
  datatype Entry = Entry(id: seq<string>, str: seq<string>)

  function Joined(pieces: seq<string>): string {
    if pieces == [] then "" else pieces[0] + Joined(pieces[1..])
  }

  function Continued(pieces: seq<string>): seq<string> {
    if pieces == [] then [] else [Quote(pieces[0])] + Continued(pieces[1..])
  }

  function Printed(e: Entry): seq<string>
    requires e.id != [] && e.str != []
  {
    (["msgid " + Quote(e.id[0])] + Continued(e.id[1..])) + (["msgstr " + Quote(e.str[0])] + Continued(e.str[1..]))
  }

  function Blanks(n: nat): seq<string> {
    if n == 0 then [] else [""] + Blanks(n - 1)
  }

  ghost predicate Printable(entries: seq<Entry>) {
    forall i :: 0 <= i < |entries| ==> entries[i].id != [] && entries[i].str != []
  }

  /** Entries one after the other, `gaps[i]` blank lines after entry `i`. */
  function PrintedAll(entries: seq<Entry>, gaps: seq<nat>): seq<string>
    requires |entries| == |gaps| && Printable(entries)
  {
    if entries == [] then [] else Printed(entries[0]) + Blanks(gaps[0]) + PrintedAll(entries[1..], gaps[1..])
  }

  /** What the lines of a file come to once stripped, comment lines left out. */
  function Essential(lines: seq<string>): seq<string> {
    if lines == [] then []
    else
      var line := Strip(lines[0]);
      if "#" <= line then Essential(lines[1..]) else [line] + Essential(lines[1..])
  }

  /** The catalogue of a list of entries: later entries win, empty translations do not count. */
  function CatalogOf(entries: seq<Entry>, m: map<string, string>): map<string, string>
    decreases |entries|
  {
    if entries == [] then m
    else
      var e := entries[0];
      CatalogOf(entries[1..], if Joined(e.str) == "" then m else m[Joined(e.id) := Joined(e.str)])
  }

  predicate Translates(e: Entry, k: string) {
    Joined(e.id) == k && Joined(e.str) != ""
  }

  predicate LastTranslation(entries: seq<Entry>, k: string, i: int) {
    && 0 <= i < |entries| && Translates(entries[i], k)
    && forall j :: i < j < |entries| ==> !Translates(entries[j], k)
  }

  /** `CatalogOf`, said directly: a key is there exactly when some entry gives it
    * a non-empty translation, and the last such entry decides. */
  lemma {:induction false} CatalogMeaning(entries: seq<Entry>, m: map<string, string>, k: string)
    ensures var c := CatalogOf(entries, m);
      && (k in c <==> k in m || exists i :: 0 <= i < |entries| && Translates(entries[i], k))
      && (forall i :: LastTranslation(entries, k, i) ==> c[k] == Joined(entries[i].str))
      && ((forall i :: 0 <= i < |entries| ==> !Translates(entries[i], k)) && k in m ==> c[k] == m[k])
    decreases |entries|
  {
    if entries != [] {
      var e, rest := entries[0], entries[1..];
      var m' := if Joined(e.str) == "" then m else m[Joined(e.id) := Joined(e.str)];
      CatalogMeaning(rest, m', k);
      assert forall i :: 0 <= i < |rest| ==> rest[i] == entries[i + 1];
      assert forall i :: 1 <= i < |entries| ==> entries[i] == rest[i - 1];
      forall i | LastTranslation(entries, k, i)
        ensures CatalogOf(entries, m)[k] == Joined(entries[i].str)
      {
        if i > 0 {
          assert LastTranslation(rest, k, i - 1);
        }
      }
    }
  }

  // ----------------------------------------------------------------------
  // Parsing what was printed
  // ----------------------------------------------------------------------

  lemma {:induction false} StripAgain(s: string)
    ensures Strip(Strip(s)) == Strip(s)
  {
    if s != [] {
      if IsSpace(s[0]) {
        StripAgain(s[1..]);
      } else if IsSpace(s[|s| - 1]) {
        StripAgain(s[..|s| - 1]);
      }
    }
  }

  /** The parser sees only the essential lines: comments and the blanks around a
    * line make no difference, wherever they are. */
  lemma {:induction false} OnlyEssential(p: Parser, lines: seq<string>)
    ensures TakeAll(p, lines).Ok? == TakeAll(p, Essential(lines)).Ok?
    ensures TakeAll(p, lines).Ok? ==> TakeAll(p, lines) == TakeAll(p, Essential(lines))
    decreases |lines|
  {
    if lines != [] {
      var line := Strip(lines[0]);
      StripAgain(lines[0]);
      if "#" <= line {
        OnlyEssential(p, lines[1..]);
      } else {
        var r := Take(p, lines[0]);
        assert ([line] + Essential(lines[1..]))[1..] == Essential(lines[1..]);
        assert r.Ok? ==> Take(p, line) == r;
        assert r.Err? ==> Take(p, line).Err?;
        if r.Ok? {
          OnlyEssential(r.value, lines[1..]);
        }
      }
    }
  }

  lemma QuotedLine(p: Parser, prefix: string, s: string)
    requires prefix == "msgid " || prefix == "msgstr " || prefix == ""
    ensures var line := prefix + Quote(s);
      && Strip(line) == line && line != "" && !("#" <= line) && line[|prefix|..] == Quote(s)
      && ("msgid " <= line <==> prefix == "msgid ") && ("msgstr " <= line <==> prefix == "msgstr ")
      && ("\"" <= line <==> prefix == "")
  {
    var line := prefix + Quote(s);
    assert line[|line| - 1] == '"';
    assert line[0] == if prefix == "" then '"' else 'm';
    if prefix != "" {
      assert line[3] == prefix[3];
    }
  }

  /** What a continuation line adds. */
  function Continue(p: Parser, text: string): Parser {
    if p.active == InId then p.(msgid := p.msgid + text) else p.(msgstr := p.msgstr + text)
  }

  lemma TakeQuoted(p: Parser, s: string)
    requires p.active != Idle
    ensures Take(p, Quote(s)) == Ok(Continue(p, s))
  {
    QuotedLine(p, "", s);
    assert "" + Quote(s) == Quote(s);
    UnquoteQuoted(s);
  }

  lemma ContinueTwice(p: Parser, s: string, t: string)
    ensures Continue(Continue(p, s), t) == Continue(p, s + t)
  {
  }

  lemma {:induction false} TakeContinued(p: Parser, pieces: seq<string>)
    requires p.active != Idle
    ensures TakeAll(p, Continued(pieces)) == Ok(Continue(p, Joined(pieces)))
    decreases |pieces|
  {
    if pieces == [] {
      assert p.msgid + "" == p.msgid && p.msgstr + "" == p.msgstr;
    } else {
      var s, rest := pieces[0], pieces[1..];
      TakeQuoted(p, s);
      assert Continued(pieces)[1..] == Continued(rest);
      TakeContinued(Continue(p, s), rest);
      ContinueTwice(p, s, Joined(rest));
    }
  }

  /** Between entries: either nothing is open, or the last entry is complete but not yet stored. */
  ghost predicate Between(p: Parser) {
    p.active == InStr || p == Finish(p)
  }

  lemma TakeIdLines(p: Parser, pieces: seq<string>)
    requires Between(p) && pieces != []
    ensures TakeAll(p, ["msgid " + Quote(pieces[0])] + Continued(pieces[1..]))
         == Ok(Parser(Finish(p).messages, Joined(pieces), "", InId))
  {
    var line := "msgid " + Quote(pieces[0]);
    QuotedLine(p, "msgid ", pieces[0]);
    UnquoteQuoted(pieces[0]);
    var next := Parser(Finish(p).messages, pieces[0], "", InId);
    assert Take(p, line) == Ok(next);
    assert ([line] + Continued(pieces[1..]))[1..] == Continued(pieces[1..]);
    TakeContinued(next, pieces[1..]);
  }

  lemma TakeStrLines(p: Parser, pieces: seq<string>)
    requires pieces != []
    ensures TakeAll(p, ["msgstr " + Quote(pieces[0])] + Continued(pieces[1..]))
         == Ok(p.(msgstr := Joined(pieces), active := InStr))
  {
    var line := "msgstr " + Quote(pieces[0]);
    QuotedLine(p, "msgstr ", pieces[0]);
    UnquoteQuoted(pieces[0]);
    var next := p.(msgstr := pieces[0], active := InStr);
    assert Take(p, line) == Ok(next);
    assert ([line] + Continued(pieces[1..]))[1..] == Continued(pieces[1..]);
    TakeContinued(next, pieces[1..]);
  }

  /** One printed entry: the previous one is stored, this one is complete, and nothing leaks over. */
  lemma TakePrinted(p: Parser, e: Entry)
    requires Between(p) && e.id != [] && e.str != []
    ensures TakeAll(p, Printed(e)) == Ok(Parser(Finish(p).messages, Joined(e.id), Joined(e.str), InStr))
  {
    TakeIdLines(p, e.id);
    var q := Parser(Finish(p).messages, Joined(e.id), "", InId);
    TakeStrLines(q, e.str);
    TakeAllSplit(p, ["msgid " + Quote(e.id[0])] + Continued(e.id[1..]),
                 ["msgstr " + Quote(e.str[0])] + Continued(e.str[1..]));
  }

  lemma {:induction false} TakeBlanks(p: Parser, n: nat)
    requires Between(p)
    ensures TakeAll(p, Blanks(n)) == Ok(if n == 0 then p else Finish(p))
    decreases n
  {
    if n > 0 {
      assert Blanks(n)[1..] == Blanks(n - 1);
      TakeBlanks(Finish(p), n - 1);
    }
  }

  lemma {:induction false} TakePrintedAll(p: Parser, entries: seq<Entry>, gaps: seq<nat>)
    requires Between(p) && |entries| == |gaps| && Printable(entries)
    ensures var r := TakeAll(p, PrintedAll(entries, gaps));
      r.Ok? && Between(r.value) && Finish(r.value).messages == CatalogOf(entries, Finish(p).messages)
    decreases |entries|
  {
    if entries != [] {
      var e, n := entries[0], gaps[0];
      TakePrinted(p, e);
      var q := Parser(Finish(p).messages, Joined(e.id), Joined(e.str), InStr);
      TakeBlanks(q, n);
      var q' := if n == 0 then q else Finish(q);
      TakeAllSplit(p, Printed(e), Blanks(n));
      TakeAllSplit(p, Printed(e) + Blanks(n), PrintedAll(entries[1..], gaps[1..]));
      TakePrintedAll(q', entries[1..], gaps[1..]);
    }
  }

  /** Printing entries, cutting strings anywhere, with comments anywhere, any
    * spacing around lines and blank lines between entries only, then parsing,
    * gives exactly the catalogue of the entries. */
  lemma ParsePrinted(lines: seq<string>, first: nat, entries: seq<Entry>, gaps: seq<nat>)
    requires |entries| == |gaps| && Printable(entries)
    requires Essential(lines) == Blanks(first) + PrintedAll(entries, gaps)
    ensures Parse(lines) == Ok(CatalogOf(entries, map[]))
  {
    OnlyEssential(START, lines);
    TakeBlanks(START, first);
    TakeAllSplit(START, Blanks(first), PrintedAll(entries, gaps));
    TakePrintedAll(START, entries, gaps);
    var p := TakeAll(START, lines).value;
    TakeAllSplit(START, lines, [""]);
    assert [""][1..] == [];
    assert Take(p, "") == Ok(Finish(p));
    assert TakeAll(p, [""]) == Ok(Finish(p));
  }

  // ----------------------------------------------------------------------
  // As text
  // ----------------------------------------------------------------------

  ghost predicate Unbroken(s: string) {
    forall k :: 0 <= k < |s| ==> !IsBreak(s[k])
  }

  /** Lines as the text of a file. */
  function JoinLines(lines: seq<string>): string {
    if lines == [] then "" else lines[0] + "\n" + JoinLines(lines[1..])
  }

  /** Lines without a break in them are cut exactly where they were joined. */
  lemma {:induction false} SplitJoined(lines: seq<string>)
    requires forall i :: 0 <= i < |lines| ==> Unbroken(lines[i])
    ensures SplitLines(JoinLines(lines)) == lines
    decreases |lines|
  {
    if lines != [] {
      var line, rest := lines[0], JoinLines(lines[1..]);
      var text := JoinLines(lines);
      assert text == line + "\n" + rest && text[|line|] == '\n';
      assert Unbroken(line);
      assert forall k :: 0 <= k < |line| ==> text[k] == line[k];
      var n := FirstBreak(text, 0);
      assert n == |line| && text[..n] == line && text[n + 1..] == rest;
      SplitJoined(lines[1..]);
    }
  }

  lemma {:induction false} EscapedUnbroken(s: string)
    ensures Unbroken(Escaped(s))
  {
    if s != [] {
      EscapedUnbroken(s[1..]);
      assert Unbroken(EscapedChar(s[0]));
    }
  }

  /** A line the parser sees as it stands. */
  ghost predicate Plain(line: string) {
    Unbroken(line) && Strip(line) == line && !("#" <= line)
  }

  lemma QuotedPlain(prefix: string, s: string)
    requires prefix == "msgid " || prefix == "msgstr " || prefix == ""
    ensures Plain(prefix + Quote(s))
  {
    QuotedLine(Parser(map[], "", "", Idle), prefix, s);
    EscapedUnbroken(s);
    assert Unbroken(prefix);
  }

  lemma {:induction false} ContinuedPlain(pieces: seq<string>)
    ensures forall i :: 0 <= i < |Continued(pieces)| ==> Plain(Continued(pieces)[i])
  {
    if pieces != [] {
      QuotedPlain("", pieces[0]);
      assert "" + Quote(pieces[0]) == Quote(pieces[0]);
      ContinuedPlain(pieces[1..]);
    }
  }

  lemma PrintedPlain(e: Entry)
    requires e.id != [] && e.str != []
    ensures forall i :: 0 <= i < |Printed(e)| ==> Plain(Printed(e)[i])
  {
    QuotedPlain("msgid ", e.id[0]);
    QuotedPlain("msgstr ", e.str[0]);
    ContinuedPlain(e.id[1..]);
    ContinuedPlain(e.str[1..]);
  }

  lemma {:induction false} BlanksPlain(n: nat)
    ensures forall i :: 0 <= i < |Blanks(n)| ==> Plain(Blanks(n)[i])
  {
    if n > 0 {
      BlanksPlain(n - 1);
    }
  }

  lemma {:induction false} PrintedAllPlain(entries: seq<Entry>, gaps: seq<nat>)
    requires |entries| == |gaps| && Printable(entries)
    ensures forall i :: 0 <= i < |PrintedAll(entries, gaps)| ==> Plain(PrintedAll(entries, gaps)[i])
    decreases |entries|
  {
    if entries != [] {
      PrintedPlain(entries[0]);
      BlanksPlain(gaps[0]);
      PrintedAllPlain(entries[1..], gaps[1..]);
    }
  }

  lemma {:induction false} PlainEssential(lines: seq<string>)
    requires forall i :: 0 <= i < |lines| ==> Plain(lines[i])
    ensures Essential(lines) == lines
    decreases |lines|
  {
    if lines != [] {
      assert Plain(lines[0]);
      PlainEssential(lines[1..]);
    }
  }

  /** Whatever characters the entries hold, the printed file is cut back into the lines it was printed as, and
    * parses to the catalogue of the entries. */
  lemma ParsePrintedText(first: nat, entries: seq<Entry>, gaps: seq<nat>)
    requires |entries| == |gaps| && Printable(entries)
    ensures var lines := Blanks(first) + PrintedAll(entries, gaps);
      SplitLines(JoinLines(lines)) == lines && Parse(SplitLines(JoinLines(lines))) == Ok(CatalogOf(entries, map[]))
  {
    var lines := Blanks(first) + PrintedAll(entries, gaps);
    BlanksPlain(first);
    PrintedAllPlain(entries, gaps);
    SplitJoined(lines);
    PlainEssential(lines);
    ParsePrinted(lines, first, entries, gaps);
  }
}
