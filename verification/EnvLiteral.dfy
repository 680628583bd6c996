/** Printing a value as a quoted Compose literal, and reading it back from the environment file. */
module EnvLiteral {
  import opened EnvLines
  import opened Wrappers

  /** Where `str.splitlines` breaks a line. */
  predicate IsBreak(c: char) {
    c as int in {0x0A, 0x0B, 0x0C, 0x0D, 0x1C, 0x1D, 0x1E, 0x85, 0x2028, 0x2029}
  }

  /** What `str.strip` removes. */
  predicate IsSpace(c: char) {
    IsBreak(c) || c as int in {0x09, 0x1F, 0x20, 0xA0, 0x1680, 0x202F, 0x205F, 0x3000} ||
    0x2000 <= c as int <= 0x200A
  }

  predicate HasBreak(s: string) {
    exists i | 0 <= i < |s| :: IsBreak(s[i])
  }

  // ---- Printing ----

  /** `str.replace` of one character. */
  function Replace(s: string, c: char, image: string): string {
    if s == "" then "" else (if s[0] == c then image else [s[0]]) + Replace(s[1..], c, image)
  }

  /** `compose_env_value`. */
  function ComposeEnvValue(value: string): string {
    "\"" + Replace(Replace(Replace(value, '\\', "\\\\"), '"', "\\\""), '$', "$$") + "\""
  }

  // ---- Reading ----

  function BreakAt(s: string): (k: nat)
    ensures k <= |s| && (forall i | 0 <= i < k :: !IsBreak(s[i])) && (k < |s| ==> IsBreak(s[k]))
  {
    if s == "" || IsBreak(s[0]) then 0 else 1 + BreakAt(s[1..])
  }

  /** Where the line after the break at `k` begins. */
  function LineAfter(s: string, k: nat): (next: nat)
    requires k < |s|
    ensures k < next <= |s|
  {
    if s[k] == '\r' && k + 1 < |s| && s[k + 1] == '\n' then k + 2 else k + 1
  }

  /** `str.splitlines`: a carriage return and line feed together are one break. */
  function SplitLines(s: string): (lines: seq<string>)
    ensures forall line | line in lines :: !HasBreak(line)
    decreases |s|
  {
    var k := BreakAt(s);
    if s == "" then []
    else if k == |s| then [s]
    else
      [s[..k]] + SplitLines(s[LineAfter(s, k)..])
  }

  function TrimLeft(s: string): (r: string)
    ensures |r| <= |s| && r == s[|s| - |r|..]
  {
    if s != "" && IsSpace(s[0]) then TrimLeft(s[1..]) else s
  }

  function TrimRight(s: string): (r: string)
    ensures r <= s
  {
    if s != "" && IsSpace(s[|s| - 1]) then TrimRight(s[..|s| - 1]) else s
  }

  function Strip(s: string): string {
    TrimRight(TrimLeft(s))
  }

  datatype Lexer = Blank | Word | Quoted(quote: char) | Escaped(from: Lexer)

  /** `shlex.split` in its POSIX mode without comments: the tokens, or none for an unfinished quotation or
      escape.  `token` is the token so far and `quoted` whether it had a quoted part. */
  function Lex(s: string, state: Lexer, token: string, quoted: bool): Option<seq<string>> {
    if s == "" then
      match state
      case Quoted(_) => None
      case Escaped(_) => None
      case _ => Some(if token != "" || quoted then [token] else [])
    else
      var c, rest := s[0], s[1..];
      match state
      case Quoted(q) =>
        if c == q then Lex(rest, Word, token, true)
        else if c == '\\' && q == '"' then Lex(rest, Escaped(state), token, true)
        else Lex(rest, state, token + [c], true)
      case Escaped(from) =>
        var kept := if from.Quoted? && c != '\\' && c != from.quote then token + "\\" else token;
        Lex(rest, from, kept + [c], quoted)
      case _ =>
        if c in " \t\r\n" then
          if token != "" || quoted then
            var more := Lex(rest, Blank, "", false);
            if more.None? then None else Some([token] + more.value)
          else Lex(rest, Blank, token, quoted)
        else if c == '\\' then Lex(rest, Escaped(Word), token, quoted)
        else if c == '"' || c == '\'' then Lex(rest, Quoted(c), token, quoted)
        else Lex(rest, Word, token + [c], quoted)
  }

  /** `replace("$$", "$")`: leftmost pairs first, without overlap. */
  function Collapse(s: string): string {
    if |s| >= 2 && s[0] == '$' && s[1] == '$' then "$" + Collapse(s[2..])
    else if s == "" then "" else [s[0]] + Collapse(s[1..])
  }

  predicate IsAssignment(line: string) {
    line != "" && !("#" <= TrimLeft(line)) && EqualsAt(line) < |line|
  }

  function DecodedValue(raw: string): string {
    var value := Strip(raw);
    var literal :=
      if value != "" && (value[0] == '\'' || value[0] == '"') then
        var tokens := Lex(value, Blank, "", false);
        if tokens.Some? && |tokens.value| == 1 then tokens.value[0] else ""
      else value;
    Collapse(literal)
  }

  function ReadLine(values: map<string, string>, line: string): map<string, string> {
    if !IsAssignment(line) then values
    else
      var k := EqualsAt(line);
      values[Strip(line[..k]) := DecodedValue(line[k + 1..])]
  }

  function ReadLines(lines: seq<string>): map<string, string> {
    if lines == [] then map[] else ReadLine(ReadLines(lines[..|lines| - 1]), lines[|lines| - 1])
  }

  /** `read_env`. */
  method ReadEnv(text: string) returns (values: map<string, string>)
    ensures values == ReadLines(SplitLines(text))
  {
    hide DecodedValue, Strip, SplitLines, IsSpace, IsBreak;
    var lines := SplitLines(text);
    values := map[];
    for k := 0 to |lines|
      invariant values == ReadLines(lines[..k])
    {
      var line := lines[k];
      assert lines[..k + 1][..k] == lines[..k];
      if line == "" || "#" <= TrimLeft(line) || EqualsAt(line) == |line| { continue; }
      var e := EqualsAt(line);
      values := values[Strip(line[..e]) := DecodedValue(line[e + 1..])];
    }
    assert lines[..|lines|] == lines;
  }

  // ---- The literal survives the reader ----

  function EscapedChar(c: char): string {
    if c == '\\' then "\\\\" else if c == '"' then "\\\"" else if c == '$' then "$$" else [c]
  }

  /** The three replacements at once. */
  function Body(value: string): string {
    if value == "" then "" else EscapedChar(value[0]) + Body(value[1..])
  }

  lemma {:induction false} ReplaceConcat(a: string, b: string, c: char, image: string)
    ensures Replace(a + b, c, image) == Replace(a, c, image) + Replace(b, c, image)
  {
    if a == "" {
      assert a + b == b;
    } else {
      assert (a + b)[1..] == a[1..] + b;
      ReplaceConcat(a[1..], b, c, image);
    }
  }

  lemma {:induction false} ReplacementsAreBody(value: string)
    ensures Replace(Replace(Replace(value, '\\', "\\\\"), '"', "\\\""), '$', "$$") == Body(value)
  {
    if value != "" {
      var first, rest := Replace([value[0]], '\\', "\\\\"), Replace(value[1..], '\\', "\\\\");
      ReplacementsAreBody(value[1..]);
      assert value == [value[0]] + value[1..];
      ReplaceConcat([value[0]], value[1..], '\\', "\\\\");
      ReplaceConcat(first, rest, '"', "\\\"");
      ReplaceConcat(Replace(first, '"', "\\\""), Replace(rest, '"', "\\\""), '$', "$$");
      OneCharacter(value[0]);
    }
  }

  lemma OneCharacter(c: char)
    ensures Replace(Replace(Replace([c], '\\', "\\\\"), '"', "\\\""), '$', "$$") == EscapedChar(c)
  {
    if c == '\\' {
      assert [c][1..] == "";
      ReplaceAbsent("\\\\", '"', "\\\"");
      ReplaceAbsent("\\\\", '$', "$$");
    } else if c == '"' {
      ReplaceAbsent([c], '\\', "\\\\");
      ReplaceAbsent("\\\"", '$', "$$");
    }
  }

  lemma {:induction false} ReplaceAbsent(s: string, c: char, image: string)
    requires c !in s
    ensures Replace(s, c, image) == s
  {
    if s != "" { ReplaceAbsent(s[1..], c, image); }
  }

  /** Dollars doubled, everything else alone. */
  function Doubled(value: string): string {
    Replace(value, '$', "$$")
  }

  /** The lexer undoes backslashes and quotes, and keeps the doubled dollars. */
  lemma {:induction false} LexBody(value: string, token: string)
    ensures Lex(Body(value) + "\"", Quoted('"'), token, true) == Some([token + Doubled(value)])
    decreases |value|
  {
    if value == "" {
      assert Body(value) + "\"" == "\"" && "\""[1..] == "";
      assert token + Doubled(value) == token;
    } else {
      var c, rest := value[0], Body(value[1..]) + "\"";
      var added := if c == '$' then "$$" else [c];
      LexBody(value[1..], token + added);
      assert Body(value) + "\"" == EscapedChar(c) + rest;
      LexCharacter(c, rest, token);
      assert token + added + Doubled(value[1..]) == token + Doubled(value);
    }
  }

  lemma LexCharacter(c: char, rest: string, token: string)
    ensures Lex(EscapedChar(c) + rest, Quoted('"'), token, true) ==
            Lex(rest, Quoted('"'), token + if c == '$' then "$$" else [c], true)
  {
    var s := EscapedChar(c) + rest;
    if |EscapedChar(c)| == 2 {
      assert s[1..] == [EscapedChar(c)[1]] + rest && s[1..][1..] == rest;
      if c == '$' {
        assert token + "$" + "$" == token + "$$";
      }
    } else {
      assert s[1..] == rest;
    }
  }

  lemma {:induction false} CollapseDoubled(value: string)
    ensures Collapse(Doubled(value)) == value
  {
    if value != "" {
      CollapseDoubled(value[1..]);
      var s := Doubled(value);
      if value[0] == '$' {
        assert s[2..] == Doubled(value[1..]);
      } else {
        assert s == [value[0]] + Doubled(value[1..]) && s[1..] == Doubled(value[1..]);
      }
    }
  }

  lemma DecodedLiteral(value: string)
    ensures DecodedValue(ComposeEnvValue(value)) == value
  {
    hide IsSpace, Strip, Body, Doubled, Collapse;
    ReplacementsAreBody(value);
    var literal := ComposeEnvValue(value);
    assert literal == "\"" + (Body(value) + "\"");
    assert literal[1..] == Body(value) + "\"";
    assert literal[0] == '"' && literal[|literal| - 1] == '"';
    QuoteIsNoSpace();
    StripFixed(literal);
    LexBody(value, "");
    assert Lex(literal, Blank, "", false) == Lex(literal[1..], Quoted('"'), "", false);
    QuotedFlag(literal[1..], '"', "");
    assert "" + Doubled(value) == Doubled(value);
    CollapseDoubled(value);
  }

  lemma StripFixed(s: string)
    requires s != "" && !IsSpace(s[0]) && !IsSpace(s[|s| - 1])
    ensures Strip(s) == s
  {
    hide IsSpace;
  }

  lemma QuoteIsNoSpace()
    ensures !IsSpace('"')
  {
  }

  lemma QuotedFlag(s: string, q: char, token: string)
    requires s != ""
    ensures Lex(s, Quoted(q), token, false) == Lex(s, Quoted(q), token, true)
  {
  }

  // ---- No line break is ever read ----

  lemma {:induction false} LexKeepsLine(s: string, state: Lexer, token: string, quoted: bool)
    requires !HasBreak(s) && !HasBreak(token)
    ensures var r := Lex(s, state, token, quoted);
            r.Some? ==> forall t | t in r.value :: !HasBreak(t)
    decreases |s|
  {
    if s != "" {
      var c, rest := s[0], s[1..];
      match state
      case Quoted(q) =>
        LexKeepsLine(rest, Word, token, true);
        LexKeepsLine(rest, Escaped(state), token, true);
        LexKeepsLine(rest, state, token + [c], true);
      case Escaped(from) =>
        LexKeepsLine(rest, from, token + [c], quoted);
        LexKeepsLine(rest, from, token + "\\" + [c], quoted);
      case _ =>
        LexKeepsLine(rest, Blank, "", false);
        LexKeepsLine(rest, Blank, token, quoted);
        LexKeepsLine(rest, Escaped(Word), token, quoted);
        LexKeepsLine(rest, Quoted(c), token, quoted);
        LexKeepsLine(rest, Word, token + [c], quoted);
    }
  }

  lemma {:induction false} CollapseKeepsLine(s: string)
    requires !HasBreak(s)
    ensures !HasBreak(Collapse(s))
    decreases |s|
  {
    if |s| >= 2 && s[0] == '$' && s[1] == '$' {
      CollapseKeepsLine(s[2..]);
    } else if s != "" {
      CollapseKeepsLine(s[1..]);
    }
  }

  lemma PartKeepsLine(s: string, i: nat, j: nat)
    requires i <= j <= |s| && !HasBreak(s)
    ensures !HasBreak(s[i..j])
  {
    hide IsBreak;
    assert forall k | 0 <= k < j - i :: s[i..j][k] == s[i + k];
  }

  lemma StripKeepsLine(raw: string)
    requires !HasBreak(raw)
    ensures !HasBreak(Strip(raw))
  {
    hide IsBreak, IsSpace, HasBreak, TrimLeft, TrimRight;
    var left := TrimLeft(raw);
    PartKeepsLine(raw, |raw| - |left|, |raw|);
    assert left == raw[|raw| - |left|..|raw|];
    var right := TrimRight(left);
    PartKeepsLine(left, 0, |right|);
    assert right == left[0..|right|];
  }

  lemma EmptyHasNoBreak()
    ensures !HasBreak("")
  {
  }

  lemma DecodedKeepsLine(raw: string)
    requires !HasBreak(raw)
    ensures !HasBreak(DecodedValue(raw))
  {
    hide IsBreak, HasBreak, Strip, Lex, Collapse;
    StripKeepsLine(raw);
    EmptyHasNoBreak();
    var value := Strip(raw);
    LexKeepsLine(value, Blank, "", false);
    var tokens := Lex(value, Blank, "", false);
    CollapseKeepsLine(value);
    CollapseKeepsLine("");
    if tokens.Some? && |tokens.value| == 1 { CollapseKeepsLine(tokens.value[0]); }
  }

  lemma {:induction false} ReadKeepsLine(lines: seq<string>)
    requires forall line | line in lines :: !HasBreak(line)
    ensures forall k | k in ReadLines(lines) :: !HasBreak(ReadLines(lines)[k])
  {
    hide IsBreak, DecodedValue, Strip, IsSpace;
    if lines != [] {
      var before, last := lines[..|lines| - 1], lines[|lines| - 1];
      ReadKeepsLine(before);
      assert last in lines;
      if IsAssignment(last) {
        var raw := last[EqualsAt(last) + 1..];
        assert forall i | 0 <= i < |raw| :: raw[i] == last[EqualsAt(last) + 1 + i];
        DecodedKeepsLine(raw);
      }
    }
  }

  // ---- Lines ----

  lemma BreakAtIs(s: string, k: nat)
    requires k <= |s| && (forall i | 0 <= i < k :: !IsBreak(s[i])) && (k < |s| ==> IsBreak(s[k]))
    ensures BreakAt(s) == k
  {
    var b := BreakAt(s);
  }

  predicate EndsLine(s: string) {
    s == "" || s[|s| - 1] == '\n'
  }

  lemma NewlineBreaks()
    ensures IsBreak('\n')
  {
  }

  lemma LineAfterAppend(text: string, rest: string, k: nat)
    requires k < |text| && EndsLine(text)
    ensures LineAfter(text + rest, k) == LineAfter(text, k)
    ensures (text + rest)[LineAfter(text, k)..] == text[LineAfter(text, k)..] + rest
    ensures EndsLine(text[LineAfter(text, k)..])
  {
  }

  lemma SplitHead(s: string, k: nat)
    requires k < |s| && BreakAt(s) == k
    ensures SplitLines(s) == [s[..k]] + SplitLines(s[LineAfter(s, k)..])
  {
    hide IsBreak, HasBreak, LineAfter;
  }

  /** In a complete line there is a break, and it stays the first one whatever follows. */
  lemma BreakStays(text: string, rest: string)
    requires text != "" && EndsLine(text)
    ensures BreakAt(text) < |text| && BreakAt(text + rest) == BreakAt(text)
  {
    hide IsBreak;
    var k, s := BreakAt(text), text + rest;
    NewlineBreaks();
    assert text[|text| - 1] == '\n';
    assert forall i | 0 <= i < |text| :: s[i] == text[i];
    BreakAtIs(s, k);
  }

  /** Text after a complete line is split on its own. */
  lemma {:induction false} SplitAppend(text: string, rest: string)
    requires EndsLine(text)
    ensures SplitLines(text + rest) == SplitLines(text) + SplitLines(rest)
    decreases |text|
  {
    hide IsBreak, HasBreak, SplitLines, BreakAt, LineAfter;
    if text == "" {
      assert text + rest == rest;
      SplitNothing();
    } else {
      var k, s := BreakAt(text), text + rest;
      BreakStays(text, rest);
      assert s[..k] == text[..k];
      LineAfterAppend(text, rest, k);
      SplitHead(text, k);
      SplitHead(s, k);
      SplitAppend(text[LineAfter(text, k)..], rest);
    }
  }

  lemma SplitNothing()
    ensures SplitLines("") == []
  {
  }

  lemma SplitOne(line: string)
    requires !HasBreak(line)
    ensures SplitLines(line + "\n") == [line]
  {
    var s := line + "\n";
    assert s[..|line|] == line;
    BreakAtIs(s, |line|);
    assert s[|line| + 1..] == "";
  }

  /** A name the reader leaves as it is. */
  predicate PlainKey(key: string) {
    && '=' !in key && !HasBreak(key) && Strip(key) == key
    && (key != "" ==> key[0] != '#')
  }

  lemma {:induction false} BodyKeepsLine(value: string)
    requires !HasBreak(value)
    ensures !HasBreak(Body(value))
  {
    if value != "" { BodyKeepsLine(value[1..]); }
  }

  /** A stripped text does not begin with a space. */
  lemma FirstStays(key: string)
    requires Strip(key) == key
    ensures key != "" ==> !IsSpace(key[0])
  {
    assert |TrimLeft(key)| == |key|;
  }

  lemma EqualsIsNoSpace()
    ensures !IsSpace('=')
  {
  }

  lemma AssignmentSplits(key: string, raw: string)
    requires PlainKey(key)
    ensures var line := key + "=" + raw;
            IsAssignment(line) && EqualsAt(line) == |key| && line[..|key|] == key && line[|key| + 1..] == raw
  {
    hide IsSpace, IsBreak, Strip;
    var line := key + "=" + raw;
    FirstStays(key);
    EqualsIsNoSpace();
    EqualsAfter(key, raw);
    assert line[0] == if key == "" then '=' else key[0];
  }

  lemma LiteralLine(values: map<string, string>, key: string, value: string)
    requires PlainKey(key) && !HasBreak(value)
    ensures var line := key + "=" + ComposeEnvValue(value);
            !HasBreak(line) && ReadLine(values, line) == values[key := value]
  {
    hide DecodedValue, IsAssignment, IsBreak, Replace, Body, Strip, EqualsAt;
    var literal := ComposeEnvValue(value);
    ReplacementsAreBody(value);
    BodyKeepsLine(value);
    AssignmentSplits(key, literal);
    DecodedLiteral(value);
    AsciiKeepsLine();
  }

  lemma AsciiKeepsLine()
    ensures !IsBreak('"') && !IsBreak('=')
  {
  }

  /** The round trip: whatever precedes the assignment in the file, reading it back gives the original value
      exactly when the value has no line break. */
  lemma RoundTrip(before: string, key: string, value: string)
    requires EndsLine(before) && PlainKey(key)
    ensures var values := ReadLines(SplitLines(before + (key + "=" + ComposeEnvValue(value) + "\n")));
            key in values && values[key] == value <==> !HasBreak(value)
  {
    var line := key + "=" + ComposeEnvValue(value);
    var lines := SplitLines(before + (line + "\n"));
    hide ComposeEnvValue, SplitLines, HasBreak, Strip, IsBreak;
    if HasBreak(value) {
      ReadKeepsLine(lines);
    } else {
      var earlier := SplitLines(before);
      LiteralLine(ReadLines(earlier), key, value);
      SplitAppend(before, line + "\n");
      SplitOne(line);
      assert lines == earlier + [line] && lines[..|lines| - 1] == earlier;
    }
  }
}
