/** The shell-quoting printer, against word splitting as POSIX.1-2017 Shell Command
    Language sections 2.2.1 to 2.2.3 and 2.3 define it. */
module ShellWords {

  // ---- The printer ----------------------------------------------------------------

  predicate SafeChar(c: char)
  {
    || 'A' <= c <= 'Z' || 'a' <= c <= 'z' || '0' <= c <= '9'
    || c == '_' || c == '.' || c == '/' || c == ':' || c == '=' || c == '+' || c == '@' || c == '%' || c == ','
        || c == '-'
  }

  predicate Safe(value: string)
  {
    value != [] && forall i | 0 <= i < |value| :: SafeChar(value[i])
  }

  /** Leaves single quotes, writes a double-quoted single quote, re-enters. */
  const ESCAPED_QUOTE := "'\"'\"'"

  function ReplaceQuotes(value: string): string
  {
    if value == [] then [] else
      (if value[0] == '\'' then ESCAPED_QUOTE else [value[0]]) + ReplaceQuotes(value[1..])
  }

  function ShQuote(value: string): string
  {
    if Safe(value) then value else "'" + ReplaceQuotes(value) + "'"
  }

  function ShellJoin(parts: seq<string>): string
  {
    if parts == [] then [] else if |parts| == 1 then ShQuote(parts[0])
        else ShQuote(parts[0]) + " " + ShellJoin(parts[1..])
  }

  // ---- The shell's reading ----------------------------------------------------------

  datatype Mode = Unquoted | SingleQuoted | DoubleQuoted

  datatype Word = NoWord | Building(text: string)

  datatype Split = Words(words: seq<string>) | Unsupported

  function Extend(w: Word, c: char): Word
  {
    Building((if w.NoWord? then [] else w.text) + [c])
  }

  function Touch(w: Word): Word
  {
    if w.NoWord? then Building([]) else w
  }

  function Emit(w: Word, rest: Split): Split
  {
    if rest.Unsupported? || w.NoWord? then rest else Words([w.text] + rest.words)
  }

  /** Characters that, unquoted, start an operator, an expansion or a pattern: a line
      holding one is more than a list of words. `#` opens a comment only at a word's start. */
  predicate Active(c: char)
  {
    || c == '|' || c == '&' || c == ';' || c == '<' || c == '>' || c == '(' || c == ')' || c == '$' || c == '`'
    || c == '*' || c == '?' || c == '[' || c == '~' || c == '{' || c == '}' || c == '!' || c == '\n'
  }

  /** Characters a backslash escapes inside double quotes. */
  predicate Escapable(c: char)
  {
    c == '$' || c == '`' || c == '"' || c == '\\' || c == '\n'
  }

  /** Reads `s` in `mode` with word `w` so far: the words it yields after quote removal. */
  function Read(mode: Mode, w: Word, s: string): Split
    decreases |s|
  {
    if s == [] then
      if mode != Unquoted then Unsupported else Emit(w, Words([]))
    else
      var c, rest := s[0], s[1..];
      match mode
      case Unquoted =>
        if c == ' ' || c == '\t' then Emit(w, Read(Unquoted, NoWord, rest))
        else if c == '\'' then Read(SingleQuoted, Touch(w), rest)
        else if c == '"' then Read(DoubleQuoted, Touch(w), rest)
        else if c == '\\' then
          if rest == [] then Unsupported
          else Read(Unquoted, if rest[0] == '\n' then w else Extend(w, rest[0]), rest[1..])
        else if Active(c) || (c == '#' && w.NoWord?) then Unsupported
        else Read(Unquoted, Extend(w, c), rest)
      case SingleQuoted =>
        if c == '\'' then Read(Unquoted, w, rest) else Read(SingleQuoted, Extend(w, c), rest)
      case DoubleQuoted =>
        if c == '"' then Read(Unquoted, w, rest)
        else if c == '$' || c == '`' then Unsupported
        else if c == '\\' && rest != [] && Escapable(rest[0]) then
          Read(DoubleQuoted, if rest[0] == '\n' then w else Extend(w, rest[0]), rest[1..])
        else Read(DoubleQuoted, Extend(w, c), rest)
  }

  function ShellSplit(line: string): Split
  {
    Read(Unquoted, NoWord, line)
  }

  // ---- Round trip -------------------------------------------------------------------

  function Append(w: Word, text: string): Word
  {
    Building((if w.NoWord? then [] else w.text) + text)
  }

  lemma ReadSafeChar(w: Word, s: string)
    requires s != [] && SafeChar(s[0])
    ensures Read(Unquoted, w, s) == Read(Unquoted, Extend(w, s[0]), s[1..])
  {
  }

  lemma ReadSpace(text: string, s: string)
    requires s != [] && s[0] == ' '
    ensures Read(Unquoted, Building(text), s) == Emit(Building(text), Read(Unquoted, NoWord, s[1..]))
  {
  }

  lemma AppendFirst(w: Word, value: string)
    requires value != []
    ensures Append(Extend(w, value[0]), value[1..]) == Append(w, value)
  {
    assert value == [value[0]] + value[1..];
  }

  lemma {:induction false} ReadSafe(w: Word, value: string, rest: string)
    requires forall i | 0 <= i < |value| :: SafeChar(value[i])
    requires value != []
    ensures Read(Unquoted, w, value + rest) == Read(Unquoted, Append(w, value), rest)
    decreases |value|
  {
    var s := value + rest;
    assert s[0] == value[0] && s[1..] == value[1..] + rest;
    ReadSafeChar(w, s);
    AppendFirst(w, value);
    if |value| > 1 {
      ReadSafe(Extend(w, value[0]), value[1..], rest);
    } else {
      assert value[1..] + rest == rest && Append(Extend(w, value[0]), []) == Extend(w, value[0]);
    }
  }

  lemma ReadEscapedQuote(w: Word, rest: string)
    requires w.Building?
    ensures Read(SingleQuoted, w, ESCAPED_QUOTE + rest) == Read(SingleQuoted, Extend(w, '\''), rest)
  {
    var s := ESCAPED_QUOTE + rest;
    assert s[1..][0] == '"' && s[1..][1..][0] == '\'' && s[1..][1..][1..][0] == '"' && s[1..][1..][1..][1..][0] == '\'';
    assert s[1..][1..][1..][1..][1..] == rest;
    assert Read(SingleQuoted, w, s) == Read(Unquoted, w, s[1..]);
    assert Read(Unquoted, w, s[1..]) == Read(DoubleQuoted, w, s[1..][1..]);
    var u := Extend(w, '\'');
    assert Read(DoubleQuoted, w, s[1..][1..]) == Read(DoubleQuoted, u, s[1..][1..][1..]);
    assert Read(DoubleQuoted, u, s[1..][1..][1..]) == Read(Unquoted, u, s[1..][1..][1..][1..]);
    assert Read(Unquoted, u, s[1..][1..][1..][1..]) == Read(SingleQuoted, u, rest);
  }

  lemma {:induction false} ReadQuotedBody(w: Word, value: string, rest: string)
    requires w.Building?
    ensures Read(SingleQuoted, w, ReplaceQuotes(value) + "'" + rest) == Read(Unquoted, Append(w, value), rest)
    decreases |value|
  {
    var s := ReplaceQuotes(value) + "'" + rest;
    if value == [] {
      assert s == ['\''] + rest && s[1..] == rest && Append(w, value) == w;
    } else {
      var tail := ReplaceQuotes(value[1..]) + "'" + rest;
      ReadQuotedBody(Extend(w, value[0]), value[1..], rest);
      AppendFirst(w, value);
      if value[0] == '\'' {
        assert s == ESCAPED_QUOTE + tail;
        ReadEscapedQuote(w, tail);
      } else {
        assert s == [value[0]] + tail && s[1..] == tail;
      }
    }
  }

  lemma ReadOpeningQuote(s: string)
    requires s != [] && s[0] == '\''
    ensures Read(Unquoted, NoWord, s) == Read(SingleQuoted, Building([]), s[1..])
  {
  }

  lemma ReadBare(value: string, rest: string)
    requires Safe(value)
    ensures Read(Unquoted, NoWord, value + rest) == Read(Unquoted, Building(value), rest)
  {
    ReadSafe(NoWord, value, rest);
    assert [] + value == value;
  }

  lemma ReadBetweenQuotes(value: string, rest: string)
    ensures Read(Unquoted, NoWord, "'" + ReplaceQuotes(value) + "'" + rest) == Read(Unquoted, Building(value), rest)
  {
    var s := "'" + ReplaceQuotes(value) + "'" + rest;
    assert s[1..] == ReplaceQuotes(value) + "'" + rest;
    ReadOpeningQuote(s);
    ReadQuotedBody(Building([]), value, rest);
    assert [] + value == value;
  }

  lemma ReadQuoted(value: string, rest: string)
    ensures Read(Unquoted, NoWord, ShQuote(value) + rest) == Read(Unquoted, Building(value), rest)
  {
    if Safe(value) { ReadBare(value, rest); } else { ReadBetweenQuotes(value, rest); }
  }

  lemma ReadLast(value: string)
    ensures Read(Unquoted, NoWord, ShQuote(value)) == Words([value])
  {
    ReadQuoted(value, []);
    assert ShQuote(value) + [] == ShQuote(value);
  }

  lemma ReadFirst(value: string, line: string)
    ensures Read(Unquoted, NoWord, ShQuote(value) + " " + line) == Emit(Building(value), Read(Unquoted, NoWord, line))
  {
    var rest := " " + line;
    ReadQuoted(value, rest);
    ReadSpace(value, rest);
    assert rest[1..] == line;
    assert ShQuote(value) + " " + line == ShQuote(value) + rest;
  }

  /** Splitting a joined line gives back exactly the parts, whatever they contain. */
  lemma {:induction false} SplitJoin(parts: seq<string>)
    ensures ShellSplit(ShellJoin(parts)) == Words(parts)
  {
    if |parts| == 1 {
      ReadLast(parts[0]);
    } else if parts != [] {
      ReadFirst(parts[0], ShellJoin(parts[1..]));
      SplitJoin(parts[1..]);
      assert [parts[0]] + parts[1..] == parts;
    }
  }

  /** Hence no two argument lists print alike. */
  lemma JoinInjective(a: seq<string>, b: seq<string>)
    requires ShellJoin(a) == ShellJoin(b)
    ensures a == b
  {
    SplitJoin(a);
    SplitJoin(b);
  }
}
