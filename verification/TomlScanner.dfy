/**
 The scanner itself: a position and a line counter that move over the source.  Every method consumes
 and yields exactly what TomlText says of the unread text, keeps the line counter equal to one plus
 the newlines consumed, and on a failure names a line between the one it began on and the one it
 stopped on.
 */
module TomlScanner {
  import opened Base
  import opened T = TomlText

  function Newlines(s: string): nat {
    if s == [] then 0 else Newlines(s[..|s| - 1]) + if s[|s| - 1] == '\n' then 1 else 0
  }

  class Scanner {
    const src: string
    var pos: nat
    var line: nat

    ghost predicate Valid()
      reads this
    {
      pos <= |src| && line == 1 + Newlines(src[..pos])
    }

    /** The unread text. */
    ghost function Cur(): (c: Cursor)
      requires Valid()
      reads this
      ensures |c.rest| == |src| - pos && c.line == line
    {
      Cursor(src[pos..], line)
    }

    /**
     Having begun at `start` on line `first`, the scanner stands where `spec` ends; or both failed
     alike, naming a line that was really read.
     */
    ghost predicate Reads<X>(spec: Read<X>, start: nat, first: nat, r: Result<X, Failure>)
      reads this
    {
      && Valid() && start <= pos && first <= line
      && match spec
         case Got(v, c) => r == Ok(v) && Cur() == c
         case Bad(f) => r == Err(f) && first <= f.line <= line
    }

    constructor (text: string)
      ensures Valid() && src == text && Cur() == Cursor(text, 1)
    {
      src, pos, line := text, 0, 1;
    }

    predicate Eof()
      reads this
    {
      pos >= |src|
    }

    function PeekAt(off: nat): (ch: char)
      requires Valid()
      reads this
      ensures ch == if off < |Cur().rest| then Cur().rest[off] else '\0'
    {
      if pos + off >= |src| then '\0' else src[pos + off]
    }

    method Advance() returns (ch: char)
      requires Valid() && !Eof()
      modifies this
      ensures Valid() && pos == old(pos) + 1 && old(line) <= line
      ensures Cur() == T.Advance(old(Cur())) && ch == old(PeekAt(0))
    {
      ch := src[pos];
      assert src[..pos + 1][..pos] == src[..pos];
      pos := pos + 1;
      if ch == '\n' {
        line := line + 1;
      }
    }

    method SkipWhile(p: char -> bool)
      requires Valid()
      modifies this
      ensures Valid() && old(pos) <= pos && old(line) <= line
      ensures Cur() == T.SkipWhile(old(Cur()), p)
      ensures src[old(pos)..pos] == Taken(old(Cur()), Cur())
    {
      while !Eof() && p(PeekAt(0))
        invariant Valid() && old(pos) <= pos && old(line) <= line
        invariant T.SkipWhile(Cur(), p) == T.SkipWhile(old(Cur()), p)
        decreases |src| - pos
      {
        var _ := Advance();
      }
    }

    method SkipSpaces()
      requires Valid()
      modifies this
      ensures Valid() && old(pos) <= pos && old(line) <= line
      ensures Cur() == T.SkipSpaces(old(Cur()))
    {
      SkipWhile(IsSpace);
    }

    method SkipFiller()
      requires Valid()
      modifies this
      ensures Valid() && old(pos) <= pos && old(line) <= line
      ensures Cur() == T.SkipFiller(old(Cur()))
    {
      while !Eof()
        invariant Valid() && old(pos) <= pos && old(line) <= line
        invariant T.SkipFiller(Cur()) == T.SkipFiller(old(Cur()))
        decreases |src| - pos
      {
        if IsBlank(PeekAt(0)) {
          var _ := Advance();
        } else if PeekAt(0) == '#' {
          SkipWhile(IsNotNewline);
        } else {
          return;
        }
      }
    }

    method EndOfStatement() returns (r: Result<(), Failure>)
      requires Valid()
      modifies this
      ensures Reads(T.EndOfStatement(old(Cur())), old(pos), old(line), r)
    {
      SkipSpaces();
      if Eof() {
        return Ok(());
      }
      if PeekAt(0) == '#' {
        SkipWhile(IsNotNewline);
        return Ok(());
      }
      if PeekAt(0) == '\r' {
        var _ := Advance();
        if Eof() {
          return Ok(());
        }
        if PeekAt(0) != '\n' {
          return Err(Failure("end of line", line));
        }
        var _ := Advance();
        return Ok(());
      }
      if PeekAt(0) == '\n' {
        var _ := Advance();
        return Ok(());
      }
      return Err(Failure("end of line", line));
    }

    // --- Strings ----------------------------------------------------------------------

    method ReadUnicodeEscape(digits: nat, escapeLine: nat) returns (r: Result<string, Failure>)
      requires Valid() && escapeLine <= line
      modifies this
      ensures Reads(ReadUnicode(old(Cur()), digits, 0, escapeLine), old(pos), escapeLine, r)
      ensures old(line) <= line
    {
      var rune := 0;
      for i := 0 to digits
        invariant Valid() && old(pos) <= pos && old(line) <= line
        invariant ReadUnicode(Cur(), digits - i, rune, escapeLine) == ReadUnicode(old(Cur()), digits, 0, escapeLine)
      {
        if Eof() {
          return Err(Failure("escape", escapeLine));
        }
        var ch := Advance();
        var digit := HexDigit(ch);
        if digit.None? {
          return Err(Failure("escape", escapeLine));
        }
        rune := Wrap32(rune * 16 + digit.value);
      }
      if rune > 0x10_FFFF || 0xD800 <= rune <= 0xDFFF {
        return Err(Failure("code point", escapeLine));
      }
      return Ok(Utf8(rune));
    }

    method ReadEscape(multiline: bool) returns (r: Result<string, Failure>)
      requires Valid() && !Eof()
      modifies this
      ensures Reads(T.ReadEscape(old(Cur()), multiline), old(pos), old(line), r)
      ensures r.Ok? ==> pos > old(pos)
    {
      var escapeLine := line;
      var _ := Advance();
      if Eof() {
        return Err(Failure("escape", escapeLine));
      }
      var ch := Advance();
      if SimpleEscape(ch).Some? {
        return Ok(SimpleEscape(ch).value);
      }
      if ch == 'u' {
        r := ReadUnicodeEscape(4, escapeLine);
      } else if ch == 'U' {
        r := ReadUnicodeEscape(8, escapeLine);
      } else if ch == '\n' || ch == '\r' {
        if !multiline {
          return Err(Failure("line continuation", escapeLine));
        }
        SkipWhile(IsBlank);
        return Ok([]);
      } else {
        return Err(Failure("unknown escape", escapeLine));
      }
    }

    /** `n` characters that are known to be there. */
    method Skip(n: nat)
      requires Valid() && n <= |src| - pos
      modifies this
      ensures Valid() && pos == old(pos) + n && old(line) <= line
      ensures Cur() == Drop(old(Cur()), n)
    {
      for i := 0 to n
        invariant Valid() && pos == old(pos) + i && old(line) <= line
        invariant Drop(Cur(), n - i) == Drop(old(Cur()), n)
      {
        var _ := Advance();
      }
    }

    /** The length of the run of quotes ahead; nothing is consumed. */
    method CountQuotes(quote: char) returns (run: nat)
      requires Valid() && quote != '\0'
      ensures run == QuoteRun(Cur().rest, quote)
    {
      run := 0;
      while PeekAt(run) == quote
        invariant run <= |Cur().rest|
        invariant run + QuoteRun(Cur().rest[run..], quote) == QuoteRun(Cur().rest, quote)
        decreases |Cur().rest| - run
      {
        assert Cur().rest[run..][1..] == Cur().rest[run + 1..];
        run := run + 1;
      }
    }

    method ReadString(multiline: bool) returns (r: Result<string, Failure>)
      requires Valid() && !Eof() && PeekAt(0) != '\0'
      requires multiline ==> TripleQuote(Cur().rest)
      modifies this
      ensures Reads(T.ReadString(old(Cur()), multiline), old(pos), old(line), r)
    {
      var first := line;
      var quote := PeekAt(0);
      if multiline {
        Skip(3);
        if PeekAt(0) == '\r' {
          var _ := Advance();
        }
        if PeekAt(0) == '\n' {
          var _ := Advance();
        }
      } else {
        var _ := Advance();
      }
      r := ReadBody(quote, multiline, first);
    }

    method ReadBody(quote: char, multiline: bool, first: nat) returns (r: Result<string, Failure>)
      requires Valid() && quote != '\0' && first <= line
      modifies this
      ensures Reads(StringBody(old(Cur()), quote, multiline, [], first), old(pos), first, r)
      ensures old(line) <= line
    {
      var text := "";
      while true
        invariant Valid() && old(pos) <= pos && old(line) <= line
        invariant StringBody(Cur(), quote, multiline, text, first) ==
                  StringBody(old(Cur()), quote, multiline, [], first)
        decreases |src| - pos
      {
        hide T.ReadEscape;
        if Eof() {
          return Err(Failure("unclosed string", first));
        }
        var ch := PeekAt(0);
        if ch == quote && multiline {
          var run := CountQuotes(quote);
          Skip(run);
          if run >= 3 {
            return Ok(text + Repeat(quote, run - 3));
          }
          text := text + Repeat(quote, run);
        } else if ch == quote {
          var _ := Advance();
          return Ok(text);
        } else if ch == '\\' && quote == '"' {
          var escaped := ReadEscape(multiline);
          if escaped.Err? {
            return Err(escaped.error);
          }
          text := text + escaped.value;
        } else if ch == '\n' && !multiline {
          return Err(Failure("newline in string", line));
        } else if ch < ' ' && ch != '\t' && ch != '\n' && ch != '\r' {
          return Err(Failure("control character", line));
        } else {
          var _ := Advance();
          text := text + [ch];
        }
      }
    }

    // --- Keys -------------------------------------------------------------------------

    method ReadKeySegment() returns (r: Result<string, Failure>)
      requires Valid()
      modifies this
      ensures Reads(T.ReadKeySegment(old(Cur())), old(pos), old(line), r)
    {
      if PeekAt(0) == '"' || PeekAt(0) == '\'' {
        r := ReadString(false);
        return;
      }
      var start := pos;
      SkipWhile(IsBareKeyChar);
      if start == pos {
        return Err(Failure("key", line));
      }
      return Ok(src[start..pos]);
    }

    method ReadKeyPath() returns (r: Result<seq<string>, Failure>)
      requires Valid()
      modifies this
      ensures Reads(T.ReadKeyPath(old(Cur()), []), old(pos), old(line), r)
    {
      var path := [];
      while true
        invariant Valid() && old(pos) <= pos && old(line) <= line
        invariant T.ReadKeyPath(Cur(), path) == T.ReadKeyPath(old(Cur()), [])
        decreases |src| - pos
      {
        hide T.ReadKeySegment;
        var seg := ReadKeySegment();
        if seg.Err? {
          return Err(seg.error);
        }
        path := path + [seg.value];
        if PeekAt(0) != '.' {
          return Ok(path);
        }
        var _ := Advance();
      }
    }

    // --- Values -----------------------------------------------------------------------

    method ReadBool() returns (r: Result<Toml, Failure>)
      requires Valid()
      modifies this
      ensures Reads(T.ReadBool(old(Cur())), old(pos), old(line), r)
    {
      var words := ["true", "false"];
      assert words[0] == "true" && words[1] == "false";
      for i := 0 to 2
        invariant Valid() && pos == old(pos) && line == old(line)
        invariant forall k :: 0 <= k < i ==> !WordAhead(Cur().rest, words[k])
      {
        var word := words[i];
        if word <= src[pos..] {
          var after := PeekAt(|word|);
          if IsValueTerminator(after) || after == '=' {
            Skip(|word|);
            return Ok(Bool(word));
          }
        }
      }
      return Err(Failure("boolean", line));
    }

    method ReadNumber() returns (r: Result<Toml, Failure>)
      requires Valid()
      modifies this
      ensures Reads(T.ReadNumber(old(Cur())), old(pos), old(line), r)
    {
      hide IsNumber;
      var start := pos;
      SkipWhile(IsNumberChar);
      var raw := src[start..pos];
      if !IsNumber(raw) {
        return Err(Failure("number", line));
      }
      return Ok(Num(raw));
    }

    method ReadValue() returns (r: Result<Toml, Failure>)
      requires Valid()
      modifies this
      ensures Reads(T.ReadValue(old(Cur())), old(pos), old(line), r)
      decreases |src| - pos, 1
    {
      hide T.ReadString, T.ReadBool, T.ReadNumber, T.ReadArray, T.ReadInline;
      if Eof() {
        return Err(Failure("value", line));
      }
      var ch := PeekAt(0);
      if ch == '"' || ch == '\'' {
        var s := ReadString(PeekAt(1) == ch && PeekAt(2) == ch);
        return if s.Ok? then Ok(Str(s.value)) else Err(s.error);
      }
      if ch == '[' {
        r := ReadArray();
      } else if ch == '{' {
        r := ReadInlineTable();
      } else if ch == 't' || ch == 'f' {
        r := ReadBool();
      } else if ch == '+' || ch == '-' || '0' <= ch <= '9' {
        r := ReadNumber();
      } else {
        return Err(Failure("value", line));
      }
    }

    method ReadArray() returns (r: Result<Toml, Failure>)
      requires Valid() && !Eof()
      modifies this
      ensures Reads(T.ReadArray(T.Advance(old(Cur())), [], old(line)), old(pos), old(line), r)
      decreases |src| - pos, 0
    {
      var first := line;
      var _ := Advance();
      var list := [];
      while true
        invariant Valid() && old(pos) < pos && old(line) <= line
        invariant T.ReadArray(Cur(), list, first) == T.ReadArray(T.Advance(old(Cur())), [], first)
        decreases |src| - pos
      {
        hide T.ReadValue, T.SkipFiller;
        SkipFiller();
        if Eof() {
          return Err(Failure("unclosed array", first));
        }
        if PeekAt(0) == ']' {
          var _ := Advance();
          return Ok(Arr(list));
        }
        var value := ReadValue();
        if value.Err? {
          return Err(value.error);
        }
        SkipFiller();
        if Eof() {
          return Err(Failure("unclosed array", first));
        }
        if PeekAt(0) == ',' {
          var _ := Advance();
          list := list + [value.value];
        } else if PeekAt(0) == ']' {
          var _ := Advance();
          return Ok(Arr(list + [value.value]));
        } else {
          return Err(Failure("array", line));
        }
      }
    }

    method ReadInlineTable() returns (r: Result<Toml, Failure>)
      requires Valid() && !Eof()
      modifies this
      ensures Reads(T.ReadInline(T.Advance(old(Cur())), [], old(line)), old(pos), old(line), r)
      decreases |src| - pos, 0
    {
      var first := line;
      var _ := Advance();
      var items := [];
      while true
        invariant Valid() && old(pos) < pos && old(line) <= line
        invariant T.ReadInline(Cur(), items, first) == T.ReadInline(T.Advance(old(Cur())), [], first)
        decreases |src| - pos
      {
        hide T.ReadItem, T.SkipSpaces, T.Advance, Newlines;
        SkipSpaces();
        if Eof() {
          return Err(Failure("unclosed table", first));
        }
        if PeekAt(0) == '}' {
          var _ := Advance();
          return Ok(Inline(items));
        }
        if PeekAt(0) == '\n' || PeekAt(0) == '\r' {
          return Err(Failure("newline in table", line));
        }
        var item := ReadItem();
        if item.Err? {
          return Err(item.error);
        }
        SkipSpaces();
        if Eof() {
          return Err(Failure("unclosed table", first));
        }
        if PeekAt(0) == ',' {
          var _ := Advance();
          items := items + [item.value];
        } else if PeekAt(0) == '}' {
          var _ := Advance();
          return Ok(Inline(items + [item.value]));
        } else {
          return Err(Failure("table", line));
        }
      }
    }

    method ReadItem() returns (r: Result<Item, Failure>)
      requires Valid()
      modifies this
      ensures Reads(T.ReadItem(old(Cur())), old(pos), old(line), r)
      decreases |src| - pos, 1
    {
      hide T.ReadValue, T.SkipSpaces, T.ReadKeySegment;
      var key := ReadKeySegment();
      if key.Err? {
        return Err(key.error);
      }
      SkipSpaces();
      if PeekAt(0) != '=' {
        return Err(Failure("equals in table", line));
      }
      var _ := Advance();
      SkipSpaces();
      var value := ReadValue();
      if value.Err? {
        return Err(value.error);
      }
      return Ok(Item(key.value, value.value));
    }

    // --- Statements -------------------------------------------------------------------

    method ReadTableHeader() returns (r: Result<Stmt, Failure>)
      requires Valid() && !Eof()
      modifies this
      ensures Reads(ReadHeader(old(Cur())), old(pos), old(line), r)
      ensures r.Ok? ==> old(line) <= r.value.line <= line
    {
      hide T.ReadKeyPath, T.EndOfStatement;
      var first := line;
      var _ := Advance();
      if PeekAt(0) == '[' {
        return Err(Failure("array of tables", first));
      }
      var path := ReadKeyPath();
      if path.Err? {
        return Err(path.error);
      }
      if PeekAt(0) != ']' {
        return Err(Failure("header", line));
      }
      var _ := Advance();
      var end := EndOfStatement();
      if end.Err? {
        return Err(end.error);
      }
      return Ok(Header(path.value, first));
    }

    /** The line it carries is the scanner's line after the statement, which is what the parser hands on. */
    method ReadKeyValue() returns (r: Result<Stmt, Failure>)
      requires Valid()
      modifies this
      ensures Reads(T.ReadKeyValue(old(Cur())), old(pos), old(line), r)
      ensures r.Ok? ==> old(line) <= r.value.line <= line
    {
      hide T.ReadKeyPath, T.EndOfStatement, T.ReadValue, T.SkipSpaces;
      var first := line;
      var path := ReadKeyPath();
      if path.Err? {
        return Err(path.error);
      }
      SkipSpaces();
      if PeekAt(0) != '=' {
        return Err(Failure("equals", first));
      }
      var _ := Advance();
      SkipSpaces();
      var value := ReadValue();
      if value.Err? {
        return Err(value.error);
      }
      var end := EndOfStatement();
      if end.Err? {
        return Err(end.error);
      }
      return Ok(Assign(path.value, value.value, line));
    }

    /** The next statement, or none at the end of the text. */
    method ReadStatement() returns (r: Result<Option<Stmt>, Failure>)
      requires Valid()
      modifies this
      ensures Reads(T.ReadStatement(old(Cur())), old(pos), old(line), r)
      ensures r.Ok? && r.value.Some? ==> old(pos) < pos && old(line) <= r.value.value.line <= line
    {
      hide T.ReadKeyValue, T.ReadHeader, T.SkipFiller;
      SkipFiller();
      if Eof() {
        return Ok(None);
      }
      var st: Result<Stmt, Failure>;
      if PeekAt(0) == '[' {
        st := ReadTableHeader();
      } else {
        st := ReadKeyValue();
      }
      return if st.Ok? then Ok(Some(st.value)) else Err(st.error);
    }
  }
}
