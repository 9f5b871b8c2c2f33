/** The NQL lexer as it runs (crates/nova-query/src/lexer.rs): a cursor over the characters. */
module Lexers {
  import opened Core
  import opened Tokens
  import opened Utf8
  import opened Lexing

  /** The content read so far, and what is still to come. */
  function Continued(content: string, more: Option<(string, string)>): Option<(string, string)> {
    if more.None? then None else Some((content + more.value.0, more.value.1))
  }

  /** One round of the string loop. */
  lemma StringRound(quote: char, content: string, cs: string)
    requires cs != "" && cs[0] != quote
    ensures var escaped := cs[0] == '\\' && |cs| > 1;
            Continued(content, ScanString(quote, cs))
            == Continued(content + [if escaped then Unescape(cs[1]) else cs[0]], ScanString(quote, if escaped then cs[2..] else cs[1..]))
  {
    var escaped := cs[0] == '\\' && |cs| > 1;
    var rest := if escaped then cs[2..] else cs[1..];
    var c := if escaped then Unescape(cs[1]) else cs[0];
    var more := ScanString(quote, rest);
    assert ScanString(quote, cs) == if more.None? then None else Some(([c] + more.value.0, more.value.1));
    hide ScanString;
    if more.Some? {
      assert content + ([c] + more.value.0) == (content + [c]) + more.value.0;
    }
  }

  class Lexer {
    const alphabet: Alphabet
    const chars: string
    var cursor: nat

    ghost predicate Valid()
      reads this
    {
      cursor <= |chars|
    }

    ghost function Rest(): string
      reads this
      requires Valid()
    {
      chars[cursor..]
    }

    constructor (alphabet: Alphabet, source: string)
      ensures Valid() && Rest() == source && this.alphabet == alphabet
    {
      this.alphabet := alphabet;
      chars := source;
      cursor := 0;
    }

    method Peek() returns (c: Option<char>)
      requires Valid()
      ensures c == if Rest() == "" then None else Some(Rest()[0])
    {
      c := if cursor < |chars| then Some(chars[cursor]) else None;
    }

    method PeekNext() returns (c: Option<char>)
      requires Valid()
      ensures c == if |Rest()| < 2 then None else Some(Rest()[1])
    {
      c := if cursor + 1 < |chars| then Some(chars[cursor + 1]) else None;
    }

    method Advance() returns (c: Option<char>)
      requires Valid()
      modifies this
      ensures Valid()
      ensures if old(Rest()) == "" then c == None && Rest() == "" else c == Some(old(Rest())[0]) && Rest() == old(Rest())[1..]
    {
      if cursor < |chars| {
        c := Some(chars[cursor]);
        cursor := cursor + 1;
      } else {
        c := None;
      }
    }

    /** The rest of a comment line. */
    method SkipLine()
      requires Valid()
      modifies this
      ensures Valid() && Rest() == AfterLine(old(Rest()))
    {
      var c := Advance();
      while c.Some? && c.value != '\n'
        invariant Valid()
        invariant AfterLine(old(Rest())) == if c == None || c == Some('\n') then Rest() else AfterLine(Rest())
        decreases |Rest()|, c.Some?
      {
        c := Advance();
      }
    }

    /** A string literal after its opening quote. */
    method ReadString(quote: char) returns (content: Option<string>)
      requires Valid()
      modifies this
      ensures Valid()
      ensures var s := ScanString(quote, old(Rest()));
              if s.None? then content == None else content == Some(s.value.0) && Rest() == s.value.1
    {
      var text := "";
      ghost var all := ScanString(quote, Rest());
      assert all == Continued("", all) by {
        if all.Some? { assert "" + all.value.0 == all.value.0; }
      }
      while true
        invariant Valid() && all == Continued(text, ScanString(quote, Rest()))
        decreases |Rest()|
      {
        ghost var before := Rest();
        var c := Advance();
        if c == None { return None; }
        if c.value == quote {
          assert text + "" == text;
          return Some(text);
        }
        StringRound(quote, text, before);
        if c.value == '\\' {
          var escaped := Advance();
          if escaped.Some? {
            text := text + [Unescape(escaped.value)];
            continue;
          }
        }
        text := text + [c.value];
      }
    }

    /** The digits of a number, with at most one dot. */
    method ReadDigits() returns (text: string)
      requires Valid()
      modifies this
      ensures Valid()
      ensures var n := NumberLength(old(Rest()), false); text == old(Rest())[..n] && Rest() == old(Rest())[n..]
    {
      var start := cursor;
      var hasDot := false;
      while true
        invariant Valid() && start <= cursor
        invariant NumberLength(old(Rest()), false) == cursor - start + NumberLength(Rest(), hasDot)
        decreases |Rest()|
      {
        var c := Peek();
        var next := PeekNext();
        if c == None { break; }
        if IsDigit(c.value) {
          var _ := Advance();
        } else if c.value == '.' && !hasDot && next.Some? && IsDigit(next.value) {
          hasDot := true;
          var _ := Advance();
        } else {
          break;
        }
      }
      text := chars[start..cursor];
    }

    method ReadNumber() returns (res: Result<Token>)
      requires Valid() && StartsNumber(Rest())
      modifies this
      ensures Valid()
      ensures var digits := if old(Rest())[0] == '-' then old(Rest())[1..] else old(Rest());
              var n := NumberLength(digits, false);
              res == NumberToken(old(Rest())[0] == '-', digits[..n]) && Rest() == digits[n..]
    {
      var c := Peek();
      var negative := c.value == '-';
      if negative { var _ := Advance(); }
      var digits := ReadDigits();
      res := NumberToken(negative, digits);
    }

    /** An identifier or keyword. */
    method ReadWord() returns (t: Token)
      requires Valid()
      modifies this
      ensures Valid()
      ensures var n := WordLength(alphabet, old(Rest())); t == WordToken(old(Rest())[..n]) && Rest() == old(Rest())[n..]
    {
      hide WordToken;
      hide ContinuesWord;
      var start := cursor;
      while cursor < |chars| && ContinuesWord(alphabet, chars[cursor])
        invariant Valid() && start <= cursor
        invariant WordLength(alphabet, old(Rest())) == cursor - start + WordLength(alphabet, Rest())
        decreases |Rest()|
      {
        cursor := cursor + 1;
      }
      assert chars[start..cursor] == old(Rest())[..cursor - start];
      t := WordToken(chars[start..cursor]);
    }

    /** Punctuation of one or two characters. */
    method ReadSymbol() returns (res: Result<Token>)
      requires Valid() && Rest() != ""
      modifies this
      ensures Valid()
      ensures var s := SymbolAt(old(Rest()));
              if s.None? then res == Err(ParseError)
              else res == Ok(Sym(s.value)) && Rest() == old(Rest())[|SymbolText(s.value)|..]
    {
      hide SingleSymbol;
      var c := Advance();
      match c.value {
        case '=' => var more := TakeIf('='); return Ok(Sym(if more then EqEq else EqSign));
        case '!' => var more := TakeIf('='); return Ok(Sym(if more then BangEq else Bang));
        case '>' => var more := TakeIf('='); return Ok(Sym(if more then GtEqSign else GtSign));
        case '<' => var more := TakeIf('='); return Ok(Sym(if more then LtEqSign else LtSign));
        case '&' => var more := TakeIf('&'); return if more then Ok(Sym(AmpAmp)) else Err(ParseError);
        case '|' => var more := TakeIf('|'); return if more then Ok(Sym(PipePipe)) else Err(ParseError);
        case other =>
          hide SymbolText;
          return if SingleSymbol(other).Some? then Ok(Sym(SingleSymbol(other).value)) else Err(ParseError);
      }
    }

    method TakeIf(c: char) returns (taken: bool)
      requires Valid()
      modifies this
      ensures Valid() && taken == At(old(Rest()), c)
      ensures Rest() == if taken then old(Rest())[1..] else old(Rest())
    {
      var next := Peek();
      taken := next == Some(c);
      if taken { var _ := Advance(); }
    }

    /** One round of the main loop. */
    method NextToken() returns (res: Result<Option<Token>>)
      requires Valid() && Rest() != ""
      modifies this
      ensures Valid()
      ensures var one := LexOne(alphabet, old(Rest()));
              if one.Err? then res == Err(one.code) else res == Ok(one.value.token) && Rest() == one.value.rest
    {
      hide WordToken;
      hide NumberToken;
      hide SymbolAt;
      hide SymbolText;
      hide ScanString;
      hide NumberLength;
      hide WordLength;
      hide AfterLine;
      var peeked := Peek();
      var next := PeekNext();
      var ch := peeked.value;
      if IsWhitespace(ch) {
        var _ := Advance();
        return Ok(None);
      }
      if (ch == '-' && next == Some('-')) || (ch == '/' && next == Some('/')) {
        SkipLine();
        return Ok(None);
      }
      if ch == '"' || ch == '\'' {
        var _ := Advance();
        var content := ReadString(ch);
        return if content.Some? then Ok(Some(StrLit(content.value))) else Err(ParseError);
      }
      if IsDigit(ch) || (ch == '-' && next.Some? && IsDigit(next.value)) {
        var t :- ReadNumber();
        return Ok(Some(t));
      }
      if StartsWord(alphabet, ch) {
        var t := ReadWord();
        return Ok(Some(t));
      }
      var t :- ReadSymbol();
      return Ok(Some(t));
    }

    /** `tokenize`. */
    method Tokenize() returns (res: Result<seq<Token>>)
      requires Valid()
      modifies this
      ensures Valid() && res == Lex(alphabet, old(Rest()))
      ensures res.Ok? ==> res.value != [] && res.value[|res.value| - 1] == Eof
    {
      hide LexOne;
      var tokens: seq<Token> := [];
      ghost var all := Lex(alphabet, Rest());
      PrependedNothing(all);
      while cursor < |chars|
        invariant Valid() && all == Prepended(tokens, Lex(alphabet, Rest()))
        decreases |Rest()|
      {
        LexRound(alphabet, tokens, Rest());
        var one :- NextToken();
        if one.Some? { tokens := tokens + [one.value]; }
      }
      return Ok(tokens + [Eof]);
    }
  }

  function Prepended(done: seq<Token>, more: Result<seq<Token>>): Result<seq<Token>> {
    var ts :- more;
    Ok(done + ts)
  }

  lemma PrependedNothing(more: Result<seq<Token>>)
    ensures Prepended([], more) == more
  {
    if more.Ok? { assert [] + more.value == more.value; }
  }

  /** One round of the main loop, behind the tokens already read. */
  lemma LexRound(a: Alphabet, done: seq<Token>, cs: string)
    requires cs != ""
    ensures var one := LexOne(a, cs);
            Prepended(done, Lex(a, cs))
            == if one.Err? then Err(one.code)
               else Prepended(if one.value.token.Some? then done + [one.value.token.value] else done, Lex(a, one.value.rest))
  {
    hide LexOne;
    var one := LexOne(a, cs);
    if one.Ok? && one.value.token.Some? && Lex(a, one.value.rest).Ok? {
      var more := Lex(a, one.value.rest).value;
      assert done + ([one.value.token.value] + more) == (done + [one.value.token.value]) + more;
    }
  }
}
