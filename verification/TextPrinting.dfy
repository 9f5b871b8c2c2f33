/** Tokens written as text with single spaces between them, and the proof that the lexer undoes it. */
module TextPrinting {
  import opened Core
  import opened Values
  import opened Documents
  import opened Tokens
  import opened Grammar
  import opened Statements
  import opened StatementPrinting
  import opened Lexing

  // ---- the printer ----

  function DigitChar(d: nat): char
    requires d < 10
  {
    ('0' as int + d) as char
  }

  function Digits(n: nat): (s: string)
    ensures s != "" && forall i :: 0 <= i < |s| ==> IsDigit(s[i])
  {
    (if n < 10 then "" else Digits(n / 10)) + [DigitChar(n % 10)]
  }

  function IntText(i: i64): string {
    if i < 0 then "-" + Digits(-(i as int)) else Digits(i)
  }

  function Escape(s: string): string {
    if s == "" then ""
    else (if s[0] == '"' || s[0] == '\\' then ['\\', s[0]] else [s[0]]) + Escape(s[1..])
  }

  function TokenText(t: Token): string {
    match t
    case Word(k) => WordText(k)
    case Sym(s) => SymbolText(s)
    case IntLit(i) => IntText(i)
    case StrLit(s) => "\"" + Escape(s) + "\""
    case Ident(name) => name
    case _ => ""
  }

  /** Decimal fractions are not printed, and an identifier must not be a keyword in any case of letters. */
  predicate Printable(a: Alphabet, t: Token) {
    match t
    case Ident(name) => IsIdentifier(a, name) && KeywordOf(name).None?
    case FloatLit(_) => false
    case Eof => false
    case _ => true
  }

  predicate IsIdentifier(a: Alphabet, name: string) {
    name != "" && StartsWord(a, name[0]) && forall i :: 0 <= i < |name| ==> ContinuesWord(a, name[i])
  }

  predicate AllPrintable(a: Alphabet, ts: seq<Token>) {
    forall i :: 0 <= i < |ts| ==> Printable(a, ts[i])
  }

  function Text(ts: seq<Token>): string {
    if ts == [] then "" else TokenText(ts[0]) + (if |ts| == 1 then "" else " " + Text(ts[1..]))
  }

  /** What may stand behind a token: nothing, or a space. */
  predicate Apart(rest: string) {
    rest == "" || rest[0] == ' '
  }

  // ---- integers ----

  lemma {:induction false} DigitsUndone(n: nat)
    ensures DigitsValue(Digits(n)) == n
  {
    var s := Digits(n);
    assert s[..|s| - 1] == if n < 10 then "" else Digits(n / 10);
    if n >= 10 { DigitsUndone(n / 10); }
  }

  lemma {:induction false} AllDigits(s: string, rest: string)
    requires (forall i :: 0 <= i < |s| ==> IsDigit(s[i])) && Apart(rest)
    ensures NumberLength(s + rest, false) == |s| && '.' !in s
  {
    if s != "" {
      AllDigits(s[1..], rest);
      assert (s + rest)[1..] == s[1..] + rest;
    } else {
      assert s + rest == rest;
    }
  }

  lemma UnsignedRead(a: Alphabet, s: string, rest: string)
    requires s != "" && (forall i :: 0 <= i < |s| ==> IsDigit(s[i])) && Apart(rest) && NumberToken(false, s).Ok?
    ensures LexOne(a, s + rest) == Ok(Lexed(Some(NumberToken(false, s).value), rest))
  {
    hide NumberToken;
    AllDigits(s, rest);
    hide NumberLength;
    assert (s + rest)[..|s|] == s && (s + rest)[|s|..] == rest;
    assert IsDigit(s[0]) && (s + rest)[0] == s[0];
  }

  lemma SignedRead(a: Alphabet, s: string, rest: string)
    requires s != "" && (forall i :: 0 <= i < |s| ==> IsDigit(s[i])) && Apart(rest) && NumberToken(true, s).Ok?
    ensures LexOne(a, "-" + s + rest) == Ok(Lexed(Some(NumberToken(true, s).value), rest))
  {
    hide NumberToken;
    AllDigits(s, rest);
    hide NumberLength;
    var cs := "-" + s + rest;
    assert cs[1..] == s + rest;
    assert (s + rest)[..|s|] == s && (s + rest)[|s|..] == rest;
    assert IsDigit(s[0]) && cs[1] == s[0];
  }

  lemma IntToken(i: i64, s: string)
    requires '.' !in s && DigitsValue(s) == if i < 0 then -(i as int) else i
    ensures NumberToken(i < 0, s) == Ok(IntLit(i))
  {
    hide DigitsValue;
    hide PowerOfTen;
  }

  lemma IntUndone(a: Alphabet, i: i64, rest: string)
    requires Apart(rest)
    ensures LexOne(a, IntText(i) + rest) == Ok(Lexed(Some(IntLit(i)), rest))
  {
    hide LexOne;
    hide NumberToken;
    var n: nat := if i < 0 then -(i as int) else i;
    var s := Digits(n);
    DigitsUndone(n);
    AllDigits(s, rest);
    IntToken(i, s);
    hide Digits;
    hide DigitsValue;
    hide NumberLength;
    if i < 0 { SignedRead(a, s, rest); } else { UnsignedRead(a, s, rest); }
  }

  // ---- strings ----

  lemma PlainRead(c: char, more: string)
    requires c != '"' && c != '\\' && ScanString('"', more).Some?
    ensures ScanString('"', [c] + more) == Some(([c] + ScanString('"', more).value.0, ScanString('"', more).value.1))
  {
    assert ([c] + more)[1..] == more;
  }

  lemma EscapedRead(c: char, more: string)
    requires (c == '"' || c == '\\') && ScanString('"', more).Some?
    ensures ScanString('"', ['\\', c] + more) == Some(([c] + ScanString('"', more).value.0, ScanString('"', more).value.1))
  {
    assert (['\\', c] + more)[2..] == more;
  }

  lemma QuoteEnds(rest: string)
    ensures ScanString('"', "\"" + rest) == Some(("", rest))
  {
    assert ("\"" + rest)[1..] == rest;
  }

  lemma {:induction false} EscapeUndone(s: string, rest: string)
    ensures ScanString('"', Escape(s) + ("\"" + rest)) == Some((s, rest))
  {
    hide ScanString;
    var end := "\"" + rest;
    if s == "" {
      assert Escape(s) + end == end;
      QuoteEnds(rest);
    } else {
      var (c, more) := (s[0], Escape(s[1..]) + end);
      EscapeUndone(s[1..], rest);
      assert [c] + s[1..] == s;
      var first := if c == '"' || c == '\\' then ['\\', c] else [c];
      assert Escape(s) == first + Escape(s[1..]);
      hide Escape;
      Assoc3(first, Escape(s[1..]), end);
      if c == '"' || c == '\\' { EscapedRead(c, more); } else { PlainRead(c, more); }
    }
  }

  lemma QuoteRead(a: Alphabet, cs: string)
    requires ScanString('"', cs).Some?
    ensures LexOne(a, "\"" + cs) == Ok(Lexed(Some(StrLit(ScanString('"', cs).value.0)), ScanString('"', cs).value.1))
  {
    hide ScanString;
    assert ("\"" + cs)[1..] == cs;
  }

  lemma StringUndone(a: Alphabet, s: string, rest: string)
    ensures LexOne(a, TokenText(StrLit(s)) + rest) == Ok(Lexed(Some(StrLit(s)), rest))
  {
    hide LexOne;
    hide ScanString;
    hide Escape;
    EscapeUndone(s, rest);
    QuoteRead(a, Escape(s) + ("\"" + rest));
    assert TokenText(StrLit(s)) + rest == "\"" + (Escape(s) + ("\"" + rest));
  }

  // ---- words ----

  lemma {:induction false} WholeWord(a: Alphabet, s: string, rest: string)
    requires (forall i :: 0 <= i < |s| ==> ContinuesWord(a, s[i])) && Apart(rest)
    ensures WordLength(a, s + rest) == |s|
  {
    if s != "" {
      WholeWord(a, s[1..], rest);
      assert (s + rest)[1..] == s[1..] + rest;
    } else {
      assert s + rest == rest;
    }
  }

  lemma WordRead(a: Alphabet, s: string, rest: string)
    requires Sound(a) && IsIdentifier(a, s) && Apart(rest)
    ensures LexOne(a, s + rest) == Ok(Lexed(Some(WordToken(s)), rest))
  {
    hide KeywordOf;
    WholeWord(a, s, rest);
    assert (s + rest)[..|s|] == s && (s + rest)[|s|..] == rest;
  }

  predicate AllCapitals(s: string) {
    s != "" && forall i :: 0 <= i < |s| ==> 'A' <= s[i] <= 'Z'
  }

  lemma CapitalsAreWords(a: Alphabet, s: string)
    requires AllCapitals(s)
    ensures IsIdentifier(a, s) && Upper(s) == s
  {
  }

  lemma KeywordCapitals(k: Keyword)
    ensures AllCapitals(WordText(k))
  {
    if |WordText(k)| <= 4 { ShortCapitals(k); } else { LongCapitals(k); }
  }

  lemma ShortCapitals(k: Keyword)
    requires |WordText(k)| <= 4
    ensures AllCapitals(WordText(k))
  {
  }

  lemma LongCapitals(k: Keyword)
    requires |WordText(k)| > 4
    ensures AllCapitals(WordText(k))
  {
  }

  lemma KeywordListed(k: Keyword)
    ensures k in KEYWORDS
  {
  }

  /** The keyword, told from the length and the first two letters of its text. */
  function Recognised(n: nat, c: char, d: char): Keyword {
    if n <= 3 then
      if c == 'S' then SET else if c == 'O' then OR else if c == 'I' then IN else if c == 'N' then NOT
      else if d == 'S' then ASC else AND
    else if n == 4 then
      if c == 'F' then FIND else if c == 'I' then INTO else if c == 'S' then SORT else if c == 'H' then HASH
      else if c == 'N' then NULL else if c == 'D' then (if d == 'R' then DROP else DESC)
      else if d == 'Y' then TYPE else TRUE
    else if n == 5 then
      if c == 'C' then COUNT else if c == 'I' then INDEX else if c == 'L' then LIMIT else if c == 'B' then BEGIN
      else if c == 'F' then FALSE else if d == 'A' then WATCH else WHERE
    else if n == 6 then
      if c == 'I' then INSERT else if c == 'V' then VALUES else if c == 'U' then UPDATE else if c == 'R' then REMOVE
      else if c == 'E' then EXISTS else if c == 'O' then OFFSET else if d == 'R' then CREATE else COMMIT
    else if c == 'B' then BETWEEN else if c == 'R' then ROLLBACK else ORDERED
  }

  lemma KeywordTold(k: Keyword)
    ensures |WordText(k)| >= 2 && Recognised(|WordText(k)|, WordText(k)[0], WordText(k)[1]) == k
  {
  }

  lemma KeywordFound(k: Keyword)
    ensures KeywordOf(WordText(k)) == Some(k)
  {
    KeywordCapitals(k);
    KeywordListed(k);
    CapitalsAreWords(Alphabet(c => false, c => false), WordText(k));
    hide Recognised;
    KeywordTold(k);
    hide WordText;
    hide Upper;
    var found := FindKeyword(WordText(k), KEYWORDS);
    if found.Some? { KeywordTold(found.value); }
  }

  lemma KeywordUndone(a: Alphabet, k: Keyword, rest: string)
    requires Sound(a) && Apart(rest)
    ensures LexOne(a, WordText(k) + rest) == Ok(Lexed(Some(Word(k)), rest))
  {
    KeywordCapitals(k);
    hide WordText;
    CapitalsAreWords(a, WordText(k));
    KeywordFound(k);
    hide KeywordOf;
    hide LexOne;
    WordRead(a, WordText(k), rest);
  }

  // ---- symbols ----

  /** A character that starts no word, number, string, or white space. */
  predicate Punctuation(c: char) {
    var n := c as int;
    33 <= n < 127 && c != '"' && c != '\'' && c != '_' && !IsDigit(c) && !('a' <= c <= 'z') && !('A' <= c <= 'Z')
  }

  lemma SymbolShape(s: Symbol)
    ensures var t := SymbolText(s);
            && 1 <= |t| <= 2 && Punctuation(t[0])
            && (|t| == 2 ==> t[0] != '-' && t[0] != '/')
  {
  }

  lemma SymbolAtText(s: Symbol, rest: string)
    requires Apart(rest)
    ensures SymbolAt(SymbolText(s) + rest) == Some(s)
  {
    assert |SymbolText(s)| == 1 ==> (SymbolText(s) + rest)[1..] == rest;
  }

  lemma SymbolUndone(a: Alphabet, s: Symbol, rest: string)
    requires Apart(rest)
    ensures LexOne(a, SymbolText(s) + rest) == Ok(Lexed(Some(Sym(s)), rest))
  {
    SymbolShape(s);
    SymbolAtText(s, rest);
    hide SymbolAt;
    hide SymbolText;
    var (t, cs) := (SymbolText(s), SymbolText(s) + rest);
    assert cs[|t|..] == rest && cs[0] == t[0];
    if |t| == 1 { assert cs[1..] == rest; }
  }

  // ---- texts ----

  /** A printable token, read back where nothing or a space follows. */
  lemma TokenUndone(a: Alphabet, t: Token, rest: string)
    requires Sound(a) && Printable(a, t) && Apart(rest)
    ensures TokenText(t) != "" && LexOne(a, TokenText(t) + rest) == Ok(Lexed(Some(t), rest))
  {
    hide LexOne;
    hide WordText;
    hide SymbolText;
    hide IsIdentifier;
    match t {
      case Word(k) =>
        KeywordCapitals(k);
        KeywordUndone(a, k, rest);
      case Sym(s) =>
        SymbolShape(s);
        SymbolUndone(a, s, rest);
      case IntLit(i) => IntUndone(a, i, rest);
      case StrLit(s) => StringUndone(a, s, rest);
      case Ident(name) =>
        assert name != "" by { IdentifierSome(a, name); }
        WordRead(a, name, rest);
    }
  }

  lemma IdentifierSome(a: Alphabet, name: string)
    requires IsIdentifier(a, name)
    ensures name != ""
  {
  }

  lemma FirstToken(a: Alphabet, cs: string, t: Token, rest: string)
    requires cs != "" && LexOne(a, cs) == Ok(Lexed(Some(t), rest)) && Lex(a, rest).Ok?
    ensures Lex(a, cs) == Ok([t] + Lex(a, rest).value)
  {
    hide LexOne;
  }

  /** The lexer undoes the printer: any printable tokens, written with single spaces, are read back. */
  lemma {:induction false} TextUndone(a: Alphabet, ts: seq<Token>)
    requires Sound(a) && AllPrintable(a, ts)
    ensures Lex(a, Text(ts)) == Ok(ts + [Eof])
    decreases |ts|
  {
    hide LexOne;
    hide TokenText;
    hide Printable;
    if ts == [] {
      assert [] + [Eof] == [Eof];
    } else {
      hide Lex;
      var rest := if |ts| == 1 then "" else " " + Text(ts[1..]);
      TokenUndone(a, ts[0], rest);
      TextUndone(a, ts[1..]);
      if |ts| > 1 { SpaceSkipped(a, Text(ts[1..])); }
      FirstToken(a, TokenText(ts[0]) + rest, ts[0], rest);
      assert [ts[0]] + (ts[1..] + [Eof]) == ts + [Eof];
    }
  }

  lemma SpaceSkipped(a: Alphabet, cs: string)
    ensures Lex(a, " " + cs) == Lex(a, cs)
  {
    assert (" " + cs)[1..] == cs;
    assert LexOne(a, " " + cs) == Ok(Lexed(None, cs));
  }

  /** From statement to text and back: lexing and parsing undo printing, and only the final `Eof` is left. */
  lemma StatementTextUndone(a: Alphabet, blank: Document, stmt: Statement)
    requires Sound(a) && WellFormed(stmt) && Startable(blank, stmt) && AllPrintable(a, PrintStatement(stmt))
    ensures var lexed := Lex(a, Text(PrintStatement(stmt)));
            lexed.Ok? && ParseStatement(blank, lexed.value) == Ok(Parsed(stmt, [Eof]))
  {
    hide PrintStatement;
    hide WellFormed;
    hide Startable;
    hide ParseStatement;
    TextUndone(a, PrintStatement(stmt));
    StatementUndone(blank, stmt, [Eof]);
  }
}
