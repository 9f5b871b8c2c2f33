/**
 What the NQL lexer (crates/nova-query/src/lexer.rs) makes of a text, as functions from the characters
 that are left to a token and the characters that are left then.
 */
module Lexing {
  import opened Core
  import opened Values
  import opened Tokens
  import opened Utf8

  /** Which characters outside ASCII are letters and numerals. */
  datatype Alphabet = Alphabet(letter: char -> bool, numeral: char -> bool)

  /** In Unicode no white space is a letter. */
  ghost predicate Sound(a: Alphabet) {
    forall c: char :: IsWhitespace(c) ==> !a.letter(c)
  }

  predicate IsDigit(c: char) {
    '0' <= c <= '9'
  }

  predicate IsLetter(a: Alphabet, c: char) {
    if (c as int) < 0x80 then 'a' <= c <= 'z' || 'A' <= c <= 'Z' else a.letter(c)
  }

  /** The characters an identifier may start with. */
  predicate StartsWord(a: Alphabet, c: char) {
    IsLetter(a, c) || c == '_'
  }

  predicate ContinuesWord(a: Alphabet, c: char) {
    StartsWord(a, c) || (if (c as int) < 0x80 then IsDigit(c) else a.numeral(c))
  }

  /** The character at the cursor is `c`. */
  predicate At(cs: string, c: char) {
    cs != "" && cs[0] == c
  }

  predicate DigitAt(cs: string) {
    cs != "" && IsDigit(cs[0])
  }

  // ---- words ----

  function WordText(k: Keyword): string {
    match k
    case FIND => "FIND" case INSERT => "INSERT" case INTO => "INTO" case VALUES => "VALUES"
    case UPDATE => "UPDATE" case SET => "SET" case REMOVE => "REMOVE" case WATCH => "WATCH"
    case COUNT => "COUNT" case EXISTS => "EXISTS" case CREATE => "CREATE" case DROP => "DROP"
    case INDEX => "INDEX" case TYPE => "TYPE" case WHERE => "WHERE" case SORT => "SORT"
    case LIMIT => "LIMIT" case OFFSET => "OFFSET" case ASC => "ASC" case DESC => "DESC"
    case AND => "AND" case OR => "OR" case NOT => "NOT" case IN => "IN" case BETWEEN => "BETWEEN"
    case BEGIN => "BEGIN" case COMMIT => "COMMIT" case ROLLBACK => "ROLLBACK" case HASH => "HASH"
    case ORDERED => "ORDERED" case TRUE => "TRUE" case FALSE => "FALSE" case NULL => "NULL"
  }

  const KEYWORDS := [
    FIND, INSERT, INTO, VALUES, UPDATE, SET, REMOVE, WATCH, COUNT, EXISTS, CREATE, DROP, INDEX, TYPE, WHERE, SORT,
    LIMIT, OFFSET, ASC, DESC, AND, OR, NOT, IN, BETWEEN, BEGIN, COMMIT, ROLLBACK, HASH, ORDERED, TRUE, FALSE, NULL]

  function UpperChar(c: char): char {
    if 'a' <= c <= 'z' then (c as int - 32) as char else c
  }

  /** `to_ascii_uppercase`. */
  function Upper(s: string): (r: string)
    ensures |r| == |s| && forall i :: 0 <= i < |s| ==> r[i] == UpperChar(s[i])
  {
    seq(|s|, i requires 0 <= i < |s| => UpperChar(s[i]))
  }

  function FindKeyword(text: string, words: seq<Keyword>): (r: Option<Keyword>)
    ensures r.Some? ==> WordText(r.value) == text && r.value in words
    ensures r.None? ==> forall k :: k in words ==> WordText(k) != text
  {
    if words == [] then None
    else if WordText(words[0]) == text then Some(words[0])
    else FindKeyword(text, words[1..])
  }

  function KeywordOf(s: string): Option<Keyword> {
    FindKeyword(Upper(s), KEYWORDS)
  }

  function WordLength(a: Alphabet, cs: string): (n: nat)
    ensures n <= |cs|
    ensures cs != "" && ContinuesWord(a, cs[0]) ==> n > 0
  {
    if cs == "" || !ContinuesWord(a, cs[0]) then 0 else 1 + WordLength(a, cs[1..])
  }

  function WordToken(s: string): Token {
    match KeywordOf(s)
    case Some(k) => Word(k)
    case None => Ident(s)
  }

  // ---- numbers ----

  /** How many characters belong to the number: digits, and one dot if a digit follows it. */
  function NumberLength(cs: string, hasDot: bool): (n: nat)
    ensures n <= |cs|
    ensures DigitAt(cs) ==> n > 0
  {
    if DigitAt(cs) then 1 + NumberLength(cs[1..], hasDot)
    else if At(cs, '.') && !hasDot && DigitAt(cs[1..]) then 1 + NumberLength(cs[1..], true)
    else 0
  }

  /** The value of a string of digits; anything else in it is skipped. */
  function DigitsValue(s: string): nat {
    if s == "" then 0
    else
      var (front, c) := (s[..|s| - 1], s[|s| - 1]);
      if IsDigit(c) then 10 * DigitsValue(front) + (c as nat - '0' as nat) else DigitsValue(front)
  }

  function PowerOfTen(n: nat): (p: nat)
    ensures p > 0
  {
    if n == 0 then 1 else 10 * PowerOfTen(n - 1)
  }

  /** The digits behind the dot. */
  function FractionLength(s: string): nat {
    if s == "" then 0 else if s[0] == '.' then |s| - 1 else FractionLength(s[1..])
  }

  /** The token of a number: an integer must fit 64 bits; a decimal fraction is taken exactly. */
  function NumberToken(negative: bool, s: string): Result<Token> {
    var n: int := DigitsValue(s);
    if '.' in s then
      var x := n as real / PowerOfTen(FractionLength(s)) as real;
      Ok(FloatLit(if x == 0.0 then Zero(negative) else Finite(if negative then -x else x)))
    else if negative then (if n <= 0x8000_0000_0000_0000 then Ok(IntLit(-(n as int))) else Err(ParseError))
    else if n < 0x8000_0000_0000_0000 then Ok(IntLit(n)) else Err(ParseError)
  }

  // ---- strings ----

  function Unescape(c: char): char {
    if c == 'n' then '\n' else if c == 't' then '\t' else if c == 'r' then '\r' else c
  }

  /** The content up to the closing quote, and what follows it; None if there is no closing quote. */
  function ScanString(quote: char, cs: string): (r: Option<(string, string)>)
    ensures r.Some? ==> |r.value.1| < |cs|
    decreases |cs|
  {
    if cs == "" then None
    else if cs[0] == quote then Some(("", cs[1..]))
    else
      var escaped := cs[0] == '\\' && |cs| > 1;
      var more := ScanString(quote, if escaped then cs[2..] else cs[1..]);
      if more.None? then None
      else Some(([if escaped then Unescape(cs[1]) else cs[0]] + more.value.0, more.value.1))
  }

  /** What follows the end of the line. */
  function AfterLine(cs: string): (r: string)
    ensures |r| <= |cs|
    ensures cs != "" ==> |r| < |cs|
  {
    if cs == "" then "" else if cs[0] == '\n' then cs[1..] else AfterLine(cs[1..])
  }

  // ---- symbols ----

  function SymbolText(s: Symbol): string {
    match s
    case EqEq => "==" case EqSign => "=" case BangEq => "!=" case GtSign => ">" case GtEqSign => ">="
    case LtSign => "<" case LtEqSign => "<=" case AmpAmp => "&&" case PipePipe => "||" case Bang => "!"
    case PlusSign => "+" case MinusSign => "-" case Star => "*" case Slash => "/" case Percent => "%"
    case LParen => "(" case RParen => ")" case LBrace => "{" case RBrace => "}" case LBracket => "["
    case RBracket => "]" case Comma => "," case Colon => ":" case Dot => "."
  }

  /** The symbols that no other symbol starts with. */
  function SingleSymbol(c: char): (r: Option<Symbol>)
    ensures r.Some? ==> SymbolText(r.value) == [c]
  {
    match c
    case '+' => Some(PlusSign)
    case '-' => Some(MinusSign)
    case '*' => Some(Star)
    case '/' => Some(Slash)
    case '%' => Some(Percent)
    case '(' => Some(LParen)
    case ')' => Some(RParen)
    case '{' => Some(LBrace)
    case '}' => Some(RBrace)
    case '[' => Some(LBracket)
    case ']' => Some(RBracket)
    case ',' => Some(Comma)
    case ':' => Some(Colon)
    case '.' => Some(Dot)
    case _ => None
  }

  /** The symbol at the start, the longer one where two fit; a single `&` or `|` is none. */
  function SymbolAt(cs: string): (r: Option<Symbol>)
    requires cs != ""
    ensures r.Some? ==> |SymbolText(r.value)| <= |cs| && cs[..|SymbolText(r.value)|] == SymbolText(r.value)
  {
    var next := cs[1..];
    match cs[0]
    case '=' => Some(if At(next, '=') then EqEq else EqSign)
    case '!' => Some(if At(next, '=') then BangEq else Bang)
    case '>' => Some(if At(next, '=') then GtEqSign else GtSign)
    case '<' => Some(if At(next, '=') then LtEqSign else LtSign)
    case '&' => if At(next, '&') then Some(AmpAmp) else None
    case '|' => if At(next, '|') then Some(PipePipe) else None
    case c => SingleSymbol(c)
  }

  // ---- tokens ----

  datatype Lexed = Lexed(token: Option<Token>, rest: string)

  predicate StartsComment(cs: string) {
    |cs| >= 2 && cs[0] == cs[1] && (cs[0] == '-' || cs[0] == '/')
  }

  predicate StartsNumber(cs: string) {
    DigitAt(cs) || (At(cs, '-') && DigitAt(cs[1..]))
  }

  /** One round of the main loop: white space and comments give no token. */
  function LexOne(a: Alphabet, cs: string): (r: Result<Lexed>)
    requires cs != ""
    ensures r.Ok? ==> |r.value.rest| < |cs|
  {
    var c := cs[0];
    if IsWhitespace(c) then Ok(Lexed(None, cs[1..]))
    else if StartsComment(cs) then Ok(Lexed(None, AfterLine(cs)))
    else if c == '"' || c == '\'' then
      var s := ScanString(c, cs[1..]);
      if s.Some? then Ok(Lexed(Some(StrLit(s.value.0)), s.value.1)) else Err(ParseError)
    else if StartsNumber(cs) then
      var digits := if c == '-' then cs[1..] else cs;
      var n := NumberLength(digits, false);
      var t :- NumberToken(c == '-', digits[..n]);
      Ok(Lexed(Some(t), digits[n..]))
    else if StartsWord(a, c) then
      var n := WordLength(a, cs);
      Ok(Lexed(Some(WordToken(cs[..n])), cs[n..]))
    else
      match SymbolAt(cs)
      case Some(s) => Ok(Lexed(Some(Sym(s)), cs[|SymbolText(s)|..]))
      case None => Err(ParseError)
  }

  /** `tokenize`: all tokens, and a final `Eof`. */
  function Lex(a: Alphabet, cs: string): (r: Result<seq<Token>>)
    ensures r.Ok? ==> r.value != [] && r.value[|r.value| - 1] == Eof
    decreases |cs|
  {
    if cs == "" then Ok([Eof])
    else
      var one :- LexOne(a, cs);
      var more :- Lex(a, one.rest);
      Ok(if one.token.Some? then [one.token.value] + more else more)
  }
}
