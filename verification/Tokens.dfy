/** The tokens of NQL (crates/nova-query/src/lexer.rs); source positions are not modelled. */
module Tokens {
  import opened Values

  datatype Keyword =
    | FIND | INSERT | INTO | VALUES | UPDATE | SET | REMOVE | WATCH | COUNT | EXISTS | CREATE | DROP | INDEX
    | TYPE | WHERE | SORT | LIMIT | OFFSET | ASC | DESC | AND | OR | NOT | IN | BETWEEN | BEGIN | COMMIT
    | ROLLBACK | HASH | ORDERED | TRUE | FALSE | NULL

  datatype Symbol =
    | EqEq | EqSign | BangEq | GtSign | GtEqSign | LtSign | LtEqSign | AmpAmp | PipePipe | Bang
    | PlusSign | MinusSign | Star | Slash | Percent | LParen | RParen | LBrace | RBrace | LBracket | RBracket
    | Comma | Colon | Dot

  datatype Token =
    | Word(word: Keyword)
    | Sym(symbol: Symbol)
    | IntLit(i: i64)
    | FloatLit(f: Float)
    | StrLit(s: string)
    | Ident(name: string)
    | Eof
}
