/** Token kinds and the binding-power tables of the Yacari lexer. */
module Tokens {
  import opened Wrappers

  datatype TKind =
    | LeftParen | RightParen | LeftBracket | RightBracket | LeftBrace | RightBrace
    | Tilde | Comma | Dot | Minus | Plus | Semicolon | Colon | ColonColon
    | Slash | Star | Arrow | QuestionMark
    | Bang | BangEqual | Equal | EqualEqual | Greater | GreaterEqual | Less | LessEqual
    | Identifier | StringLit | IntLit | FloatLit
    | And | Break | Class | Else | Enum | Extern | False | For | Fun | If | Import | In
    | Interface | Is | Null | Or | Return | Static | True | Var | Val | When | While
    | Error

  datatype Lexeme = Lexeme(kind: TKind, lex: string)

  /** The kinds whose spelling varies; every other kind determines its own text. */
  predicate HasText(k: TKind) {
    k in {Identifier, StringLit, IntLit, FloatLit}
  }

  /** A token: its kind, and its text where the kind does not determine it. */
  type Token = t: Lexeme | HasText(t.kind) || t.lex == "" witness Lexeme(Error, "")

  /** The token of a kind that determines its text. */
  function Mark(k: TKind): Token {
    Lexeme(k, "")
  }

  /** The left and right binding power of an infix operator. */
  function InfixBindingPower(k: TKind): Option<(nat, nat)> {
    match k
    case Equal => Some((6, 5))
    case Or => Some((10, 9))
    case And => Some((12, 11))
    case BangEqual => Some((14, 13))
    case EqualEqual => Some((14, 13))
    case Less => Some((16, 15))
    case LessEqual => Some((16, 15))
    case Greater => Some((16, 15))
    case GreaterEqual => Some((16, 15))
    case Plus => Some((16, 15))
    case Minus => Some((16, 15))
    case Star => Some((18, 17))
    case Slash => Some((18, 17))
    case Is => Some((20, 19))
    case _ => None
  }

  /** The binding power of the operand of a prefix operator. */
  function PrefixBindingPower(k: TKind): Option<nat> {
    match k
    case Minus => Some(30)
    case Bang => Some(30)
    case _ => None
  }

  /** Operators whose result is a truth value. */
  predicate IsBinaryLogic(k: TKind) {
    k in {EqualEqual, BangEqual, Less, LessEqual, Greater, GreaterEqual, And, Or}
  }
}
