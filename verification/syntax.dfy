/**
 * The parse tree the code generator consumes, as the grammar engine hands it
 * over: an expression is the flat list of its operand and operator children
 * (a parenthesised sub-expression is one `Nested` child), a program is a list
 * of statements.
 */
module Syntax {
  import opened MedusaTypes

  datatype BinOp = Add | Sub | Mul | Div | Mod

  datatype Token =
    | IntLit(digits: string)
    | FloatLit(digits: string)
    | StrLit(quoted: string)
    | Ident(name: string)
    | Op(op: BinOp)
    | Cast(text: string)
    | Nested(inner: seq<Token>)

  /** The conditional operators `>`, `<`, `>=`, `<=`, `==`, `!=`. */
  datatype Cmp = Gt | Lt | Ge | Le | Eq | Ne

  /** The three forms of a declaration: bare, with an initialiser, or read from input. */
  datatype DeclTarget =
    | Bare(name: string)
    | WithValue(name: string, value: Option<seq<Token>>)
    | WithInput(name: string)

  /** The optional `else` child of an `if`. */
  datatype ElseBranch = NoElse | Else(stmts: seq<Stmt>)

  datatype Stmt =
    | Declaration(keyword: string, target: DeclTarget)
    | Assignment(name: string, value: Option<seq<Token>>)
    | Output(expr: seq<Token>)
    | Input(name: string)
    | If(left: seq<Token>, cmp: Cmp, right: seq<Token>, thenBlock: seq<Stmt>, elseBlock: ElseBranch)
    | EndOfInput
    | Unsupported  // any other rule reaching the statement dispatcher

  predicate IsOperand(t: Token) { t.IntLit? || t.FloatLit? || t.StrLit? || t.Ident? }

  predicate IsOperator(t: Token) { t.Op? || t.Cast? || t.Nested? }
}
