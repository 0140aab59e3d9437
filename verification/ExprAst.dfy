/** Expression syntax trees and the values they compute. */
module ExprAst {

  datatype Value =
    | VNone
    | VBool(b: bool)
    | VInt(i: int)
    | VFloat(r: real)
    | VStr(s: string)
    | VList(items: seq<Value>)
    | VDict(entries: seq<(string, Value)>)

  datatype PathRoot = State | Actor | Payload | Context

  datatype UnOp = NotOp | Neg | Pos

  datatype BinOp = And | Or | Eq | Ne | Lt | Le | Gt | Ge | Add | Sub | Mul | Div | FloorDiv | Mod

  datatype Quantifier = All | Any

  const DEFAULT_BOUND := 64

  datatype Expr =
    | Literal(value: Value)
    | PathRef(root: PathRoot, parts: seq<string>)
    | Unary(uop: UnOp, operand: Expr)
    | Binary(op: BinOp, left: Expr, right: Expr)
    | Conditional(test: Expr, thenBranch: Expr, elseBranch: Expr)
    | Membership(item: Expr, collection: Expr, inverted: bool)
    | Call(name: string, args: seq<Expr>)
    | CollectionPred(kind: Quantifier, variable: string, domain: Expr, body: Expr, bound: int)
}
