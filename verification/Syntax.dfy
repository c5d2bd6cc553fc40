/** Tokens, operators and the untyped syntax tree (rsql/ast.go, rsql/lex.go). */
module Syntax {
  import opened Results

  /** A token without its position: its kind and, where it carries one, its text.
      `TokBad` stands in a token stream for the place where the lexer gives up. */
  datatype Symbol =
    | TokEOF
    | TokValue(text: string)
    | TokOp(text: string)
    | TokLParen
    | TokRParen
    | TokAnd
    | TokOr
    | TokBad

  datatype Token = Token(sym: Symbol, pos: nat)

  datatype Operator = OpEq | OpNeq | OpGt | OpGe | OpLt | OpLe | OpIn | OpNotIn {
    /** The canonical spelling. */
    function Text(): string {
      match this
      case OpEq => "=="
      case OpNeq => "!="
      case OpGt => "=gt="
      case OpGe => "=ge="
      case OpLt => "=lt="
      case OpLe => "=le="
      case OpIn => "=in="
      case OpNotIn => "=out="
    }

    predicate TakesMany() {
      OpIn? || OpNotIn?
    }
  }

  /** The alias table. */
  function LookupOperator(text: string): Result<Operator> {
    if text == "==" || text == "=eq=" then Ok(OpEq)
    else if text == "!=" || text == "=ne=" then Ok(OpNeq)
    else if text == ">" || text == "=gt=" then Ok(OpGt)
    else if text == ">=" || text == "=ge=" then Ok(OpGe)
    else if text == "<" || text == "=lt=" then Ok(OpLt)
    else if text == "<=" || text == "=le=" then Ok(OpLe)
    else if text == "=in=" then Ok(OpIn)
    else if text == "=out=" || text == "=nin=" then Ok(OpNotIn)
    else Err
  }

  lemma CanonicalTextLooksUp(op: Operator)
    ensures LookupOperator(op.Text()) == Ok(op)
  {
    match op
    case OpEq =>
    case OpNeq =>
    case OpGt => assert op.Text()[1] == 'g' && op.Text()[2] == 't';
    case OpGe => assert op.Text()[1] == 'g' && op.Text()[2] == 'e';
    case OpLt => assert op.Text()[1] == 'l' && op.Text()[2] == 't';
    case OpLe => assert op.Text()[1] == 'l' && op.Text()[2] == 'e';
    case OpIn => assert op.Text()[1] == 'i';
    case OpNotIn => assert op.Text()[1] == 'o';
  }

  /** The parser's output and the binder's input. */
  datatype Node =
    | And(nodes: seq<Node>)
    | Or(nodes: seq<Node>)
    | Comparison(selector: string, op: Operator, args: seq<string>)

  /** Every group has at least two operands and every comparison at least one argument. */
  predicate WellShaped(n: Node) {
    match n
    case And(ns) => |ns| >= 2 && forall m | m in ns :: WellShaped(m)
    case Or(ns) => |ns| >= 2 && forall m | m in ns :: WellShaped(m)
    case Comparison(_, _, args) => |args| >= 1
  }
}
