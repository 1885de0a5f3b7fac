/** src/sql/ast/expression.h: expression trees, their printed form, and the tokens it is made of. */
module SqlAst {
  import opened Wrappers
  import opened Aggregates

  datatype OpType = ADD | SUB | EQ | NE | GT | GE | LT | LE | AND | OR

  /** A floating literal is kept as the numeral it was written with. */
  datatype Expr =
    | ColumnRef(name: string)
    | IntLiteral(value: int)
    | StringLiteral(text: string)
    | DoubleLiteral(numeral: string)
    | BinaryOp(op: OpType, left: Expr, right: Expr)
    | AggFunc(aggType: AggType, arg: Option<Expr>)

  function OpName(op: OpType): string {
    match op
    case ADD => "+"
    case SUB => "-"
    case EQ => "="
    case NE => "!="
    case GT => ">"
    case GE => ">="
    case LT => "<"
    case LE => "<="
    case AND => "AND"
    case OR => "OR"
  }

  function AggName(t: AggType): string {
    match t
    case InvalidAgg => "INVALID"
    case Sum => "SUM"
    case Count => "COUNT"
    case Avg => "AVG"
    case Min => "MIN"
    case Max => "MAX"
  }

  function DigitChar(d: nat): char
    requires d < 10
  {
    ('0' as int + d) as char
  }

  function Digits(n: nat): (s: string)
    ensures s != []
  {
    if n < 10 then [DigitChar(n)] else Digits(n / 10) + [DigitChar(n % 10)]
  }

  /** std::to_string of an int. */
  function IntString(v: int): string {
    if v < 0 then "-" + Digits(-v) else Digits(v)
  }

  function ToString(e: Expr): string {
    match e
    case ColumnRef(name) => name
    case IntLiteral(v) => IntString(v)
    case StringLiteral(s) => "'" + s + "'"
    case DoubleLiteral(numeral) => numeral
    case BinaryOp(op, l, r) => "(" + ToString(l) + " " + OpName(op) + " " + ToString(r) + ")"
    case AggFunc(t, None) => AggName(t) + "(*)"
    case AggFunc(t, Some(arg)) => AggName(t) + "(" + ToString(arg) + ")"
  }
}
