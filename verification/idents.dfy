/** Pulling a plain identifier out of expression-shaped nodes
    (`Expression.ident`, `Argument.ident`, `IdentifierList.ident`). */
module Idents {
  import opened Syntax

  /** The grammar path of a bare identifier: Expression case 0, UnaryExpression
      case 7, PrimaryExpression case 0, Operand case 4 without generic arguments. */
  predicate DenotesIdentifier(e: Expression) {
    && e.Case() == 0
    && e.unary.Case() == 7
    && e.unary.primary.Case() == 0
    && e.unary.primary.operand.Case() == 4
    && e.unary.primary.operand.genericArgs == None
  }

  /** The expression the parser builds for identifier `t` standing alone. */
  function NameExpression(t: Token): (e: Expression)
    ensures DenotesIdentifier(e)
  {
    ExpressionUnary(UnaryPrimary(PrimaryOperand(OperandName(t, None))))
  }

  /** `Expression.ident`. Bare identifiers give back their token, and every
      other shape gives the zero token, so a valid result pins down the whole
      expression. */
  function ExpressionIdent(e: Expression): (t: Token)
    ensures DenotesIdentifier(e) ==> e == NameExpression(t)
    ensures !DenotesIdentifier(e) ==> t == ZeroToken
    ensures t.IsValid() ==> DenotesIdentifier(e) && e == NameExpression(t)
  {
    match e
    case ExpressionOther(_, _) => ZeroToken
    case ExpressionUnary(u) =>
      match u
      case UnaryOther(_, _) => ZeroToken
      case UnaryPrimary(p) =>
        match p
        case PrimaryOther(_, _) => ZeroToken
        case PrimaryOperand(o) =>
          match o
          case OperandOther(_, _) => ZeroToken
          case OperandName(tok, g) => if g.Some? then ZeroToken else tok
  }

  /** `Argument.ident`: only case 0 (an expression) can denote an identifier,
      and a bare identifier argument gives back its token. */
  function ArgumentIdent(a: Argument): (t: Token)
    ensures a.Case() != 0 ==> t == ZeroToken
    ensures a.Case() == 0 && !DenotesIdentifier(a.expr) ==> t == ZeroToken
    ensures a.Case() == 0 && DenotesIdentifier(a.expr) ==> a.expr == NameExpression(t)
    ensures t.IsValid() ==> a == ArgumentExpression(NameExpression(t))
  {
    if a.Case() != 0 then ZeroToken else ExpressionIdent(a.expr)
  }

  /** `IdentifierList.ident`: the identifier token of one list node (for a
      continuation node, the token after the comma). */
  function IdentifierListIdent(n: IdentifierListNode): Token {
    if n.Case() == 0 then n.tok else n.tok2
  }

  /** The identifiers of a whole list, in source order. */
  function IdentifierListIdents(l: seq<IdentifierListNode>): seq<Token> {
    seq(|l|, i requires 0 <= i < |l| => IdentifierListIdent(l[i]))
  }

  /** The list the parser builds for `a, b, c`: the first identifier alone,
      every later one after a comma token. */
  function BuildIdentifierList(toks: seq<Token>, comma: Token): (l: seq<IdentifierListNode>)
    ensures |l| == |toks|
  {
    seq(|toks|, i requires 0 <= i < |toks| =>
      if i == 0 then FirstIdentifier(toks[i]) else NextIdentifier(comma, toks[i]))
  }

  /** Reading the identifiers back out of a built list gives the identifiers
      it was built from, never a comma. */
  lemma IdentifierListRoundTrip(toks: seq<Token>, comma: Token)
    ensures IdentifierListIdents(BuildIdentifierList(toks, comma)) == toks
  {
    var l := BuildIdentifierList(toks, comma);
    var ts := IdentifierListIdents(l);
    forall i | 0 <= i < |toks| ensures ts[i] == toks[i] {
      assert l[i] == if i == 0 then FirstIdentifier(toks[i]) else NextIdentifier(comma, toks[i]);
    }
  }
}
