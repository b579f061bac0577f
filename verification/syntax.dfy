/** Tokens and the syntax-tree node shapes the binding hooks of ast2.go inspect.

    Every node kind is a tagged variant. Where a hook only cares about one
    production of a node, the remaining productions are folded into one
    `...Other` variant that keeps the grammar's case number (a subset type
    that excludes the interesting case) and the node's position. `Case()`
    gives back the grammar's numbering. */
module Syntax {

  datatype Option<+T> = None | Some(value: T)

  /** A source position; `NoPos` is the invalid position. */
  type Pos = int

  const NoPos: Pos := 0

  /** An identifier occurrence: interned name id, display text, position. */
  datatype Token = Token(id: int, text: string, pos: Pos) {
    predicate IsValid() {
      pos != NoPos
    }
  }

  /** The zero token returned where a node does not denote a plain identifier. */
  const ZeroToken: Token := Token(0, "", NoPos)

  /** Interned ids of ".", "_" and of the pseudo-package name "C". The lexer
      fixes them once; the model only relies on them being distinct and non-zero. */
  const IdDot: int := 1
  const IdUnderscore: int := 2
  const IdC: int := 3

  /** A generic argument list `[...]`; its contents play no part in binding. */
  datatype GenericArguments = GenericArguments(pos: Pos)

  // ---------------------------------------------------------------- expressions

  type OperandOtherCase = c: nat | c != 4
  type PrimaryOtherCase = c: nat | c != 0 witness 1
  type UnaryOtherCase = c: nat | c != 7
  type ExpressionOtherCase = c: nat | c != 0 witness 1
  type TypOtherCase = c: nat | c != 7

  /** Operand: case 4 is `IDENTIFIER GenericArgumentsOpt`; the others are
      parenthesised expressions, literals and function literals. */
  datatype Operand =
    | OperandName(tok: Token, genericArgs: Option<GenericArguments>)
    | OperandOther(kind: OperandOtherCase, at: Pos)
  {
    function Case(): nat {
      if OperandName? then 4 else kind
    }

    function Pos(): Pos {
      if OperandName? then tok.pos else at
    }
  }

  /** PrimaryExpression: case 0 is a bare `Operand`; the others are selectors,
      calls, index and slice expressions, conversions and composite literals. */
  datatype PrimaryExpression =
    | PrimaryOperand(operand: Operand)
    | PrimaryOther(kind: PrimaryOtherCase, at: Pos)
  {
    function Case(): nat {
      if PrimaryOperand? then 0 else kind
    }

    function Pos(): Pos {
      if PrimaryOperand? then operand.Pos() else at
    }
  }

  /** UnaryExpression: case 7 is a bare `PrimaryExpression`; cases 0-6 apply a
      unary operator. */
  datatype UnaryExpression =
    | UnaryPrimary(primary: PrimaryExpression)
    | UnaryOther(kind: UnaryOtherCase, at: Pos)
  {
    function Case(): nat {
      if UnaryPrimary? then 7 else kind
    }

    function Pos(): Pos {
      if UnaryPrimary? then primary.Pos() else at
    }
  }

  /** Expression: case 0 is a bare `UnaryExpression`; the others are binary
      operator forms. */
  datatype Expression =
    | ExpressionUnary(unary: UnaryExpression)
    | ExpressionOther(kind: ExpressionOtherCase, at: Pos)
  {
    function Case(): nat {
      if ExpressionUnary? then 0 else kind
    }

    function Pos(): Pos {
      if ExpressionUnary? then unary.Pos() else at
    }
  }

  datatype TypeLiteral = TypeLiteral(at: Pos)

  /** Argument: case 0 is an `Expression`, case 1 a `TypeLiteral`. */
  datatype Argument =
    | ArgumentExpression(expr: Expression)
    | ArgumentType(typ: TypeLiteral)
  {
    function Case(): nat {
      if ArgumentExpression? then 0 else 1
    }

    function Pos(): Pos {
      if ArgumentExpression? then expr.Pos() else typ.at
    }
  }

  // ---------------------------------------------------------------------- types

  /** QualifiedIdent: case 0 is `IDENTIFIER`, case 1 is `IDENTIFIER '.' IDENTIFIER`. */
  datatype QualifiedIdent =
    | QualifiedName(tok: Token)
    | QualifiedSelector(pkg: Token, sel: Token)
  {
    function Pos(): Pos {
      if QualifiedName? then tok.pos else pkg.pos
    }
  }

  /** Typ: case 7 is `QualifiedIdent GenericArgumentsOpt`; the others are type
      literals (`*T`, slices, maps, functions, ...). */
  datatype Typ =
    | NamedTyp(qi: QualifiedIdent, genericArgs: Option<GenericArguments>)
    | OtherTyp(kind: TypOtherCase, at: Pos)
  {
    function Pos(): Pos {
      if NamedTyp? then qi.Pos() else at
    }
  }

  // ----------------------------------------------------------------- parameters

  /** ParameterDecl, with the grammar's cases:
      0 `"..." Typ`, 1 `IDENTIFIER "..." Typ`, 2 `IDENTIFIER Typ`, 3 `Typ`. */
  datatype ParameterDecl =
    | VariadicTyp(ellipsis: Pos, typ: Typ)
    | NamedVariadic(tok: Token, typ: Typ)
    | NamedParam(tok: Token, typ: Typ)
    | TypOnly(typ: Typ)
  {
    function Case(): nat {
      match this
      case VariadicTyp(_, _) => 0
      case NamedVariadic(_, _) => 1
      case NamedParam(_, _) => 2
      case TypOnly(_) => 3
    }

    function Pos(): Pos {
      match this
      case VariadicTyp(e, _) => e
      case NamedVariadic(t, _) => t.pos
      case NamedParam(t, _) => t.pos
      case TypOnly(t) => t.Pos()
    }

    /** Cases 1 and 2: the entry carries its own parameter name. */
    predicate IsNamed() {
      NamedVariadic? || NamedParam?
    }
  }

  // --------------------------------------------------------------- declarations

  /** One node of an IdentifierList chain, in source order: the first node is
      case 0 `IDENTIFIER`; every later one is case 1 `... ',' IDENTIFIER`, whose
      identifier is its second token. */
  datatype IdentifierListNode =
    | FirstIdentifier(tok: Token)
    | NextIdentifier(comma: Token, tok2: Token)
  {
    function Case(): nat {
      if FirstIdentifier? then 0 else 1
    }
  }

  /** The identifier lists of a constant or variable spec; the type and the
      initialiser list play no part in declaring the names. */
  datatype ConstSpec = ConstSpec(idents: seq<IdentifierListNode>)

  datatype VarSpec = VarSpec(idents: seq<IdentifierListNode>)

  /** The package name token (`Token2`) of `package name`. */
  datatype PackageClause = PackageClause(name: Token)

  // -------------------------------------------------------------------- imports

  /** BasicLiteral cases 0-3 are char, float, imaginary and int literals; case 4
      is a string literal. */
  datatype LiteralKind = CharLit | FloatLit | ImagLit | IntLit | StringLit

  /** `val` is the literal's decoded value (a string for string literals), or
      `None` when the lexer attached none. */
  datatype BasicLiteral = BasicLiteral(kind: LiteralKind, at: Pos, val: Option<string>)

  /** `IdentifierOpt BasicLiteral`; the optional name token is the explicit
      local name, ".", or "_". */
  datatype ImportSpec = ImportSpec(ident: Option<Token>, lit: BasicLiteral)

  // ------------------------------------------------------- short variable decls

  type RangeOtherCase = c: nat | c != 1
  type SwitchCaseOtherCase = c: nat | c != 2

  /** Range: case 1 is `ExpressionList ":=" "range" Expression`; the other
      productions never reach the short-variable-declaration hook. */
  datatype Range =
    | RangeDefine(lhs: seq<Expression>, x: Expression)
    | RangeOther(kind: RangeOtherCase, at: Pos)
  {
    function Case(): nat {
      if RangeDefine? then 1 else kind
    }
  }

  /** SwitchCase: case 2 is `"case" ArgumentList ":=" Expression ':'`. */
  datatype SwitchCase =
    | CaseDefine(args: seq<Argument>, x: Expression)
    | CaseOther(kind: SwitchCaseOtherCase, at: Pos)
  {
    function Case(): nat {
      if CaseDefine? then 2 else kind
    }
  }
}
