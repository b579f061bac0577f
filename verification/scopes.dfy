/** Declarations, scopes, diagnostics and the binder's state (`lexer`).

    The body of `scope.declare` is not part of this model; it is abstracted
    as "insert if absent": the first binding of a name in a scope stays. */
module Scopes {
  import opened Syntax

  /** A loaded package as far as binding is concerned. */
  datatype Package = Package(
    name: string,        // declared name as text; "" until some file names it
    nameId: int,         // interned id of the declared name
    namedBy: string,     // the file that first named the package
    importPath: string,
    directory: string)

  /** A pending or resolved import declaration. `name` is the interned local
      name: 0 when none was written, `IdDot`, `IdUnderscore` or an identifier. */
  datatype Import = Import(name: int, pos: Pos, path: string, pkg: Option<Package>)

  /** A declaration record; `scopeStart` is where its scope begins. */
  datatype Decl =
    | ConstDecl(tok: Token, scopeStart: Pos)
    | VarDecl(tok: Token, scopeStart: Pos)
    | ImportDecl(imp: Import)
  {
    /** The interned name id under which the declaration is bound. */
    function Key(): int {
      match this
      case ConstDecl(t, _) => t.id
      case VarDecl(t, _) => t.id
      case ImportDecl(v) => v.name
    }

    function Pos(): Pos {
      match this
      case ConstDecl(t, _) => t.pos
      case VarDecl(t, _) => t.pos
      case ImportDecl(v) => v.pos
    }
  }

  /** The bindings of one scope, keyed by interned name id. */
  type Scope = map<int, Decl>

  datatype DiagKind =
    | ImportNotString
    | ImportPathEmpty
    | ImportPathAbsolute
    | ImportPathBadChar
    | ImportPathInvalid
    | PackageConflict(importPath: string, existing: string, namedBy: string,
                      found: string, file: string, directory: string)
    | EllipsisNotFinal
    | MixedNamedUnnamed
    | DuplicateArgument(name: string)
    | RepeatedOnLeft(name: string)
    | TooManyRangeVars
    | TooManyCaseVars

  /** A reported error: where, and which one. Message formatting is not modelled. */
  datatype Diag = Diag(pos: Pos, kind: DiagKind)

  /** The binder state the hooks read and update. */
  datatype Lexer = Lexer(
    scope: Scope,              // the current (innermost) scope
    fileScope: Scope,
    pkg: Package,
    fileName: string,
    lookahead: Pos,            // position of the lookahead token
    imports: seq<Import>,
    dotImports: seq<Import>,
    unboundImports: seq<Import>,
    errors: seq<Diag>)

  /** `lx.err`: records one diagnostic. */
  function Report(lx: Lexer, pos: Pos, kind: DiagKind): Lexer {
    lx.(errors := lx.errors + [Diag(pos, kind)])
  }

  /** `scope.declare`: insert if absent. */
  function Declare(s: Scope, d: Decl): (r: Scope)
    ensures r.Keys == s.Keys + {d.Key()}
    ensures forall k | k in s :: r[k] == s[k]
    ensures d.Key() !in s ==> r[d.Key()] == d
  {
    if d.Key() in s then s else s[d.Key() := d]
  }

  function KeysOf(ds: seq<Decl>): set<int> {
    set i | 0 <= i < |ds| :: ds[i].Key()
  }

  /** No declaration before index `i` has the key of `ds[i]`. */
  predicate FirstOfKey(ds: seq<Decl>, i: int)
    requires 0 <= i < |ds|
  {
    forall j | 0 <= j < i :: ds[j].Key() != ds[i].Key()
  }

  /** Declares `ds` in order. */
  function DeclareAll(s: Scope, ds: seq<Decl>): Scope
    decreases |ds|
  {
    if ds == [] then s else Declare(DeclareAll(s, ds[..|ds| - 1]), ds[|ds| - 1])
  }

  lemma KeysOfSnoc(ds: seq<Decl>)
    requires ds != []
    ensures KeysOf(ds) == KeysOf(ds[..|ds| - 1]) + {ds[|ds| - 1].Key()}
  {
    var init := ds[..|ds| - 1];
    forall k | k in KeysOf(ds) ensures k in KeysOf(init) + {ds[|ds| - 1].Key()} {
      var j :| 0 <= j < |ds| && ds[j].Key() == k;
      if j < |ds| - 1 {
        assert init[j] == ds[j];
      }
    }
    forall k | k in KeysOf(init) ensures k in KeysOf(ds) {
      var j :| 0 <= j < |init| && init[j].Key() == k;
      assert ds[j] == init[j];
    }
  }

  /** Declaring `ds` in order adds exactly the keys of `ds` and replaces no
      existing binding. */
  lemma {:induction false} DeclareAllKeys(s: Scope, ds: seq<Decl>)
    ensures DeclareAll(s, ds).Keys == s.Keys + KeysOf(ds)
    ensures forall k | k in s :: DeclareAll(s, ds)[k] == s[k]
    decreases |ds|
  {
    if ds != [] {
      DeclareAllKeys(s, ds[..|ds| - 1]);
      KeysOfSnoc(ds);
    }
  }

  /** A key new to `s` is bound to its first declaration in `ds`. */
  lemma {:induction false} DeclareAllFirst(s: Scope, ds: seq<Decl>, i: int)
    requires 0 <= i < |ds| && ds[i].Key() !in s && FirstOfKey(ds, i)
    ensures ds[i].Key() in DeclareAll(s, ds) && DeclareAll(s, ds)[ds[i].Key()] == ds[i]
    decreases |ds|
  {
    var init := ds[..|ds| - 1];
    var last := ds[|ds| - 1];
    DeclareAllKeys(s, init);
    if i < |init| {
      assert init[i] == ds[i];
      assert FirstOfKey(init, i);
      DeclareAllFirst(s, init, i);
    } else {
      assert last.Key() !in KeysOf(init);
    }
  }

  /** Every binding new to `s` is one of `ds`. */
  lemma {:induction false} DeclareAllFrom(s: Scope, ds: seq<Decl>, k: int)
    requires k in DeclareAll(s, ds) && k !in s
    ensures DeclareAll(s, ds)[k] in ds
    decreases |ds|
  {
    var init := ds[..|ds| - 1];
    if k in DeclareAll(s, init) {
      DeclareAllFrom(s, init, k);
      assert DeclareAll(s, init)[k] in init;
    }
  }

  /** The three facts above for all keys at once. */
  lemma DeclareAllBinds(s: Scope, ds: seq<Decl>)
    ensures DeclareAll(s, ds).Keys == s.Keys + KeysOf(ds)
    ensures forall k | k in s :: DeclareAll(s, ds)[k] == s[k]
    ensures forall i | 0 <= i < |ds| && ds[i].Key() !in s && FirstOfKey(ds, i) ::
              ds[i].Key() in DeclareAll(s, ds) && DeclareAll(s, ds)[ds[i].Key()] == ds[i]
    ensures forall k | k in DeclareAll(s, ds) && k !in s :: DeclareAll(s, ds)[k] in ds
  {
    DeclareAllKeys(s, ds);
    forall i | 0 <= i < |ds| && ds[i].Key() !in s && FirstOfKey(ds, i)
      ensures ds[i].Key() in DeclareAll(s, ds) && DeclareAll(s, ds)[ds[i].Key()] == ds[i]
    {
      DeclareAllFirst(s, ds, i);
    }
    forall k | k in DeclareAll(s, ds) && k !in s ensures DeclareAll(s, ds)[k] in ds {
      DeclareAllFrom(s, ds, k);
    }
  }

  /** The name ids of a token sequence. */
  function TokenIds(ts: seq<Token>): set<int> {
    set i | 0 <= i < |ts| :: ts[i].id
  }

  /** No token before index `i` carries the name id of `ts[i]`. */
  predicate FirstOfId(ts: seq<Token>, i: int)
    requires 0 <= i < |ts|
  {
    forall j | 0 <= j < i :: ts[j].id != ts[i].id
  }
}
