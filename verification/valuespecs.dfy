/** `ConstSpec.decl` and `VarSpec.decl`: one declaration per identifier of the
    spec's identifier list, each scoped from the lookahead position. */
module ValueSpecs {
  import opened Syntax
  import opened Scopes
  import opened Idents

  function ConstDecls(ts: seq<Token>, at: Pos): (ds: seq<Decl>)
    ensures |ds| == |ts|
    ensures forall i | 0 <= i < |ts| :: ds[i] == ConstDecl(ts[i], at)
  {
    seq(|ts|, i requires 0 <= i < |ts| => ConstDecl(ts[i], at))
  }

  function VarDecls(ts: seq<Token>, at: Pos): (ds: seq<Decl>)
    ensures |ds| == |ts|
    ensures forall i | 0 <= i < |ts| :: ds[i] == VarDecl(ts[i], at)
  {
    seq(|ts|, i requires 0 <= i < |ts| => VarDecl(ts[i], at))
  }

  /** Declaring one declaration per token binds exactly the tokens' names. */
  lemma DeclsKeys(ds: seq<Decl>, ts: seq<Token>)
    requires |ds| == |ts|
    requires forall i | 0 <= i < |ts| :: ds[i].Key() == ts[i].id
    ensures KeysOf(ds) == TokenIds(ts)
    ensures forall i | 0 <= i < |ts| :: FirstOfKey(ds, i) == FirstOfId(ts, i)
  {
    forall k | k in TokenIds(ts) ensures k in KeysOf(ds) {
      var i :| 0 <= i < |ts| && ts[i].id == k;
      assert ds[i].Key() == k;
    }
  }

  /** `ConstSpec.decl`: every identifier of the list is bound in the current
      scope afterwards, no existing binding is replaced, a newly bound name
      holds the constant declaration of its first occurrence, and nothing
      outside the current scope changes. */
  function ConstSpecDecl(n: ConstSpec, lx: Lexer): (r: Lexer)
    ensures r == lx.(scope := r.scope)
    ensures r.scope.Keys == lx.scope.Keys + TokenIds(IdentifierListIdents(n.idents))
    ensures forall k | k in lx.scope :: r.scope[k] == lx.scope[k]
    ensures var ts := IdentifierListIdents(n.idents);
            forall i | 0 <= i < |ts| && ts[i].id !in lx.scope && FirstOfId(ts, i) ::
              r.scope[ts[i].id] == ConstDecl(ts[i], lx.lookahead)
  {
    var ts := IdentifierListIdents(n.idents);
    var ds := ConstDecls(ts, lx.lookahead);
    DeclsKeys(ds, ts);
    DeclareAllBinds(lx.scope, ds);
    lx.(scope := DeclareAll(lx.scope, ds))
  }

  /** `VarSpec.decl`: as `ConstSpecDecl`, with variable declarations. */
  function VarSpecDecl(n: VarSpec, lx: Lexer): (r: Lexer)
    ensures r == lx.(scope := r.scope)
    ensures r.scope.Keys == lx.scope.Keys + TokenIds(IdentifierListIdents(n.idents))
    ensures forall k | k in lx.scope :: r.scope[k] == lx.scope[k]
    ensures var ts := IdentifierListIdents(n.idents);
            forall i | 0 <= i < |ts| && ts[i].id !in lx.scope && FirstOfId(ts, i) ::
              r.scope[ts[i].id] == VarDecl(ts[i], lx.lookahead)
  {
    var ts := IdentifierListIdents(n.idents);
    var ds := VarDecls(ts, lx.lookahead);
    DeclsKeys(ds, ts);
    DeclareAllBinds(lx.scope, ds);
    lx.(scope := DeclareAll(lx.scope, ds))
  }
}
