/** `ImportSpec.post` (import path validation, pending imports) and
    `Prologue.post` (binding the file's imports once their packages are loaded).

    Four collaborators are parameters: `graphic` is membership of a rune in
    the Unicode categories L, M, N, P or S; `isRelative` tells a relative
    import path (`./x`, `../x`); `join` resolves a relative path against the
    importing package's path; `load` yields the package an import path loads. */
module Imports {
  import opened Syntax
  import opened Scopes

  /** Characters no import path may contain. */
  const ForbiddenChars: string := "!\"#$%&'()*,:;<=>?[\\]^`{|}"

  /** The Unicode replacement character. */
  const ReplacementChar: char := '\U{FFFD}'

  predicate ContainsAny(s: string, chars: string) {
    exists i | 0 <= i < |s| :: s[i] in chars
  }

  /** A rune the per-rune checks accept. */
  predicate GoodRune(c: char, graphic: char -> bool) {
    c != ReplacementChar && graphic(c)
  }

  /** The diagnostic for the first rejected rune `c`. */
  function BadRuneKind(c: char): DiagKind {
    if c == ReplacementChar then ImportPathBadChar else ImportPathInvalid
  }

  /** Reference definition of an acceptable import path. */
  predicate ValidImportPath(ip: string, graphic: char -> bool) {
    && ip != ""
    && ip[0] != '/'
    && forall i | 0 <= i < |ip| :: ip[i] !in ForbiddenChars && GoodRune(ip[i], graphic)
  }

  /** The rune loop from rune `i` on. As in `ast2.go`, every iteration first
      asks whether the WHOLE path contains a forbidden character. */
  function RuneCheck(ip: string, i: nat, graphic: char -> bool): Option<DiagKind>
    requires i <= |ip|
    decreases |ip| - i
  {
    if i == |ip| then None
    else if ContainsAny(ip, ForbiddenChars) || ip[i] == ReplacementChar then Some(ImportPathBadChar)
    else if !graphic(ip[i]) then Some(ImportPathInvalid)
    else RuneCheck(ip, i + 1, graphic)
  }

  /** With no forbidden character in the path, the rune loop accepts exactly
      when every rune from `i` on is good. */
  lemma {:induction false} RuneCheckAccepts(ip: string, i: nat, graphic: char -> bool)
    requires i <= |ip|
    requires !ContainsAny(ip, ForbiddenChars)
    ensures RuneCheck(ip, i, graphic) == None <==> forall j | i <= j < |ip| :: GoodRune(ip[j], graphic)
    decreases |ip| - i
  {
    if i < |ip| {
      RuneCheckAccepts(ip, i + 1, graphic);
    }
  }

  /** With no forbidden character in the path, the rune loop reports the kind
      of the first bad rune at or after `i`. */
  lemma {:induction false} RuneCheckFirstBad(ip: string, i: nat, j: nat, graphic: char -> bool)
    requires i <= j < |ip|
    requires !ContainsAny(ip, ForbiddenChars)
    requires !GoodRune(ip[j], graphic)
    requires forall m | i <= m < j :: GoodRune(ip[m], graphic)
    ensures RuneCheck(ip, i, graphic) == Some(BadRuneKind(ip[j]))
    decreases j - i
  {
    if i < j {
      RuneCheckFirstBad(ip, i + 1, j, graphic);
    }
  }

  /** The validation part of `ImportSpec.post`: `None` accepts the path,
      `Some(k)` names the single error reported. */
  function CheckImportPath(ip: string, graphic: char -> bool): (r: Option<DiagKind>)
    ensures r == None <==> ValidImportPath(ip, graphic)
    ensures ip == "" ==> r == Some(ImportPathEmpty)
    ensures ip != "" && ip[0] == '/' ==> r == Some(ImportPathAbsolute)
    ensures ip != "" && ip[0] != '/' && ContainsAny(ip, ForbiddenChars) ==> r == Some(ImportPathBadChar)
    ensures ip != "" && ip[0] != '/' && !ContainsAny(ip, ForbiddenChars) ==>
              forall j | 0 <= j < |ip| && !GoodRune(ip[j], graphic)
                         && (forall m | 0 <= m < j :: GoodRune(ip[m], graphic)) ::
                r == Some(BadRuneKind(ip[j]))
  {
    if ip == "" then Some(ImportPathEmpty)
    else if ip[0] == '/' then Some(ImportPathAbsolute)
    else if ContainsAny(ip, ForbiddenChars) then
      assert !ValidImportPath(ip, graphic);
      RuneCheck(ip, 0, graphic)
    else
      RuneCheckAccepts(ip, 0, graphic);
      assert forall j | 0 <= j < |ip| && !GoodRune(ip[j], graphic)
                        && (forall m | 0 <= m < j :: GoodRune(ip[m], graphic)) ::
               RuneCheck(ip, 0, graphic) == Some(BadRuneKind(ip[j])) by {
        forall j | 0 <= j < |ip| && !GoodRune(ip[j], graphic)
                   && (forall m | 0 <= m < j :: GoodRune(ip[m], graphic))
          ensures RuneCheck(ip, 0, graphic) == Some(BadRuneKind(ip[j]))
        {
          RuneCheckFirstBad(ip, 0, j, graphic);
        }
      }
      RuneCheck(ip, 0, graphic)
  }

  /** The interned local name an import spec asks for (0 when none). */
  function SpecName(n: ImportSpec): int {
    if n.ident.Some? then n.ident.value.id else 0
  }

  /** The position of an import declaration: the name token's, unless that is
      missing or invalid, then the literal's. */
  function SpecPos(n: ImportSpec): Pos {
    if n.ident.Some? && n.ident.value.pos != NoPos then n.ident.value.pos else n.lit.at
  }

  /** `ImportSpec.post`. A literal that is not a string, or a string path that
      fails validation, reports exactly one error at the literal and adds no
      import; a string literal without a value does nothing; an accepted path
      appends exactly one pending import, recording the path as written
      unless it is relative, and reports nothing. */
  function ImportSpecPost(n: ImportSpec, lx: Lexer, graphic: char -> bool,
                          isRelative: string -> bool, join: (string, string) -> string): (r: Lexer)
    ensures r == lx.(imports := r.imports, errors := r.errors)
    ensures n.lit.kind != StringLit ==>
              r.imports == lx.imports && r.errors == lx.errors + [Diag(n.lit.at, ImportNotString)]
    ensures n.lit.kind == StringLit && n.lit.val.None? ==> r == lx
    ensures n.lit.kind == StringLit && n.lit.val.Some? && !ValidImportPath(n.lit.val.value, graphic) ==>
              && r.imports == lx.imports
              && r.errors == lx.errors + [Diag(n.lit.at, CheckImportPath(n.lit.val.value, graphic).value)]
    ensures n.lit.kind == StringLit && n.lit.val.Some? && ValidImportPath(n.lit.val.value, graphic) ==>
              && r.errors == lx.errors
              && (!isRelative(n.lit.val.value) ==>
                    r.imports == lx.imports + [Import(SpecName(n), SpecPos(n), n.lit.val.value, None)])
              && (isRelative(n.lit.val.value) ==>
                    r.imports == lx.imports
                                 + [Import(SpecName(n), SpecPos(n), join(lx.pkg.importPath, n.lit.val.value), None)])
  {
    match n.lit.kind
    case CharLit => Report(lx, n.lit.at, ImportNotString)
    case FloatLit => Report(lx, n.lit.at, ImportNotString)
    case ImagLit => Report(lx, n.lit.at, ImportNotString)
    case IntLit => Report(lx, n.lit.at, ImportNotString)
    case StringLit =>
      if n.lit.val.None? then lx
      else
        var ip := n.lit.val.value;
        match CheckImportPath(ip, graphic)
        case Some(k) => Report(lx, n.lit.at, k)
        case None =>
          var path := if isRelative(ip) then join(lx.pkg.importPath, ip) else ip;
          lx.(imports := lx.imports + [Import(SpecName(n), SpecPos(n), path, None)])
  }

  /** Each import spec adds exactly one item to the error list or the import
      list, except a string literal without a value, which adds nothing. */
  lemma ImportSpecPostAddsOne(n: ImportSpec, lx: Lexer, graphic: char -> bool,
                              isRelative: string -> bool, join: (string, string) -> string)
    ensures var r := ImportSpecPost(n, lx, graphic, isRelative, join);
            |r.errors| + |r.imports| ==
              |lx.errors| + |lx.imports| + (if n.lit.kind == StringLit && n.lit.val.None? then 0 else 1)
  {
  }

  // ------------------------------------------------------------------ Prologue

  /** An import once its package `p` is loaded: the package is attached, and a
      nameless import takes `IdC` for path "C", else the package's own name. */
  function ResolveImport(v: Import, p: Package): (w: Import)
    ensures w.pos == v.pos && w.path == v.path && w.pkg == Some(p)
    ensures v.name != 0 ==> w.name == v.name
    ensures v.name == 0 && p.importPath == "C" ==> w.name == IdC
    ensures v.name == 0 && p.importPath != "C" ==> w.name == p.nameId
  {
    var w := v.(pkg := Some(p));
    if v.name == IdDot || v.name == IdUnderscore then w
    else if v.name == 0 then
      w.(name := if p.importPath == "C" then IdC else p.nameId)
    else w
  }

  function ResolveAll(vs: seq<Import>, load: string -> Package): (ws: seq<Import>)
    ensures |ws| == |vs|
  {
    seq(|vs|, i requires 0 <= i < |vs| => ResolveImport(vs[i], load(vs[i].path)))
  }

  /** Imports that bind a name in the file scope: neither dot nor blank. The
      choice is made on the name the import spec asked for, before
      resolution gives a nameless import its package's name. */
  predicate Binds(v: Import) {
    v.name != IdDot && v.name != IdUnderscore
  }

  /** The resolved imports `ws[i]` whose spec asked for the local name `id`,
      in order. */
  function WithName(vs: seq<Import>, ws: seq<Import>, id: int): (f: seq<Import>)
    requires |vs| == |ws|
    ensures forall w | w in f :: exists i | 0 <= i < |ws| :: ws[i] == w && vs[i].name == id
    ensures forall i | 0 <= i < |ws| && vs[i].name == id :: ws[i] in f
    decreases |vs|
  {
    if vs == [] then []
    else
      var n := |vs| - 1;
      var f0 := WithName(vs[..n], ws[..n], id);
      assert forall w | w in f0 :: exists i | 0 <= i < |ws| :: ws[i] == w && vs[i].name == id by {
        forall w | w in f0 ensures exists i | 0 <= i < |ws| :: ws[i] == w && vs[i].name == id {
          var i :| 0 <= i < n && ws[..n][i] == w && vs[..n][i].name == id;
          assert ws[i] == w && vs[i].name == id;
        }
      }
      assert forall i | 0 <= i < n && vs[i].name == id :: ws[i] in f0 by {
        forall i | 0 <= i < n && vs[i].name == id ensures ws[i] in f0 {
          assert vs[..n][i] == vs[i] && ws[..n][i] == ws[i];
        }
      }
      f0 + (if vs[n].name == id then [ws[n]] else [])
  }

  /** The declarations the binding imports add to the file scope, in order. */
  function BoundDecls(vs: seq<Import>, ws: seq<Import>): (ds: seq<Decl>)
    requires |vs| == |ws|
    ensures forall d | d in ds :: d.ImportDecl? && exists i | 0 <= i < |ws| :: ws[i] == d.imp && Binds(vs[i])
    decreases |vs|
  {
    if vs == [] then []
    else
      var n := |vs| - 1;
      var ds0 := BoundDecls(vs[..n], ws[..n]);
      assert forall d | d in ds0 :: d.ImportDecl? && exists i | 0 <= i < |ws| :: ws[i] == d.imp && Binds(vs[i]) by {
        forall d | d in ds0 ensures d.ImportDecl? && exists i | 0 <= i < |ws| :: ws[i] == d.imp && Binds(vs[i]) {
          var i :| 0 <= i < n && ws[..n][i] == d.imp && Binds(vs[..n][i]);
          assert ws[i] == d.imp && Binds(vs[i]);
        }
      }
      ds0 + (if Binds(vs[n]) then [ImportDecl(ws[n])] else [])
  }

  /** The binding loop: `vs` the pending imports, `ws` the same imports
      resolved; the branch is chosen by the pending import's name. */
  function BindImports(lx: Lexer, vs: seq<Import>, ws: seq<Import>): Lexer
    requires |vs| == |ws|
    decreases |vs|
  {
    if vs == [] then lx
    else
      var n := |vs| - 1;
      var p := BindImports(lx, vs[..n], ws[..n]);
      if vs[n].name == IdDot then p.(dotImports := p.dotImports + [ws[n]])
      else if vs[n].name == IdUnderscore then p.(unboundImports := p.unboundImports + [ws[n]])
      else p.(fileScope := Declare(p.fileScope, ImportDecl(ws[n])))
  }

  /** The binding loop changes only the file scope and the two side lists. */
  lemma {:induction false} BindImportsFrame(lx: Lexer, vs: seq<Import>, ws: seq<Import>)
    requires |vs| == |ws|
    ensures var r := BindImports(lx, vs, ws);
            r == lx.(fileScope := r.fileScope, dotImports := r.dotImports,
                     unboundImports := r.unboundImports)
    decreases |vs|
  {
    if vs != [] {
      BindImportsFrame(lx, vs[..|vs| - 1], ws[..|ws| - 1]);
    }
  }

  /** The binding loop appends the dot imports to their side list, in order. */
  lemma {:induction false} BindImportsDots(lx: Lexer, vs: seq<Import>, ws: seq<Import>)
    requires |vs| == |ws|
    ensures BindImports(lx, vs, ws).dotImports == lx.dotImports + WithName(vs, ws, IdDot)
    decreases |vs|
  {
    if vs != [] {
      var n := |vs| - 1;
      BindImportsDots(lx, vs[..n], ws[..n]);
      assert WithName(vs, ws, IdDot)
          == WithName(vs[..n], ws[..n], IdDot) + (if vs[n].name == IdDot then [ws[n]] else []);
    }
  }

  /** The binding loop appends the blank imports to their side list, in order. */
  lemma {:induction false} BindImportsBlanks(lx: Lexer, vs: seq<Import>, ws: seq<Import>)
    requires |vs| == |ws|
    ensures BindImports(lx, vs, ws).unboundImports == lx.unboundImports + WithName(vs, ws, IdUnderscore)
    decreases |vs|
  {
    if vs != [] {
      var n := |vs| - 1;
      BindImportsBlanks(lx, vs[..n], ws[..n]);
      assert WithName(vs, ws, IdUnderscore)
          == WithName(vs[..n], ws[..n], IdUnderscore) + (if vs[n].name == IdUnderscore then [ws[n]] else []);
    }
  }

  /** The binding loop declares every other import in the file scope, in order. */
  lemma {:induction false} BindImportsScope(lx: Lexer, vs: seq<Import>, ws: seq<Import>)
    requires |vs| == |ws|
    ensures BindImports(lx, vs, ws).fileScope == DeclareAll(lx.fileScope, BoundDecls(vs, ws))
    decreases |vs|
  {
    if vs != [] {
      var n := |vs| - 1;
      BindImportsScope(lx, vs[..n], ws[..n]);
      var init := BoundDecls(vs[..n], ws[..n]);
      if Binds(vs[n]) {
        assert BoundDecls(vs, ws) == init + [ImportDecl(ws[n])];
        DeclareAllSnoc(lx.fileScope, init, ImportDecl(ws[n]));
      } else {
        assert BoundDecls(vs, ws) == init;
      }
    }
  }

  /** Declaring one more declaration after a sequence is one more `Declare`. */
  lemma {:induction false} DeclareAllSnoc(s: Scope, ds: seq<Decl>, d: Decl)
    ensures DeclareAll(s, ds + [d]) == Declare(DeclareAll(s, ds), d)
  {
    assert (ds + [d])[..|ds + [d]| - 1] == ds;
  }

  /** Resolved import `ws[i]` is declared (its spec did not ask for "." or
      "_") and no earlier declared import carries the same resolved name. */
  predicate FirstBinder(vs: seq<Import>, ws: seq<Import>, i: int)
    requires |vs| == |ws| && 0 <= i < |ws|
  {
    && Binds(vs[i])
    && forall j | 0 <= j < i :: !Binds(vs[j]) || ws[j].name != ws[i].name
  }

  /** Declaring the bound imports in order leaves each name new to the scope
      bound to the first import that carries it. */
  lemma {:induction false} BindImportsFirst(s: Scope, vs: seq<Import>, ws: seq<Import>, i: int)
    requires |vs| == |ws| && 0 <= i < |ws|
    requires FirstBinder(vs, ws, i) && ws[i].name !in s
    ensures ws[i].name in DeclareAll(s, BoundDecls(vs, ws))
    ensures DeclareAll(s, BoundDecls(vs, ws))[ws[i].name] == ImportDecl(ws[i])
    decreases |vs|
  {
    var n := |vs| - 1;
    var init := BoundDecls(vs[..n], ws[..n]);
    assert BoundDecls(vs, ws) == init + (if Binds(vs[n]) then [ImportDecl(ws[n])] else []);
    DeclareAllKeys(s, init);
    if i < n {
      assert FirstBinder(vs[..n], ws[..n], i) by {
        assert forall j | 0 <= j < i :: vs[..n][j] == vs[j] && ws[..n][j] == ws[j];
      }
      BindImportsFirst(s, vs[..n], ws[..n], i);
      if Binds(vs[n]) {
        DeclareAllSnoc(s, init, ImportDecl(ws[n]));
      } else {
        assert BoundDecls(vs, ws) == init;
      }
    } else {
      assert ws[n].name !in KeysOf(init) by {
        forall m | 0 <= m < |init| ensures init[m].Key() != ws[n].name {
          assert init[m] in init;
          var j :| 0 <= j < n && ws[..n][j] == init[m].imp && Binds(vs[..n][j]);
          assert ws[j] == init[m].imp && Binds(vs[j]);
        }
      }
      DeclareAllSnoc(s, init, ImportDecl(ws[n]));
    }
  }

  /** `Prologue.post`. Every pending import gets its loaded package and, when
      nameless, the package's name (`IdC` for path "C"); imports asking for
      the name "." are appended to `dotImports` and those asking for "_" to
      `unboundImports`, in order; every other import is declared in the file
      scope, where exactly their names are added, no existing binding is
      replaced and a new name holds the first of those imports to carry it.
      Nothing else changes: no error is reported. */
  function ProloguePost(lx: Lexer, load: string -> Package): (r: Lexer)
    ensures r == lx.(imports := r.imports, fileScope := r.fileScope,
                     dotImports := r.dotImports, unboundImports := r.unboundImports)
    ensures |r.imports| == |lx.imports|
    ensures forall i | 0 <= i < |lx.imports| ::
              var v, w, p := lx.imports[i], r.imports[i], load(lx.imports[i].path);
              && w.pos == v.pos && w.path == v.path && w.pkg == Some(p)
              && w.name == (if v.name != 0 then v.name else if p.importPath == "C" then IdC else p.nameId)
    ensures r.dotImports == lx.dotImports + WithName(lx.imports, r.imports, IdDot)
    ensures r.unboundImports == lx.unboundImports + WithName(lx.imports, r.imports, IdUnderscore)
    ensures r.fileScope.Keys == lx.fileScope.Keys + KeysOf(BoundDecls(lx.imports, r.imports))
    ensures forall k | k in lx.fileScope :: r.fileScope[k] == lx.fileScope[k]
    ensures forall k | k in r.fileScope && k !in lx.fileScope ::
              && r.fileScope[k].ImportDecl?
              && exists i | 0 <= i < |r.imports| :: r.imports[i] == r.fileScope[k].imp && Binds(lx.imports[i])
    ensures forall i | 0 <= i < |r.imports| && r.imports[i].name !in lx.fileScope
                       && FirstBinder(lx.imports, r.imports, i) ::
              r.imports[i].name in r.fileScope && r.fileScope[r.imports[i].name] == ImportDecl(r.imports[i])
  {
    var vs := lx.imports;
    var ws := ResolveAll(vs, load);
    DeclareAllBinds(lx.fileScope, BoundDecls(vs, ws));
    BindImportsFrame(lx.(imports := ws), vs, ws);
    BindImportsDots(lx.(imports := ws), vs, ws);
    BindImportsBlanks(lx.(imports := ws), vs, ws);
    BindImportsScope(lx.(imports := ws), vs, ws);
    forall i | 0 <= i < |ws| && ws[i].name !in lx.fileScope && FirstBinder(vs, ws, i)
      ensures ws[i].name in DeclareAll(lx.fileScope, BoundDecls(vs, ws))
      ensures DeclareAll(lx.fileScope, BoundDecls(vs, ws))[ws[i].name] == ImportDecl(ws[i])
    {
      BindImportsFirst(lx.fileScope, vs, ws, i);
    }
    BindImports(lx.(imports := ws), vs, ws)
  }

  /** A nameless import whose package's own name id is that of "_" takes
      that name, yet is still declared in the file scope, not listed as a
      blank import: the branch follows the name the spec asked for. */
  lemma NamelessImportAlwaysBinds(lx: Lexer, load: string -> Package)
    requires |lx.imports| == 1 && lx.imports[0].name == 0
    requires load(lx.imports[0].path).importPath != "C"
    requires load(lx.imports[0].path).nameId == IdUnderscore
    requires IdUnderscore !in lx.fileScope
    ensures var r := ProloguePost(lx, load);
            && r.imports[0].name == IdUnderscore
            && r.unboundImports == lx.unboundImports
            && r.fileScope == lx.fileScope[IdUnderscore := ImportDecl(r.imports[0])]
  {
    var r := ProloguePost(lx, load);
    var vs := lx.imports;
    var ws := ResolveAll(vs, load);
    assert vs[..0] == [] && ws[..0] == [];
    assert r == BindImports(lx.(imports := ws), vs, ws);
  }
}
