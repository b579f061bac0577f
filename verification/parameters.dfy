/** `Parameters.post`: the parameter-list disambiguator.

    A first left-to-right pass records every entry, gives the named entries
    (cases 1 and 2) their name, gives a bare-type entry (case 3) whose type is
    a single unqualified identifier that identifier as a provisional name, and,
    at every named entry, back-patches the run of bare-type entries right in
    front of it as parameter names. Only when some entry is named does a
    second pass declare the names in the current scope. */
module Parameters {
  import opened Syntax
  import opened Scopes

  /** One element of `n.list`: the entry, its name (`nm`) and `isParamName`. */
  datatype ParamEntry = ParamEntry(decl: ParameterDecl, nm: Token, isParamName: bool)

  /** The name the first pass gives an entry: the identifier of cases 1 and 2;
      for case 3 the type's identifier when the type is case 7 with an
      unqualified name (generic arguments are not looked at); else none. */
  function ProvisionalName(d: ParameterDecl): Token {
    match d
    case VariadicTyp(_, _) => ZeroToken
    case NamedVariadic(t, _) => t
    case NamedParam(t, _) => t
    case TypOnly(typ) =>
      if typ.NamedTyp? && typ.qi.QualifiedName? then typ.qi.tok else ZeroToken
  }

  /** Entry `j` is followed, after nothing but bare-type entries, by a named
      entry that comes before index `upto`. */
  ghost predicate PatchedBefore(ds: seq<ParameterDecl>, j: int, upto: int)
    requires 0 <= j < |ds| && upto <= |ds|
  {
    exists k | j < k < upto :: ds[k].IsNamed() && forall m | j <= m < k :: ds[m].Case() == 3
  }

  /** Reference definition of `isParamName` after the whole list is scanned. */
  ghost predicate BackPatched(ds: seq<ParameterDecl>, j: int)
    requires 0 <= j < |ds|
  {
    PatchedBefore(ds, j, |ds|)
  }

  /** Reference definition of `n.list` after the first pass. */
  ghost function PatchedList(ds: seq<ParameterDecl>): (l: seq<ParamEntry>)
    ensures |l| == |ds|
  {
    seq(|ds|, j requires 0 <= j < |ds| => ParamEntry(ds[j], ProvisionalName(ds[j]), BackPatched(ds, j)))
  }

  ghost predicate NamedBefore(ds: seq<ParameterDecl>, i: int)
    requires 0 <= i <= |ds|
  {
    exists k | 0 <= k < i :: ds[k].IsNamed()
  }

  /** Some entry of the list is named (case 1 or 2). */
  ghost predicate AnyNamed(ds: seq<ParameterDecl>) {
    NamedBefore(ds, |ds|)
  }

  /** The first pass's errors at entry `i`: "..." before the last entry, and a
      bare "..." entry after a named one. */
  ghost function ScanDiag(ds: seq<ParameterDecl>, i: int): seq<Diag>
    requires 0 <= i < |ds|
  {
    var d := ds[i];
    (if (d.Case() == 0 || d.Case() == 1) && i < |ds| - 1 then [Diag(d.Pos(), EllipsisNotFinal)] else [])
    + (if d.Case() == 0 && NamedBefore(ds, i) then [Diag(d.Pos(), MixedNamedUnnamed)] else [])
  }

  /** The first pass's errors for entries `0..n`, in order. */
  ghost function ScanDiags(ds: seq<ParameterDecl>, n: int): seq<Diag>
    requires 0 <= n <= |ds|
  {
    if n == 0 then [] else ScanDiags(ds, n - 1) + ScanDiag(ds, n - 1)
  }

  /** An entry before `i` carries a valid name with id `id`. */
  ghost predicate NameBefore(l: seq<ParamEntry>, i: int, id: int)
    requires 0 <= i <= |l|
    decreases i
  {
    i > 0 && (NameBefore(l, i - 1, id) || (l[i - 1].nm.IsValid() && l[i - 1].nm.id == id))
  }

  /** The second pass's error at entry `i`, stated against the scope `s0`
      before the pass: a valid name already bound there or by an earlier
      entry is a duplicate; an unnamed back-patched entry is mixed. */
  ghost function DeclDiag(l: seq<ParamEntry>, s0: Scope, i: int): seq<Diag>
    requires 0 <= i < |l|
  {
    var e := l[i];
    if e.nm.IsValid() then
      if e.nm.id in s0 || NameBefore(l, i, e.nm.id)
      then [Diag(e.decl.Pos(), DuplicateArgument(e.nm.text))] else []
    else if e.isParamName then [Diag(e.decl.Pos(), MixedNamedUnnamed)]
    else []
  }

  ghost function DeclDiags(l: seq<ParamEntry>, s0: Scope, n: int): seq<Diag>
    requires 0 <= n <= |l|
  {
    if n == 0 then [] else DeclDiags(l, s0, n - 1) + DeclDiag(l, s0, n - 1)
  }

  /** The valid names of entries `0..n`. */
  ghost function NamesUpTo(l: seq<ParamEntry>, n: int): set<int>
    requires 0 <= n <= |l|
    decreases n
  {
    if n == 0 then {}
    else NamesUpTo(l, n - 1) + (if l[n - 1].nm.IsValid() then {l[n - 1].nm.id} else {})
  }

  /** The names gathered so far are exactly those some earlier entry carries. */
  lemma {:induction false} NamesUpToBefore(l: seq<ParamEntry>, n: int, id: int)
    requires 0 <= n <= |l|
    ensures id in NamesUpTo(l, n) <==> NameBefore(l, n, id)
    decreases n
  {
    if n > 0 {
      NamesUpToBefore(l, n - 1, id);
    }
  }

  /** Entry `i` has the first valid occurrence of its name. */
  ghost predicate FirstName(l: seq<ParamEntry>, i: int)
    requires 0 <= i < |l|
  {
    l[i].nm.IsValid() && !NameBefore(l, i, l[i].nm.id)
  }

  /** `isParamName = true` for the maximal run of case-3 entries right before
      index `i` (the backward loop of cases 1 and 2). */
  method PatchBack(l: seq<ParamEntry>, i: int) returns (r: seq<ParamEntry>)
    requires 0 <= i <= |l|
    ensures |r| == |l|
    ensures forall j | 0 <= j < |l| :: r[j].decl == l[j].decl && r[j].nm == l[j].nm
    ensures forall j | 0 <= j < |l| ::
              r[j].isParamName == (l[j].isParamName
                                   || (j < i && forall m | j <= m < i :: l[m].decl.Case() == 3))
  {
    r := l;
    var j := i - 1;
    while j >= 0 && r[j].decl.Case() == 3
      invariant -1 <= j < i
      invariant |r| == |l|
      invariant forall m | 0 <= m < |l| :: r[m].decl == l[m].decl && r[m].nm == l[m].nm
      invariant forall m | j < m < i :: l[m].decl.Case() == 3
      invariant forall m | 0 <= m < |l| :: r[m].isParamName == (l[m].isParamName || j < m < i)
      decreases j
    {
      r := r[j := r[j].(isParamName := true)];
      j := j - 1;
    }
  }

  /** The first pass's state after entries `0..i`. */
  ghost predicate ScannedUpTo(ds: seq<ParameterDecl>, i: int, l: seq<ParamEntry>, errs: seq<Diag>, hasNamed: bool)
    requires 0 <= i <= |ds|
  {
    && |l| == i
    && (forall j | 0 <= j < i :: l[j].decl == ds[j] && l[j].nm == ProvisionalName(ds[j]))
    && (forall j | 0 <= j < i :: l[j].isParamName == PatchedBefore(ds, j, i))
    && hasNamed == NamedBefore(ds, i)
    && errs == ScanDiags(ds, i)
  }

  /** The first pass: builds `n.list` and reports the "..." and mixed errors. */
  method ScanParameters(ds: seq<ParameterDecl>) returns (l: seq<ParamEntry>, errs: seq<Diag>, hasNamed: bool)
    ensures l == PatchedList(ds)
    ensures errs == ScanDiags(ds, |ds|)
    ensures hasNamed == AnyNamed(ds)
  {
    l := [];
    errs := [];
    hasNamed := false;
    var i := 0;
    while i < |ds|
      invariant 0 <= i <= |ds|
      invariant ScannedUpTo(ds, i, l, errs, hasNamed)
    {
      l, errs, hasNamed := ScanEntry(ds, i, l, errs, hasNamed);
      i := i + 1;
    }
  }

  /** One iteration of the first pass, on entry `i`. */
  method ScanEntry(ds: seq<ParameterDecl>, i: int, l0: seq<ParamEntry>, errs0: seq<Diag>, hasNamed0: bool)
    returns (l: seq<ParamEntry>, errs: seq<Diag>, hasNamed: bool)
    requires 0 <= i < |ds|
    requires ScannedUpTo(ds, i, l0, errs0, hasNamed0)
    ensures ScannedUpTo(ds, i + 1, l, errs, hasNamed)
  {
    var pd := ds[i];
    PatchedStep(ds, i);
    assert NamedBefore(ds, i + 1) == (NamedBefore(ds, i) || pd.IsNamed());
    assert ScanDiags(ds, i + 1) == errs0 + ScanDiag(ds, i);
    if pd.IsNamed() {
      l, errs, hasNamed := ScanNamedEntry(ds, i, l0, errs0);
    } else {
      l, errs, hasNamed := l0 + [ParamEntry(pd, ProvisionalName(pd), false)], errs0, hasNamed0;
      if pd.VariadicTyp? {
        if i != |ds| - 1 {
          errs := errs + [Diag(pd.Pos(), EllipsisNotFinal)];
        }
        if hasNamed {
          errs := errs + [Diag(pd.Pos(), MixedNamedUnnamed)];
        }
      }
    }
  }

  /** Entry `i` of cases 1 and 2: take its name, report a "..." before the
      last entry, and back-patch the bare-type entries right before it. */
  method ScanNamedEntry(ds: seq<ParameterDecl>, i: int, l0: seq<ParamEntry>, errs0: seq<Diag>)
    returns (l: seq<ParamEntry>, errs: seq<Diag>, hasNamed: bool)
    requires 0 <= i < |ds| && ds[i].IsNamed()
    requires |l0| == i
    requires forall j | 0 <= j < i :: l0[j].decl == ds[j] && l0[j].nm == ProvisionalName(ds[j])
    requires forall j | 0 <= j < i :: l0[j].isParamName == PatchedBefore(ds, j, i)
    ensures |l| == i + 1
    ensures forall j | 0 <= j <= i :: l[j].decl == ds[j] && l[j].nm == ProvisionalName(ds[j])
    ensures forall j | 0 <= j <= i :: l[j].isParamName == PatchedBefore(ds, j, i + 1)
    ensures errs == errs0 + ScanDiag(ds, i)
    ensures hasNamed
  {
    var pd := ds[i];
    hasNamed := true;
    errs := errs0;
    if pd.NamedVariadic? && i != |ds| - 1 {
      errs := errs + [Diag(pd.Pos(), EllipsisNotFinal)];
    }
    var l1 := l0 + [ParamEntry(pd, pd.tok, false)];
    l := PatchBack(l1, i);
    forall j | 0 <= j <= i ensures l[j].isParamName == PatchedBefore(ds, j, i + 1) {
      PatchedStepAt(ds, i, j);
      if j < i {
        assert l1[j] == l0[j];
        forall m | j <= m < i ensures l1[m].decl == ds[m] {
          assert l1[m] == l0[m];
        }
      }
    }
  }

  /** How `PatchedBefore` grows by one entry at index `j`. */
  lemma PatchedStepAt(ds: seq<ParameterDecl>, i: int, j: int)
    requires 0 <= j <= i < |ds|
    ensures PatchedBefore(ds, j, i + 1) ==
              (PatchedBefore(ds, j, i) || (j < i && ds[i].IsNamed() && forall m | j <= m < i :: ds[m].Case() == 3))
  {
  }

  /** How `PatchedBefore` grows by one entry: a named entry at `i` patches
      exactly the run of case-3 entries right before it. */
  lemma PatchedStep(ds: seq<ParameterDecl>, i: int)
    requires 0 <= i < |ds|
    ensures forall j | 0 <= j < i ::
              PatchedBefore(ds, j, i + 1) ==
                (PatchedBefore(ds, j, i) || (ds[i].IsNamed() && forall m | j <= m < i :: ds[m].Case() == 3))
    ensures !PatchedBefore(ds, i, i + 1)
  {
  }

  /** `s` is `s0` with the valid names of entries `0..n` declared: exactly
      those names are added, no binding of `s0` is replaced, and a name new
      to `s0` holds the variable declaration of the first entry carrying it. */
  ghost predicate DeclaresNames(l: seq<ParamEntry>, n: int, s0: Scope, s: Scope)
    requires 0 <= n <= |l|
  {
    && s.Keys == s0.Keys + NamesUpTo(l, n)
    && (forall k | k in s0 :: s[k] == s0[k])
    && (forall j | 0 <= j < n && FirstName(l, j) && l[j].nm.id !in s0 ::
          l[j].nm.id in s && s[l[j].nm.id] == VarDecl(l[j].nm, l[j].nm.pos))
  }

  /** The second pass's state after entries `0..i`. */
  ghost predicate DeclaredUpTo(l: seq<ParamEntry>, s0: Scope, i: int, s: Scope, errs: seq<Diag>)
    requires 0 <= i <= |l|
  {
    DeclaresNames(l, i, s0, s) && errs == DeclDiags(l, s0, i)
  }

  /** The second pass: declares every valid name not yet bound in the
      current scope, reporting duplicates and unnamed back-patched entries. */
  method DeclareParameters(l: seq<ParamEntry>, s0: Scope) returns (s: Scope, errs: seq<Diag>)
    ensures DeclaresNames(l, |l|, s0, s)
    ensures errs == DeclDiags(l, s0, |l|)
  {
    s := s0;
    errs := [];
    var i := 0;
    while i < |l|
      invariant 0 <= i <= |l|
      invariant DeclaredUpTo(l, s0, i, s, errs)
    {
      s, errs := DeclareEntry(l, s0, i, s, errs);
      i := i + 1;
    }
  }

  /** One iteration of the second pass, on entry `i`. */
  method DeclareEntry(l: seq<ParamEntry>, s0: Scope, i: int, s1: Scope, errs1: seq<Diag>)
    returns (s: Scope, errs: seq<Diag>)
    requires 0 <= i < |l|
    requires DeclaredUpTo(l, s0, i, s1, errs1)
    ensures DeclaredUpTo(l, s0, i + 1, s, errs)
  {
    s, errs := s1, errs1;
    var v := l[i];
    var nm := v.nm;
    NamesStep(l, i);
    assert DeclDiags(l, s0, i + 1) == errs1 + DeclDiag(l, s0, i);
    if nm.IsValid() {
      if nm.id in s {
        errs := errs + [Diag(v.decl.Pos(), DuplicateArgument(nm.text))];
      } else {
        s := Declare(s, VarDecl(nm, nm.pos));
      }
    } else if v.isParamName && !nm.IsValid() {
      errs := errs + [Diag(v.decl.Pos(), MixedNamedUnnamed)];
    }
  }

  /** How the declared names grow by one entry. */
  lemma NamesStep(l: seq<ParamEntry>, i: int)
    requires 0 <= i < |l|
    ensures NamesUpTo(l, i + 1) == NamesUpTo(l, i) + (if l[i].nm.IsValid() then {l[i].nm.id} else {})
    ensures l[i].nm.IsValid() ==> (l[i].nm.id in NamesUpTo(l, i) <==> NameBefore(l, i, l[i].nm.id))
  {
    NamesUpToBefore(l, i, l[i].nm.id);
  }

  /** Reference definition of everything `Parameters.post` reports: the first
      pass's errors, then, when some entry is named, the second pass's. */
  ghost function ParamDiags(ds: seq<ParameterDecl>, s0: Scope): seq<Diag> {
    ScanDiags(ds, |ds|) + (if AnyNamed(ds) then DeclDiags(PatchedList(ds), s0, |ds|) else [])
  }

  /** `Parameters.post`. `list` is the whole parameter list in order, with
      names and back-patch flags as `PatchedList` defines them. When no entry
      is named, nothing is declared and only first-pass errors are reported.
      Otherwise exactly the valid names are added to the current scope, no
      existing binding is replaced, each new name is declared by its first
      entry, and the second pass's errors follow the first pass's. */
  method ParametersPost(ds: seq<ParameterDecl>, lx: Lexer) returns (list: seq<ParamEntry>, r: Lexer)
    ensures list == PatchedList(ds)
    ensures && r.fileScope == lx.fileScope && r.pkg == lx.pkg && r.fileName == lx.fileName
            && r.lookahead == lx.lookahead && r.imports == lx.imports
            && r.dotImports == lx.dotImports && r.unboundImports == lx.unboundImports
    ensures !AnyNamed(ds) ==> r.scope == lx.scope
    ensures AnyNamed(ds) ==> DeclaresNames(list, |list|, lx.scope, r.scope)
    ensures r.errors == lx.errors + ParamDiags(ds, lx.scope)
  {
    var scanErrs, hasNamed;
    list, scanErrs, hasNamed := ScanParameters(ds);
    if hasNamed {
      var s, declErrs := DeclareParameters(list, lx.scope);
      r := lx.(scope := s, errors := lx.errors + scanErrs + declErrs);
    } else {
      r := lx.(errors := lx.errors + scanErrs);
    }
  }

  /** A bare-type entry whose type is the plain identifier `t`. */
  function TypeName(t: Token): ParameterDecl {
    TypOnly(NamedTyp(QualifiedName(t), None))
  }

  /** `(int, string)`: no entry is named, so nothing is back-patched, no
      error is reported and (by `ParametersPost`) nothing is declared. */
  lemma AllTypesDeclareNothing(ds: seq<ParameterDecl>)
    requires forall i | 0 <= i < |ds| :: ds[i].Case() == 3
    ensures !AnyNamed(ds)
    ensures ScanDiags(ds, |ds|) == []
    ensures forall i | 0 <= i < |ds| :: !PatchedList(ds)[i].isParamName
  {
    forall k | 0 <= k < |ds| ensures !ds[k].IsNamed() {
      assert ds[k].Case() == 3;
    }
    forall i | 0 <= i < |ds| ensures !BackPatched(ds, i) {
      forall k | i < k < |ds| ensures !ds[k].IsNamed() {
        assert ds[k].Case() == 3;
      }
    }
    ScanDiagsNone(ds, |ds|);
  }

  lemma {:induction false} ScanDiagsNone(ds: seq<ParameterDecl>, n: int)
    requires 0 <= n <= |ds|
    requires forall i | 0 <= i < |ds| :: ds[i].Case() == 3
    ensures ScanDiags(ds, n) == []
    decreases n
  {
    if n > 0 {
      ScanDiagsNone(ds, n - 1);
      assert ds[n - 1].Case() == 3;
      assert ScanDiag(ds, n - 1) == [];
    }
  }

  /** `(a, b int)`: `a` is back-patched as a parameter name, both names are
      declared and nothing is reported. */
  lemma SharedTypeDeclaresBoth(a: Token, b: Token, t: Typ, s: Scope)
    requires a.IsValid() && b.IsValid() && a.id != b.id
    requires a.id !in s && b.id !in s
    ensures var ds := [TypeName(a), NamedParam(b, t)];
            var l := PatchedList(ds);
            && AnyNamed(ds)
            && l == [ParamEntry(ds[0], a, true), ParamEntry(ds[1], b, false)]
            && ScanDiags(ds, 2) == []
            && NamesUpTo(l, 2) == {a.id, b.id}
            && DeclDiags(l, s, 2) == []
  {
    var ds := [TypeName(a), NamedParam(b, t)];
    assert ds[1].IsNamed() && ds[0].Case() == 3;
    assert PatchedBefore(ds, 0, 2);
    var l := PatchedList(ds);
    assert l[0] == ParamEntry(ds[0], a, true);
    assert l[1] == ParamEntry(ds[1], b, false);
    assert ScanDiag(ds, 0) == [] && ScanDiag(ds, 1) == [];
    assert ScanDiags(ds, 1) == [];
    assert NamesUpTo(l, 2) == {a.id, b.id} by {
      assert l[0].nm.id == a.id && l[1].nm.id == b.id;
    }
    assert !NameBefore(l, 0, a.id);
    assert !NameBefore(l, 1, b.id);
    assert DeclDiag(l, s, 0) == [] && DeclDiag(l, s, 1) == [];
    assert DeclDiags(l, s, 1) == [];
  }

  /** `([]int, b int)`: the unnamed entry is back-patched but has no name, so
      "mixed named and unnamed parameters" is reported at it. */
  lemma UnnamedBeforeNamedIsMixed(lit: Typ, b: Token, t: Typ, s: Scope)
    requires !lit.NamedTyp? && b.IsValid() && b.id !in s
    ensures var ds := [TypOnly(lit), NamedParam(b, t)];
            var l := PatchedList(ds);
            && ScanDiags(ds, 2) == []
            && DeclDiags(l, s, 2) == [Diag(lit.Pos(), MixedNamedUnnamed)]
  {
    var ds := [TypOnly(lit), NamedParam(b, t)];
    assert ds[1].IsNamed() && ds[0].Case() == 3;
    assert PatchedBefore(ds, 0, 2);
    var l := PatchedList(ds);
    assert l[0] == ParamEntry(ds[0], ZeroToken, true);
    assert l[1] == ParamEntry(ds[1], b, false);
    assert ScanDiag(ds, 0) == [] && ScanDiag(ds, 1) == [];
    assert ScanDiags(ds, 1) == [];
    assert !NameBefore(l, 1, b.id);
    assert DeclDiag(l, s, 0) == [Diag(lit.Pos(), MixedNamedUnnamed)];
    assert DeclDiag(l, s, 1) == [];
    assert DeclDiags(l, s, 1) == [Diag(lit.Pos(), MixedNamedUnnamed)];
  }

  /** `(a int, string)`: the trailing type name is taken as a parameter name,
      so `a` and `string` are both declared and nothing is reported. */
  lemma TrailingTypeNameIsDeclared(a: Token, t: Typ, str: Token, s: Scope)
    requires a.IsValid() && str.IsValid() && a.id != str.id
    requires a.id !in s && str.id !in s
    ensures var ds := [NamedParam(a, t), TypeName(str)];
            var l := PatchedList(ds);
            && AnyNamed(ds)
            && l == [ParamEntry(ds[0], a, false), ParamEntry(ds[1], str, false)]
            && ScanDiags(ds, 2) == []
            && NamesUpTo(l, 2) == {a.id, str.id}
            && DeclDiags(l, s, 2) == []
  {
    var ds := [NamedParam(a, t), TypeName(str)];
    assert ds[0].IsNamed();
    assert !PatchedBefore(ds, 0, 2) by {
      assert ds[0].Case() != 3;
    }
    assert !PatchedBefore(ds, 1, 2);
    var l := PatchedList(ds);
    assert l[0] == ParamEntry(ds[0], a, false);
    assert l[1] == ParamEntry(ds[1], str, false);
    assert ScanDiag(ds, 0) == [] && ScanDiag(ds, 1) == [];
    assert ScanDiags(ds, 1) == [];
    assert NamesUpTo(l, 2) == {a.id, str.id} by {
      assert l[0].nm.id == a.id && l[1].nm.id == str.id;
    }
    assert !NameBefore(l, 0, a.id);
    assert !NameBefore(l, 1, str.id);
    assert DeclDiag(l, s, 0) == [] && DeclDiag(l, s, 1) == [];
    assert DeclDiags(l, s, 1) == [];
  }

  /** `(a ...int, b int)`: "..." before the last entry is reported once, at
      the variadic entry. */
  lemma EllipsisMustBeLast(a: Token, t: Typ, b: Token, u: Typ)
    ensures var ds := [NamedVariadic(a, t), NamedParam(b, u)];
            ScanDiags(ds, 2) == [Diag(a.pos, EllipsisNotFinal)]
  {
    var ds := [NamedVariadic(a, t), NamedParam(b, u)];
    assert ScanDiag(ds, 0) == [Diag(a.pos, EllipsisNotFinal)];
    assert ScanDiag(ds, 1) == [];
    assert ScanDiags(ds, 1) == [Diag(a.pos, EllipsisNotFinal)];
  }
}
