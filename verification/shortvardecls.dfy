/** `Range.shortVarDecl` and `SwitchCase.shortVarDecl`: at most two targets
    on the left of `:=`, each declared unless its name is already bound in the
    current scope, and one error when a third target is present. */
module ShortVarDecls {
  import opened Syntax
  import opened Scopes
  import opened Idents

  /** The names of the valid tokens of `ts`. */
  ghost function ValidIds(ts: seq<Token>): set<int> {
    set i | 0 <= i < |ts| && ts[i].IsValid() :: ts[i].id
  }

  /** A valid token before index `i` has name id `id`. */
  ghost predicate ValidBefore(ts: seq<Token>, i: int, id: int)
    requires 0 <= i <= |ts|
  {
    exists j | 0 <= j < i :: ts[j].IsValid() && ts[j].id == id
  }

  /** `ts[i]` is the first valid occurrence of its name. */
  ghost predicate FirstValid(ts: seq<Token>, i: int)
    requires 0 <= i < |ts|
  {
    ts[i].IsValid() && !ValidBefore(ts, i, ts[i].id)
  }

  /** Target `i` is repeated: its name is bound before the clause or by an
      earlier target. */
  ghost predicate Repeated(s0: Scope, ts: seq<Token>, i: int)
    requires 0 <= i < |ts|
  {
    ts[i].IsValid() && (ts[i].id in s0 || ValidBefore(ts, i, ts[i].id))
  }

  /** The error for target `i`, positioned at the binding its name has in `s`. */
  ghost function RepeatDiag(s0: Scope, s: Scope, ts: seq<Token>, i: int): seq<Diag>
    requires 0 <= i < |ts|
  {
    if Repeated(s0, ts, i) && ts[i].id in s
    then [Diag(s[ts[i].id].Pos(), RepeatedOnLeft(ts[i].text))] else []
  }

  ghost function RepeatDiags(s0: Scope, s: Scope, ts: seq<Token>, n: int): seq<Diag>
    requires 0 <= n <= |ts|
  {
    if n == 0 then [] else RepeatDiags(s0, s, ts, n - 1) + RepeatDiag(s0, s, ts, n - 1)
  }

  /** One target: report a name already bound in the current scope at its
      binding, declare any other valid name. */
  function BindTarget(lx: Lexer, t: Token): Lexer {
    if !t.IsValid() then lx
    else if t.id in lx.scope then Report(lx, lx.scope[t.id].Pos(), RepeatedOnLeft(t.text))
    else lx.(scope := Declare(lx.scope, VarDecl(t, lx.lookahead)))
  }

  /** The targets, in order. */
  function BindTargets(lx: Lexer, ts: seq<Token>): Lexer
    decreases |ts|
  {
    if ts == [] then lx else BindTarget(BindTargets(lx, ts[..|ts| - 1]), ts[|ts| - 1])
  }

  /** Binding targets changes only the current scope and the errors, adds
      exactly the valid names and replaces no existing binding. */
  lemma {:induction false} BindTargetsScope(lx: Lexer, ts: seq<Token>)
    ensures var r := BindTargets(lx, ts);
            && r == lx.(scope := r.scope, errors := r.errors)
            && r.scope.Keys == lx.scope.Keys + ValidIds(ts)
            && forall k | k in lx.scope :: r.scope[k] == lx.scope[k]
    decreases |ts|
  {
    if ts != [] {
      BindTargetsScope(lx, ts[..|ts| - 1]);
      ValidIdsSnoc(ts, |ts| - 1);
    }
  }

  /** A name new to the scope is declared by its first valid target. */
  lemma {:induction false} BindTargetsFirst(lx: Lexer, ts: seq<Token>, i: int)
    requires 0 <= i < |ts| && FirstValid(ts, i) && ts[i].id !in lx.scope
    ensures ts[i].id in BindTargets(lx, ts).scope
    ensures BindTargets(lx, ts).scope[ts[i].id] == VarDecl(ts[i], lx.lookahead)
    decreases |ts|
  {
    var init := ts[..|ts| - 1];
    BindTargetsScope(lx, init);
    ValidIdsSnoc(ts, |init|);
    if i < |init| {
      PrefixPredicates(ts, init, |init|);
      BindTargetsFirst(lx, init, i);
    }
  }

  /** Each repeated target reports one error, positioned at the binding its
      name has after the clause; nothing else is reported. */
  lemma {:induction false} BindTargetsErrors(lx: Lexer, ts: seq<Token>)
    ensures var r := BindTargets(lx, ts);
            r.errors == lx.errors + RepeatDiags(lx.scope, r.scope, ts, |ts|)
    decreases |ts|
  {
    if ts != [] {
      var init := ts[..|ts| - 1];
      var t := ts[|ts| - 1];
      var p := BindTargets(lx, init);
      var r := BindTargets(lx, ts);
      BindTargetsErrors(lx, init);
      BindTargetsScope(lx, init);
      assert RepeatDiags(lx.scope, p.scope, init, |init|) == RepeatDiags(lx.scope, r.scope, ts, |init|) by {
        BindTargetsScope(lx, ts);
        ValidIdsSnoc(ts, |init|);
        PrefixPredicates(ts, init, |init|);
        RepeatedAreBound(lx.scope, init);
        RepeatDiagsStable(lx.scope, p.scope, r.scope, init, ts, |init|);
      }
      assert r.errors == p.errors + RepeatDiag(lx.scope, r.scope, ts, |init|) by {
        ValidIdsSnoc(ts, |init|);
        assert Repeated(lx.scope, ts, |init|) <==> t.IsValid() && t.id in p.scope;
      }
    }
  }

  /** A repeated target's name is bound before the clause or among the valid
      targets. */
  lemma RepeatedAreBound(s0: Scope, ts: seq<Token>)
    ensures forall i | 0 <= i < |ts| && Repeated(s0, ts, i) :: ts[i].id in s0.Keys + ValidIds(ts)
  {
    forall i | 0 <= i < |ts| && Repeated(s0, ts, i) ensures ts[i].id in s0.Keys + ValidIds(ts) {
      if ts[i].id !in s0 {
        var j :| 0 <= j < i && ts[j].IsValid() && ts[j].id == ts[i].id;
      }
    }
  }

  /** The valid names of a sequence are those of its first `n` targets plus
      the last one's. */
  lemma ValidIdsSnoc(ts: seq<Token>, n: int)
    requires n == |ts| - 1 >= 0
    ensures ValidIds(ts) == ValidIds(ts[..n]) + (if ts[n].IsValid() then {ts[n].id} else {})
    ensures forall id :: ValidBefore(ts, n, id) <==> id in ValidIds(ts[..n])
  {
    var init := ts[..n];
    forall id | id in ValidIds(ts)
      ensures id in ValidIds(init) || (ts[n].IsValid() && id == ts[n].id)
    {
      var j :| 0 <= j < |ts| && ts[j].IsValid() && ts[j].id == id;
      if j < n {
        assert init[j] == ts[j];
      }
    }
    forall id | id in ValidIds(init) ensures id in ValidIds(ts) && ValidBefore(ts, n, id) {
      var j :| 0 <= j < n && init[j].IsValid() && init[j].id == id;
      assert init[j] == ts[j];
    }
    forall id | ValidBefore(ts, n, id) ensures id in ValidIds(init) {
      var j :| 0 <= j < n && ts[j].IsValid() && ts[j].id == id;
      assert init[j] == ts[j];
    }
  }

  /** The per-target predicates only look at earlier targets, so they agree on
      two sequences with a common prefix. */
  lemma PrefixPredicates(ts1: seq<Token>, ts2: seq<Token>, m: int)
    requires 0 <= m <= |ts1| && m <= |ts2|
    requires forall j | 0 <= j < m :: ts1[j] == ts2[j]
    ensures forall i | 0 <= i < m :: FirstValid(ts1, i) == FirstValid(ts2, i)
    ensures forall s0: Scope, i | 0 <= i < m :: Repeated(s0, ts1, i) == Repeated(s0, ts2, i)
  {
    forall i, id | 0 <= i < m ensures ValidBefore(ts1, i, id) == ValidBefore(ts2, i, id) {
      assert forall j | 0 <= j < i :: ts1[j] == ts2[j];
    }
  }

  /** Repeat errors agree on two sequences with a common prefix, with
      positions read from any scope that extends the one holding every
      repeated name's binding. */
  lemma {:induction false} RepeatDiagsStable(s0: Scope, a: Scope, b: Scope,
                                             ts1: seq<Token>, ts2: seq<Token>, m: int)
    requires 0 <= m <= |ts1| && m <= |ts2|
    requires forall j | 0 <= j < m :: ts1[j] == ts2[j]
    requires forall k | k in a :: k in b && b[k] == a[k]
    requires forall i | 0 <= i < m && Repeated(s0, ts1, i) :: ts1[i].id in a
    ensures RepeatDiags(s0, a, ts1, m) == RepeatDiags(s0, b, ts2, m)
    decreases m
  {
    if m > 0 {
      RepeatDiagsStable(s0, a, b, ts1, ts2, m - 1);
      PrefixPredicates(ts1, ts2, m);
    }
  }

  /** How many targets the hooks look at: at most two. */
  function TargetCount(n: int): int {
    if n < 2 then n else 2
  }

  /** The identifiers of the first two range targets (zero tokens for
      targets that are not plain identifiers). */
  function RangeTargets(lhs: seq<Expression>): seq<Token> {
    seq(TargetCount(|lhs|), i requires 0 <= i < TargetCount(|lhs|) => ExpressionIdent(lhs[i]))
  }

  /** The identifiers of the first two case-clause targets. */
  function CaseTargets(args: seq<Argument>): seq<Token> {
    seq(TargetCount(|args|), i requires 0 <= i < TargetCount(|args|) => ArgumentIdent(args[i]))
  }

  /** `Range.shortVarDecl`, for `k, v := range x` only (any other form is an
      internal error in `ast2.go`). Only the first two targets are looked
      at: exactly their valid names are added to the current scope, no
      existing binding is replaced, a new name is declared by its first
      target; each repeated target reports one error at its name's binding;
      a third target reports one "too many variables" error after those. */
  function RangeShortVarDecl(n: Range, lx: Lexer): (r: Lexer)
    requires n.Case() == 1
    ensures r == lx.(scope := r.scope, errors := r.errors)
    ensures r.scope.Keys == lx.scope.Keys + ValidIds(RangeTargets(n.lhs))
    ensures forall k | k in lx.scope :: r.scope[k] == lx.scope[k]
    ensures var ts := RangeTargets(n.lhs);
            forall i | 0 <= i < |ts| && FirstValid(ts, i) && ts[i].id !in lx.scope ::
              ts[i].id in r.scope && r.scope[ts[i].id] == VarDecl(ts[i], lx.lookahead)
    ensures r.errors == lx.errors + RepeatDiags(lx.scope, r.scope, RangeTargets(n.lhs), |RangeTargets(n.lhs)|)
                        + (if |n.lhs| > 2 then [Diag(n.lhs[2].Pos(), TooManyRangeVars)] else [])
  {
    var ts := RangeTargets(n.lhs);
    var p := BindTargets(lx, ts);
    BindTargetsScope(lx, ts);
    BindTargetsErrors(lx, ts);
    assert forall i | 0 <= i < |ts| && FirstValid(ts, i) && ts[i].id !in lx.scope ::
             ts[i].id in p.scope && p.scope[ts[i].id] == VarDecl(ts[i], lx.lookahead) by {
      forall i | 0 <= i < |ts| && FirstValid(ts, i) && ts[i].id !in lx.scope
        ensures ts[i].id in p.scope && p.scope[ts[i].id] == VarDecl(ts[i], lx.lookahead)
      {
        BindTargetsFirst(lx, ts, i);
      }
    }
    if |n.lhs| > 2 then Report(p, n.lhs[2].Pos(), TooManyRangeVars) else p
  }

  /** `SwitchCase.shortVarDecl`, for `case x := y:` clauses only (any other
      form is an internal error in `ast2.go`); as `RangeShortVarDecl`, over
      the clause's arguments. */
  function SwitchCaseShortVarDecl(n: SwitchCase, lx: Lexer): (r: Lexer)
    requires n.Case() == 2
    ensures r == lx.(scope := r.scope, errors := r.errors)
    ensures r.scope.Keys == lx.scope.Keys + ValidIds(CaseTargets(n.args))
    ensures forall k | k in lx.scope :: r.scope[k] == lx.scope[k]
    ensures var ts := CaseTargets(n.args);
            forall i | 0 <= i < |ts| && FirstValid(ts, i) && ts[i].id !in lx.scope ::
              ts[i].id in r.scope && r.scope[ts[i].id] == VarDecl(ts[i], lx.lookahead)
    ensures r.errors == lx.errors + RepeatDiags(lx.scope, r.scope, CaseTargets(n.args), |CaseTargets(n.args)|)
                        + (if |n.args| > 2 then [Diag(n.args[2].Pos(), TooManyCaseVars)] else [])
  {
    var ts := CaseTargets(n.args);
    var p := BindTargets(lx, ts);
    BindTargetsScope(lx, ts);
    BindTargetsErrors(lx, ts);
    assert forall i | 0 <= i < |ts| && FirstValid(ts, i) && ts[i].id !in lx.scope ::
             ts[i].id in p.scope && p.scope[ts[i].id] == VarDecl(ts[i], lx.lookahead) by {
      forall i | 0 <= i < |ts| && FirstValid(ts, i) && ts[i].id !in lx.scope
        ensures ts[i].id in p.scope && p.scope[ts[i].id] == VarDecl(ts[i], lx.lookahead)
      {
        BindTargetsFirst(lx, ts, i);
      }
    }
    if |n.args| > 2 then Report(p, n.args[2].Pos(), TooManyCaseVars) else p
  }

  /** Repeat errors are all "repeated on left side" errors. */
  lemma {:induction false} RepeatDiagsKind(s0: Scope, s: Scope, ts: seq<Token>, n: int)
    requires 0 <= n <= |ts|
    ensures forall d | d in RepeatDiags(s0, s, ts, n) :: d.kind.RepeatedOnLeft?
    decreases n
  {
    if n > 0 {
      RepeatDiagsKind(s0, s, ts, n - 1);
    }
  }

  function CountTooManyRange(ds: seq<Diag>): nat {
    if ds == [] then 0
    else CountTooManyRange(ds[..|ds| - 1]) + (if ds[|ds| - 1].kind == TooManyRangeVars then 1 else 0)
  }

  lemma {:induction false} CountTooManyRangeNone(ds: seq<Diag>)
    requires forall d | d in ds :: d.kind.RepeatedOnLeft?
    ensures CountTooManyRange(ds) == 0
    decreases |ds|
  {
    if ds != [] {
      CountTooManyRangeNone(ds[..|ds| - 1]);
    }
  }

  /** A range clause reports exactly one "too many variables" error when it
      has more than two targets, and none otherwise. */
  lemma RangeTooManyOnce(n: Range, lx: Lexer)
    requires n.Case() == 1
    ensures var r := RangeShortVarDecl(n, lx);
            CountTooManyRange(r.errors[|lx.errors|..]) == if |n.lhs| > 2 then 1 else 0
  {
    var r := RangeShortVarDecl(n, lx);
    var ts := RangeTargets(n.lhs);
    var rep := RepeatDiags(lx.scope, r.scope, ts, |ts|);
    RepeatDiagsKind(lx.scope, r.scope, ts, |ts|);
    CountTooManyRangeNone(rep);
    var extra := if |n.lhs| > 2 then [Diag(n.lhs[2].Pos(), TooManyRangeVars)] else [];
    assert r.errors[|lx.errors|..] == rep + extra;
    if |n.lhs| > 2 {
      assert (rep + extra)[..|rep + extra| - 1] == rep;
    } else {
      assert rep + extra == rep;
    }
  }

  /** `for a, a := range x`: the first `a` is declared, the second reports
      the repetition at the first one's declaration. */
  lemma RepeatedRangeTarget(a: Token, x: Expression, lx: Lexer)
    requires a.IsValid() && a.id !in lx.scope
    ensures var r := RangeShortVarDecl(RangeDefine([NameExpression(a), NameExpression(a)], x), lx);
            && r.scope == lx.scope[a.id := VarDecl(a, lx.lookahead)]
            && r.errors == lx.errors + [Diag(a.pos, RepeatedOnLeft(a.text))]
  {
    var lhs := [NameExpression(a), NameExpression(a)];
    assert RangeTargets(lhs) == [a, a];
    var p := BindTarget(lx, a);
    assert p.scope == lx.scope[a.id := VarDecl(a, lx.lookahead)];
    assert BindTargets(lx, [a]) == p by {
      assert [a][..0] == [];
    }
    assert [a, a][..1] == [a];
  }

  /** `for a, b, c := range x`: `a` and `b` are declared, `c` is not, and the
      one error is "too many variables" at `c`. */
  lemma ThirdRangeTarget(a: Token, b: Token, c: Token, x: Expression, lx: Lexer)
    requires a.IsValid() && b.IsValid() && a.id != b.id
    requires a.id !in lx.scope && b.id !in lx.scope
    ensures var r := RangeShortVarDecl(
                       RangeDefine([NameExpression(a), NameExpression(b), NameExpression(c)], x), lx);
            && r.scope == lx.scope[a.id := VarDecl(a, lx.lookahead)][b.id := VarDecl(b, lx.lookahead)]
            && r.errors == lx.errors + [Diag(c.pos, TooManyRangeVars)]
  {
    var lhs := [NameExpression(a), NameExpression(b), NameExpression(c)];
    assert RangeTargets(lhs) == [a, b];
    var p := BindTarget(lx, a);
    assert BindTargets(lx, [a]) == p by {
      assert [a][..0] == [];
    }
    assert [a, b][..1] == [a];
    assert lhs[2].Pos() == c.pos;
  }
}
