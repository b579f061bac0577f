/** `PackageClause.post`: the first file to name a package fixes its name;
    every later file must use the same name. */
module PackageClauses {
  import opened Syntax
  import opened Scopes

  /** The conflict reported when file `file` names the package `found` after
      `p` was named by `p.namedBy`. */
  function ConflictDiag(p: Package, found: Token, file: string): Diag {
    Diag(found.pos, PackageConflict(p.importPath, p.name, p.namedBy, found.text, file, p.directory))
  }

  /** `PackageClause.post`. An unnamed package takes the clause's name and the
      current file as its naming file; a named package is never renamed, and
      a clause with a different name id reports exactly one conflict, naming
      both files; nothing else changes. */
  function PackageClausePost(n: PackageClause, lx: Lexer): (r: Lexer)
    ensures r == lx.(pkg := r.pkg, errors := r.errors)
    ensures lx.pkg.name != "" ==> r.pkg == lx.pkg
    ensures lx.pkg.name == "" ==>
              && r.pkg == lx.pkg.(name := n.name.text, nameId := n.name.id, namedBy := lx.fileName)
              && r.errors == lx.errors
    ensures lx.pkg.name != "" && lx.pkg.nameId == n.name.id ==> r.errors == lx.errors
    ensures lx.pkg.name != "" && lx.pkg.nameId != n.name.id ==>
              r.errors == lx.errors + [ConflictDiag(lx.pkg, n.name, lx.fileName)]
  {
    var p := lx.pkg;
    var t := n.name;
    if p.name != "" then
      if p.nameId != t.id then Report(lx, t.pos, PackageConflict(p.importPath, p.name, p.namedBy, t.text, lx.fileName, p.directory))
      else lx
    else
      lx.(pkg := p.(name := t.text, nameId := t.id, namedBy := lx.fileName))
  }

  /** One source file of a package: its name and its package clause. */
  datatype SourceFile = SourceFile(fileName: string, clause: PackageClause)

  /** The binder state at the package clause of file `name`. */
  function FileLexer(p: Package, name: string): Lexer {
    Lexer(map[], map[], p, name, NoPos, [], [], [], [])
  }

  /** The package clauses of `fs`, processed in order against one shared
      package record: the final record and every file's errors. */
  function NameByFiles(p: Package, fs: seq<SourceFile>): (Package, seq<Diag>)
    decreases |fs|
  {
    if fs == [] then (p, [])
    else
      var (q, errs) := NameByFiles(p, fs[..|fs| - 1]);
      var f := fs[|fs| - 1];
      var r := PackageClausePost(f.clause, FileLexer(q, f.fileName));
      (r.pkg, errs + r.errors)
  }

  /** Reference definition: one conflict for every file after the first whose
      package name id differs from the first file's. */
  function Conflicts(p: Package, fs: seq<SourceFile>): seq<Diag>
    requires fs != []
    decreases |fs|
  {
    if |fs| == 1 then []
    else
      var f := fs[|fs| - 1];
      var first := fs[0];
      var named := p.(name := first.clause.name.text, nameId := first.clause.name.id,
                      namedBy := first.fileName);
      Conflicts(p, fs[..|fs| - 1])
      + (if f.clause.name.id != first.clause.name.id
         then [ConflictDiag(named, f.clause.name, f.fileName)] else [])
  }

  /** Package name consistency: starting from an unnamed package, the first
      file names it for good, and exactly the later files that disagree with
      the first file's name report a conflict, each naming both files. */
  lemma {:induction false} PackageNamedByFirstFile(p: Package, fs: seq<SourceFile>)
    requires p.name == ""
    requires fs != []
    requires forall i | 0 <= i < |fs| :: fs[i].clause.name.text != ""
    ensures NameByFiles(p, fs).0 ==
              p.(name := fs[0].clause.name.text, nameId := fs[0].clause.name.id,
                 namedBy := fs[0].fileName)
    ensures NameByFiles(p, fs).1 == Conflicts(p, fs)
    decreases |fs|
  {
    if |fs| > 1 {
      var init := fs[..|fs| - 1];
      PackageNamedByFirstFile(p, init);
      assert init[0] == fs[0];
    } else {
      assert NameByFiles(p, fs[..0]) == (p, []);
    }
  }

  /** Files `a.go` (`package foo`), `b.go` (`package foo`), `c.go`
      (`package bar`): the package is named `foo` by `a.go`, and the only
      error is the conflict at `c.go`'s clause, naming `a.go`. */
  lemma OneDisagreeingFile(p: Package, foo: Token, foo2: Token, bar: Token)
    requires p.name == "" && foo.text != "" && foo2.text != "" && bar.text != ""
    requires foo2.id == foo.id && bar.id != foo.id
    ensures var fs := [SourceFile("a.go", PackageClause(foo)),
                       SourceFile("b.go", PackageClause(foo2)),
                       SourceFile("c.go", PackageClause(bar))];
            var named := p.(name := foo.text, nameId := foo.id, namedBy := "a.go");
            NameByFiles(p, fs) == (named, [ConflictDiag(named, bar, "c.go")])
  {
    var fs := [SourceFile("a.go", PackageClause(foo)),
               SourceFile("b.go", PackageClause(foo2)),
               SourceFile("c.go", PackageClause(bar))];
    PackageNamedByFirstFile(p, fs);
    var named := p.(name := foo.text, nameId := foo.id, namedBy := "a.go");
    assert fs[..2][..1] == fs[..1] && |fs[..1]| == 1;
    assert Conflicts(p, fs[..1]) == [];
    assert fs[..2][1] == fs[1] && fs[..2][0] == fs[0];
    assert Conflicts(p, fs[..2]) == [];
    assert Conflicts(p, fs) == [ConflictDiag(named, bar, "c.go")];
  }
}
