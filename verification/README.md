# Declaration binding hooks of the gc front end

This project models the declaration-binding hooks of `ast2.go` in Dafny. These are
the semantic actions the Go parser runs right after it reduces certain productions:

- picking a plain identifier out of an expression, an argument or an identifier list;
- declaring the names of `const` and `var` specs;
- validating import paths and queueing the imports;
- binding the imports of a file once their packages are loaded;
- checking that every file of a package uses the same package name;
- sorting out a parameter list as named or unnamed, then declaring its names;
- declaring the left-hand targets of `k, v := range x` and `case v := x:`.

Every hook is a function (or, for `Parameters.post`, a method) from a `Lexer` record to a
new `Lexer` record. That record holds the current scope, the file scope, the package
record, the pending imports, the two side lists of dot and blank imports, and the errors.
A scope is a map from an interned name id to a declaration. An error is a position
together with a kind.

Modules:

- `Syntax`: tokens and node shapes. Each node keeps the case numbering of `ast2.go` through `Case()`.
- `Scopes`: declarations, scopes, errors, the `Lexer` record, and `Declare` / `DeclareAll`.
- `Idents`, `ValueSpecs`, `Imports`, `PackageClauses`, `Parameters` and `ShortVarDecls`: one module per group of hooks.

Some operations also have a reference definition, stated independently of the loop
that computes them:

- `ValidImportPath`
- `PatchedList`
- `ScanDiags` and `DeclDiags`, joined by `ParamDiags`
- `RepeatDiags`
- `Conflicts`

The contracts and lemmas tie each operation to its reference definition.

Collaborators outside `ast2.go` become parameters of the model:

- `graphic`: whether a rune belongs to the Unicode categories L, M, N, P or S.
- `isRelative`: whether an import path is relative (`./x`, `../x`).
- `join`: how a relative import path is resolved against the importing package's path.
- `load`: the package that an import path loads.

The interned ids of `.`, `_` and `C` are the constants `IdDot`, `IdUnderscore` and `IdC`.

Points where `ast2.go` behaves other than one might expect, which the model follows:

- A parameter list `(a int, string)` reports nothing. The trailing `string` is taken as
  a parameter name and declared, because only entries with no name get the "mixed" error
  (`Parameters.TrailingTypeNameIsDeclared`). Go compilers reject this list as mixing
  named and unnamed parameters.
- The dot-import loop of `Prologue.post` re-declares the loaded package's bindings into
  that package's own scope (`p.Scope`), not into the importing file's scope.
- `Prologue.post` picks between the dot, blank and declare branches using the name the
  import spec asked for, before a nameless import takes its package's name
  (`Imports.NamelessImportAlwaysBinds`).

## Model

| member | source | states |
|---|---|---|
| Idents.ExpressionIdent | ast2.go:42-63 | only the path Expression 0 / UnaryExpression 7 / PrimaryExpression 0 / Operand 4 with no generic arguments gives a token; every other shape gives the zero token; a valid result determines the whole expression |
| Idents.ArgumentIdent | ast2.go:23-29 | an argument that is not case 0 gives the zero token; a case-0 argument gives its expression's identifier: the bare identifier's own token, and the zero token for any other expression; a valid result means the argument is exactly a bare identifier expression |
| Idents.IdentifierListRoundTrip | ast2.go:67-75 | reading the identifiers back out of a list of `a, b, c` gives the identifiers in order and never the comma token |
| ValueSpecs.ConstSpecDecl | ast2.go:33-38 | afterwards every identifier of the spec is bound in the current scope; no existing binding is replaced; a new name holds the constant declaration of its first occurrence, scoped from the lookahead position; nothing else in the state changes |
| ValueSpecs.VarSpecDecl | ast2.go:319-323 | the same as for constants, with variable declarations |
| Scopes.DeclareAllKeys | ast2.go:34-37 | declaring a sequence of declarations in order, as the identifier loops do, binds exactly the old keys plus the sequence's keys and keeps every old binding |
| Scopes.DeclareAllFirst | ast2.go:34-37 | a key new to the scope ends up bound to its first declaration in the sequence |
| Scopes.DeclareAllFrom | ast2.go:34-37 | every binding new to the scope is one of the sequence's declarations |
| Imports.CheckImportPath | ast2.go:106-126 | the path is accepted exactly when it satisfies `ValidImportPath`; empty, absolute, forbidden character and first bad rune each give their own error, and the forbidden-character test takes precedence over the per-rune test |
| Imports.RuneCheckFirstBad | ast2.go:116-126 | with no forbidden character anywhere in the path, the rune loop reports the kind of the first rune that is U+FFFD or not graphic |
| Imports.RuneCheckAccepts | ast2.go:116-126 | with no forbidden character in the path, the rune loop accepts exactly when every rune is graphic and not U+FFFD |
| Imports.ImportSpecPost | ast2.go:79-141 | a non-string literal gives exactly one error and no import; a string with no value changes nothing; a rejected path gives exactly one error, at the literal, of `CheckImportPath`'s kind; an accepted path appends one import with the requested name and its position (falling back to the literal's), and reports nothing; the recorded path is the path as written when it is not relative, and that path joined onto the importing package's path when it is |
| Imports.ImportSpecPostAddsOne | ast2.go:79-141 | each import spec adds exactly one entry to either the errors or the imports, except a string literal with no value, which adds none |
| Imports.ResolveImport | ast2.go:237-257 | resolution attaches the loaded package; an explicit name is kept; a nameless import takes `IdC` for path "C" and otherwise the package's name id |
| Imports.ProloguePost | ast2.go:236-261 | every import is resolved in place; imports asking for "." are appended to the dot list and those asking for "_" to the blank list, in order; all other imports are declared in the file scope, which gains exactly their names, keeps every old binding, and binds each new name to the first of those imports that carries it; no error is reported and nothing else changes |
| Imports.NamelessImportAlwaysBinds | ast2.go:240-259 | a nameless import whose package's name id is that of "_" takes that name, yet is declared in the file scope and not added to the blank list |
| PackageClauses.PackageClausePost | ast2.go:145-166 | an unnamed package takes the clause's name and the current file as its naming file, with no error; a named package is never renamed; the same name id gives no error; a different name id gives exactly one conflict, which names both files and the directory |
| PackageClauses.PackageNamedByFirstFile | ast2.go:145-166 | over the files of one package, the first file names the package for good, and the errors are exactly `Conflicts`: one for each later file whose name differs from the first file's |
| PackageClauses.OneDisagreeingFile | ast2.go:145-166 | with files foo, foo, bar, the package is named foo by the first file, and the only error is at the third file's clause |
| Parameters.PatchBack | ast2.go:192-200 | the backward loop sets `isParamName` on exactly the maximal run of bare-type entries right before the named entry and leaves the rest unchanged |
| Parameters.ScanParameters | ast2.go:171-211 | the first pass produces `PatchedList` (each entry's provisional name, and back-patched exactly when a named entry follows after only bare-type entries), the "..." and mixed errors of `ScanDiags`, and whether any entry is named |
| Parameters.DeclareParameters | ast2.go:216-231 | the second pass establishes `DeclaresNames`: it adds exactly the valid names; no existing binding is replaced; each new name holds the variable declaration of its first entry; the errors are `DeclDiags`: a duplicate for a name bound before the pass or by an earlier entry, and mixed for a back-patched entry with no name |
| Parameters.ParametersPost | ast2.go:170-232 | with no named entry the scope is unchanged and only first-pass errors are reported; otherwise the new current scope satisfies `DeclaresNames`: exactly the valid names are added, no existing binding is replaced and each new name holds its first entry's declaration; the errors are `ParamDiags`: the first pass's, followed, when some entry is named, by the second pass's |
| Parameters.AllTypesDeclareNothing | ast2.go:201-214 | a list of bare types such as `(int, string)` has no named entry, nothing back-patched and no error |
| Parameters.SharedTypeDeclaresBoth | ast2.go:192-226 | `(a, b int)` back-patches `a`, declares `a` and `b`, and reports nothing |
| Parameters.UnnamedBeforeNamedIsMixed | ast2.go:198-229 | `([]int, b int)` reports mixed named and unnamed parameters at the first entry |
| Parameters.TrailingTypeNameIsDeclared | ast2.go:195-226 | `(a int, string)` counts as named, back-patches nothing, declares `a` and `string` and reports nothing |
| Parameters.EllipsisMustBeLast | ast2.go:185-190 | `(a ...int, b int)` reports "..." not final exactly once, at the variadic entry |
| ShortVarDecls.RangeShortVarDecl | ast2.go:265-288 | only the first two targets are looked at; exactly their valid names are added to the current scope; no existing binding is replaced; a new name is declared by its first target; each repeated target gives one error at its name's binding; a third target gives one "too many variables" error, at that target, after those |
| ShortVarDecls.SwitchCaseShortVarDecl | ast2.go:292-315 | the same for the arguments of a `case` clause, with the case-clause "too many" error |
| ShortVarDecls.RangeTooManyOnce | ast2.go:270-287 | a range clause adds exactly one "too many variables" error when it has more than two targets, and none otherwise |
| ShortVarDecls.RepeatedRangeTarget | ast2.go:272-282 | `a, a := range x` declares the first `a` and reports the repeat at that declaration |
| ShortVarDecls.ThirdRangeTarget | ast2.go:270-287 | `a, b, c := range x` declares `a` and `b` but not `c`, and reports "too many variables" at `c` |

## Left out

- Package loading: `lx.oncePackage` and `once.Value()` load packages asynchronously. The model instead records a pending import with no package, and resolution takes the package from the `load` parameter.
- Relative import paths: `isRelativeImportPath` becomes the `isRelative` parameter; `filepath.Join`, `filepath.Dir` and the test package map become the `join` parameter, applied to the importing package's path and the import path.
- Unicode: the category tables behind `unicode.In` become the `graphic` parameter.
- UTF-8 decoding: a path is a sequence of decoded runes. An undecodable byte appears as U+FFFD, which the model rejects.
- The dot-import loop of `Prologue.post` is not modelled. It re-declares the loaded package's bindings into that package's own scope, in map order, which changes nothing when declaring is insert-if-absent.
- Declaring: the body of `scope.declare` is not part of this model. It is modelled as insert-if-absent, so its own redeclaration errors and its treatment of the blank identifier are left out. So are the bodies of `newConstDeclaration`, `newVarDeclaration` and `newImportDeclaration`.
- Error formatting: `lx.err` and `lx.close` become an appended position-and-kind record. The message text, `filepath.Base` of the file names, and any further effect of `close` are not modelled.
- Token interning is not modelled: names are integer ids. The interned ids of ".", "_" and "C" are fixed distinct constants.
- The `panic("internal error")` branches of `ImportSpec.post`, `Range.shortVarDecl` and `SwitchCase.shortVarDecl` are excluded: by the datatype for the literal kind, and by preconditions for the two clause hooks.
- Parser plumbing: the linked lists of the parser (`IdentifierList`, `ParameterDeclList`, `ExpressionList`, `ArgumentList`) are sequences in source order.
