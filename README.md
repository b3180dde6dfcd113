# Module lowering, modelled in Dafny

This project models how the Go-like language's front end lowers a module.
It turns the parser's rule-tagged parse tree into a `SourceModule`, which holds
the package name, the imports in source order and a table of functions keyed
by name (`packages/ast/src/module.rs`).

- `parse_tree.dfy` (module `ParseTree`): a parse node is a `Rule` tag, the
  text it matched and its ordered children. `Find` is the "first inner node
  with this rule" search the lowering uses.
- `ast.dfy` (module `Ast`): the error type `AstError`, the rule check
  `ExpectRule` and `SourceFunction`. The function lowering is a
  parameter of type `FunctionLowering`, a total function from a node to a
  function or an error. Its result is taken as given.
- `module.dfy` (module `SourceModules`):
  - `Lower` is the specification. `Classify` is the dispatch on one child.
    `Scan` folds it left to right and stops at the first error.
  - `Primary`, `TryFromPair` and `TryFromPairs` are the imperative lowering.
    They keep a mutable package option, import list and function map, as the
    source does, and return early on an error. They are proved equal to the
    specification.
  - The lemmas state what lowering means: when it succeeds, which error wins,
    the last package wins, imports stay in order, the last function with a
    name wins, end-of-input children are ignored, and a well-formed module
    lowers to exactly its declarations.
- `wrappers.dfy` (module `Wrappers`): `Option` and `Result`.

Two points of the code's behaviour that the model keeps:
- A later `package` declaration overwrites an earlier one, so the last one
  wins.
- Missing nested nodes, a missing package, empty input and trailing input
  are all `InvalidState` with a fixed message. The messages are kept
  verbatim, including "Found an import without a package" for an import that
  has no string.

## Model

| member | source | states |
|---|---|---|
| `ParseTree.Find` | packages/ast/src/module.rs:61-63 | finds nothing exactly when no inner node has the rule; otherwise returns the first node that has it |
| `Ast.ExpectRule` | packages/ast/src/module.rs:39 | the rule check passes exactly when the node has the expected tag; otherwise it is a mismatch error naming the expected and the actual rule |
| `SourceModules.SourceModule.Function` | packages/ast/src/module.rs:45-48 | the lookup returns a function exactly when the name is a key of the table, and then that entry |
| `SourceModules.PackageName` | packages/ast/src/module.rs:60-67 | a package declaration fails with "Found a package declaration without a name" exactly when it has no `name` child; otherwise it yields the text of the first `name` child |
| `SourceModules.ImportPath` | packages/ast/src/module.rs:69-80 | an import with no `string` child fails with "Found an import without a package"; one whose first `string` has no `string_inner` fails with "Found an import string without an inner"; otherwise it yields the text of that first `string_inner`; no other error |
| `SourceModules.Classify` | packages/ast/src/module.rs:58-88 | `EOI` contributes nothing; any rule other than package/import/func/EOI fails with `InvalidRule("module contents", rule)`; a `package` child gives `PackageName`'s name or its error; an `import` child gives `ImportPath`'s path or its error; a `func` child gives the lowered function, or the function lowering's error passed through unchanged |
| `SourceModules.Apply` | packages/ast/src/module.rs:59-88 | reference definition, whose meaning is its body: each match arm's state update (package overwritten, import appended, function inserted under its name, `EOI` ignored) |
| `SourceModules.Step` | packages/ast/src/module.rs:58-88 | reference definition, whose meaning is its body: one loop iteration; an earlier error stands, otherwise the child is dispatched and its item applied |
| `SourceModules.Scan` | packages/ast/src/module.rs:58-89 | reference definition, whose meaning is its body: the `for` loop over the children in order, with its early return on the first error |
| `SourceModules.Lower` | packages/ast/src/module.rs:51-98 | reference definition, whose meaning is its body: the rule check, the pass, then the required package; its properties are the `Lower*` and `Scan*` lemmas |
| `SourceModules.Primary` | packages/ast/src/module.rs:51-98 | the loop over the children, with early returns, computes exactly the specification `Lower` |
| `SourceModules.TryFromPair` | packages/ast/src/module.rs:35-42 | equals `Lower`; a node not tagged `module` is rejected with the rule mismatch, whatever its children |
| `SourceModules.TryFromPairs` | packages/ast/src/module.rs:17-33 | an empty sequence fails with "Expected to get a module, but found nothing to parse"; more than one node fails with "Expected to consume all of the parse", even when the first node would fail on its own; exactly one node gives that node's lowering |
| `SourceModules.ScanErrorStands` | packages/ast/src/module.rs:58-89 | once the pass has failed, appending any children leaves the result unchanged, so later children are never looked at |
| `SourceModules.ScanOkIff` | packages/ast/src/module.rs:58-89 | the pass succeeds exactly when every child dispatches without error |
| `SourceModules.ScanStopsAt` | packages/ast/src/module.rs:58-89 | a child that fails after a successful prefix gives the pass's error |
| `SourceModules.ScanFirstError` | packages/ast/src/module.rs:58-89 | the first failing child, in order, decides the error |
| `SourceModules.ScanPackageSet` | packages/ast/src/module.rs:55-67 | after a successful pass the package is set exactly when some child is a `package` declaration |
| `SourceModules.ScanPackageLast` | packages/ast/src/module.rs:60-67 | the package is the name of the last `package` declaration (last write wins) |
| `SourceModules.ScanImports` | packages/ast/src/module.rs:69-80 | the imports are the import paths in source order with duplicates kept, one per `import` child |
| `SourceModules.ScanFunctionsStep` | packages/ast/src/module.rs:82-85 | a `func` child inserts its lowered function under its own name; all other children leave the table alone |
| `SourceModules.ScanFunctionKeys` | packages/ast/src/module.rs:82-85 | the table's keys are exactly the names of the lowered `func` children, and each entry is filed under its own name |
| `SourceModules.ScanFunctionLast` | packages/ast/src/module.rs:82-85 | when a name is declared more than once, the table holds the function declared last |
| `SourceModules.ScanSkipsEOI` | packages/ast/src/module.rs:86 | an `EOI` child inserted anywhere leaves the pass's result unchanged |
| `SourceModules.LowerSucceedsIff` | packages/ast/src/module.rs:51-98 | lowering succeeds exactly when the node is a `module`, every child dispatches without error and at least one child is a `package` declaration |
| `SourceModules.LowerFirstError` | packages/ast/src/module.rs:58-88 | for a `module` node, the first failing child decides the error |
| `SourceModules.LowerMissingPackage` | packages/ast/src/module.rs:90-91 | a module whose children all dispatch but that has no package fails with "Module must have package set" |
| `SourceModules.LowerPackage` | packages/ast/src/module.rs:60-67 | a lowered module's package is the name from the last `package` declaration |
| `SourceModules.LowerImports` | packages/ast/src/module.rs:69-80 | a lowered module's imports are the import paths in order; there are as many as there are `import` children |
| `SourceModules.LowerFunctionLookup` | packages/ast/src/module.rs:45-48 | looking up a name in a lowered module finds a function exactly when some `func` child declares that name, and then it finds the one declared last |
| `SourceModules.LowerSkipsEOI` | packages/ast/src/module.rs:86 | inserting an `EOI` child anywhere into a module node does not change its lowering |
| `ParseTree.FindFirst` | packages/ast/src/module.rs:61-63 | when position `k` holds the first node with the rule, the search returns exactly that node |
| `SourceModules.ClassifyPackage` | packages/ast/src/module.rs:60-67 | any `package` child contributes the text of its first `name` child |
| `SourceModules.ClassifyImport` | packages/ast/src/module.rs:69-80 | any `import` child contributes the text of the first `string_inner` of its first `string` |
| `SourceModules.ScanDecls` | packages/ast/src/module.rs:58-85 | a package declaration followed by import declarations scans to that package and those paths in order |
| `SourceModules.LowerModuleDecl` | packages/ast/src/module.rs:51-98 | a module made of a package declaration, imports and end of input lowers to exactly that package and those imports, in order, with no functions |

## Left out

- The parser and the grammar (`gor_parse::Rule`, pest's `Pair`/`Pairs`, spans, `into_inner`): a parse node is a plain tree value, and `Rule` is a closed enumeration of the rules used here plus a few others.
- Function lowering (`crate::func`, `SourceFunction::try_from`) is not part of this model. It is the `lowerFunc` parameter, known only to return a named function or an error.
- The rule check `expect_rule` and the `AstError` type are defined in the crate root, which is not part of this model. The check is modelled as "tag equals expected, otherwise error", with the error as `RuleMismatch(expected, actual)`.
- Name interning (`crate::name`) is not part of this model. Names are strings compared by content.
- Lifetimes, `Box` and `Debug` derives have no behaviour to model. The model's `HashMap` is a Dafny `map`, so iteration order is not modelled; the source never depends on it.
- The top-level entry takes a sequence of nodes rather than a lazy iterator. Reading one node and then testing for another is modelled by a cursor into that sequence.
- `src/eval/test.rs` is a test harness for the expression evaluator. It needs an async runtime, a shared global context and the parser. The evaluator it exercises is not part of this model.
