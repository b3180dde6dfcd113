/**
 * Lowering a `module` parse node into a `SourceModule`: its package name,
 * its imports in order and its functions keyed by name.
 *
 * `Lower` is the specification: `Classify` says what one child of the module
 * node contributes, `Scan` folds that over the children from left to right,
 * stopping at the first error. `Primary`, `TryFromPair` and `TryFromPairs` are
 * the imperative lowering, proved equal to it; the lemmas say what it means.
 */
module SourceModules {
  import opened Wrappers
  import opened ParseTree
  import opened Ast

  const NothingToParse := "Expected to get a module, but found nothing to parse"
  const TrailingParse := "Expected to consume all of the parse"
  const PackageWithoutName := "Found a package declaration without a name"
  const ImportWithoutString := "Found an import without a package"
  const ImportWithoutInner := "Found an import string without an inner"
  const PackageNotSet := "Module must have package set"
  const ModuleContents := "module contents"

  datatype SourceModule = SourceModule(
    package: string,
    imports: seq<string>,
    functions: map<string, SourceFunction>)
  {
    /** The function declared under `name`, if there is one. */
    function Function(name: string): (r: Option<SourceFunction>)
      ensures r.Some? <==> name in functions
      ensures r.Some? ==> r.value == functions[name]
    {
      if name in functions then Some(functions[name]) else None
    }
  }

  // ---------------------------------------------------------------------------
  // What one child of a module node contributes

  datatype Item = PackageItem(package: string) | ImportItem(path: string) | FuncItem(func: SourceFunction) | Skip

  /** The package a `package` declaration names: the text of its first `name` child. */
  function PackageName(decl: Node): (r: AstResult<string>)
    ensures r.Err? <==> forall i :: 0 <= i < |decl.children| ==> decl.children[i].rule != Name
    ensures r.Err? ==> r.error == InvalidState(PackageWithoutName)
    ensures r.Ok? ==> exists k :: IsFirst(decl.children, Name, k) && r.value == decl.children[k].text
  {
    match Find(decl.children, Name)
    case None => Err(InvalidState(PackageWithoutName))
    case Some(name) => Ok(name.text)
  }

  /**
   * The path an `import` declaration names: the text of the first `string_inner`
   * child of its first `string` child.
   */
  function ImportPath(decl: Node): (r: AstResult<string>)
    ensures (forall i :: 0 <= i < |decl.children| ==> decl.children[i].rule != String) <==>
            r == Err(InvalidState(ImportWithoutString))
    ensures r.Err? ==> r.error in {InvalidState(ImportWithoutString), InvalidState(ImportWithoutInner)}
    ensures r == Err(InvalidState(ImportWithoutInner)) ==>
            exists k :: IsFirst(decl.children, String, k) &&
              forall l :: 0 <= l < |decl.children[k].children| ==> decl.children[k].children[l].rule != StringInner
    ensures r.Ok? ==>
            exists k :: IsFirst(decl.children, String, k) &&
              exists l :: IsFirst(decl.children[k].children, StringInner, l) &&
                r.value == decl.children[k].children[l].text
  {
    match Find(decl.children, String)
    case None => Err(InvalidState(ImportWithoutString))
    case Some(str) =>
      match Find(str.children, StringInner)
      case None => Err(InvalidState(ImportWithoutInner))
      case Some(inner) => Ok(inner.text)
  }

  /** The dispatch on the rule of one child of a module node. */
  function Classify(child: Node, lowerFunc: FunctionLowering): (r: AstResult<Item>)
    ensures child.rule == EOI ==> r == Ok(Skip)
    ensures child.rule !in {Package, Import, Func, EOI} ==> r == Err(InvalidRule(ModuleContents, child.rule))
    ensures child.rule == Package ==>
            r == if PackageName(child).Ok? then Ok(PackageItem(PackageName(child).value)) else Err(PackageName(child).error)
    ensures child.rule == Import ==>
            r == if ImportPath(child).Ok? then Ok(ImportItem(ImportPath(child).value)) else Err(ImportPath(child).error)
    ensures child.rule == Func ==> (r.Ok? <==> lowerFunc(child).Ok?)
    ensures child.rule == Func && r.Ok? ==> r.value == FuncItem(lowerFunc(child).value)
    ensures child.rule == Func && r.Err? ==> r.error == lowerFunc(child).error
    ensures r.Ok? ==> (r.value.PackageItem? <==> child.rule == Package)
    ensures r.Ok? ==> (r.value.ImportItem? <==> child.rule == Import)
    ensures r.Ok? ==> (r.value.FuncItem? <==> child.rule == Func)
  {
    match child.rule
    case Package =>
      (match PackageName(child)
       case Err(e) => Err(e)
       case Ok(p) => Ok(PackageItem(p)))
    case Import =>
      (match ImportPath(child)
       case Err(e) => Err(e)
       case Ok(p) => Ok(ImportItem(p)))
    case Func =>
      (match lowerFunc(child)
       case Err(e) => Err(e)
       case Ok(func) => Ok(FuncItem(func)))
    case EOI => Ok(Skip)
    case _ => Err(InvalidRule(ModuleContents, child.rule))
  }

  // ---------------------------------------------------------------------------
  // The pass over the children

  /** The state the pass keeps: the package seen last, the imports and the function table. */
  datatype Scanned = Scanned(
    package: Option<string>,
    imports: seq<string>,
    functions: map<string, SourceFunction>)

  const Start := Scanned(None, [], map[])

  function Apply(st: Scanned, item: Item): Scanned {
    match item
    case PackageItem(p) => st.(package := Some(p))
    case ImportItem(p) => st.(imports := st.imports + [p])
    case FuncItem(func) => st.(functions := st.functions[func.name := func])
    case Skip => st
  }

  /** One step of the pass: an earlier error stands, otherwise `child` is dispatched. */
  function Step(acc: AstResult<Scanned>, child: Node, lowerFunc: FunctionLowering): AstResult<Scanned> {
    match acc
    case Err(e) => Err(e)
    case Ok(st) =>
      match Classify(child, lowerFunc)
      case Err(e) => Err(e)
      case Ok(item) => Ok(Apply(st, item))
  }

  /** The pass over `children` in order. */
  function Scan(children: seq<Node>, lowerFunc: FunctionLowering): AstResult<Scanned>
    decreases |children|
  {
    if children == [] then Ok(Start)
    else Step(Scan(children[..|children| - 1], lowerFunc), children[|children| - 1], lowerFunc)
  }

  /** Lowering a module node: the rule check, the pass, then the required package. */
  function Lower(node: Node, lowerFunc: FunctionLowering): AstResult<SourceModule> {
    match ExpectRule(node, Module)
    case Err(e) => Err(e)
    case Ok(_) =>
      match Scan(node.children, lowerFunc)
      case Err(e) => Err(e)
      case Ok(st) =>
        match st.package
        case None => Err(InvalidState(PackageNotSet))
        case Some(p) => Ok(SourceModule(p, st.imports, st.functions))
  }

  // ---------------------------------------------------------------------------
  // Independent descriptions of the pass's results

  /** The paths of the `import` children, in order. */
  function ImportsOf(children: seq<Node>): seq<string> {
    if children == [] then []
    else
      var c := children[0];
      (if c.rule == Import && ImportPath(c).Ok? then [ImportPath(c).value] else []) + ImportsOf(children[1..])
  }

  /** How many of `children` are tagged `r`. */
  function CountRule(children: seq<Node>, r: Rule): nat {
    if children == [] then 0
    else (if children[0].rule == r then 1 else 0) + CountRule(children[1..], r)
  }

  /** `child` is a `func` declaration that lowers to a function named `name`. */
  ghost predicate Declares(child: Node, lowerFunc: FunctionLowering, name: string) {
    child.rule == Func && lowerFunc(child).Ok? && lowerFunc(child).value.name == name
  }

  // ---------------------------------------------------------------------------
  // The imperative lowering

  /** The pass over the children of a module node, with early return on the first error. */
  method Primary(node: Node, lowerFunc: FunctionLowering) returns (r: AstResult<SourceModule>)
    ensures r == Lower(node, lowerFunc)
  {
    var expected := ExpectRule(node, Module);
    if expected.Err? {
      return Err(expected.error);
    }
    var inner := node.children;
    var package: Option<string> := None;
    var imports: seq<string> := [];
    var functions: map<string, SourceFunction> := map[];
    var i := 0;
    while i < |inner|
      invariant 0 <= i <= |inner|
      invariant Scan(inner[..i], lowerFunc) == Ok(Scanned(package, imports, functions))
    {
      var pair := inner[i];
      assert inner[..i + 1][..i] == inner[..i];
      match pair.rule {
        case Package =>
          var name := Find(pair.children, Name);
          if name.None? {
            ScanStopsAt(inner, i, lowerFunc);
            return Err(InvalidState(PackageWithoutName));
          }
          package := Some(name.value.text);
        case Import =>
          var str := Find(pair.children, String);
          if str.None? {
            ScanStopsAt(inner, i, lowerFunc);
            return Err(InvalidState(ImportWithoutString));
          }
          var name := Find(str.value.children, StringInner);
          if name.None? {
            ScanStopsAt(inner, i, lowerFunc);
            return Err(InvalidState(ImportWithoutInner));
          }
          imports := imports + [name.value.text];
        case Func =>
          var func := lowerFunc(pair);
          if func.Err? {
            ScanStopsAt(inner, i, lowerFunc);
            return Err(func.error);
          }
          functions := functions[func.value.name := func.value];
        case EOI =>
        case _ =>
          ScanStopsAt(inner, i, lowerFunc);
          return Err(InvalidRule(ModuleContents, pair.rule));
      }
      i := i + 1;
    }
    assert inner[..i] == inner;
    match package {
      case None => r := Err(InvalidState(PackageNotSet));
      case Some(p) => r := Ok(SourceModule(p, imports, functions));
    }
  }

  /** Lowering one parse node: it must be tagged `module`, whatever its children. */
  method TryFromPair(node: Node, lowerFunc: FunctionLowering) returns (r: AstResult<SourceModule>)
    ensures r == Lower(node, lowerFunc)
    ensures node.rule != Module ==> r == Err(RuleMismatch(Module, node.rule))
  {
    var expected := ExpectRule(node, Module);
    if expected.Err? {
      return Err(expected.error);
    }
    r := Primary(node, lowerFunc);
  }

  /**
   * Lowering a whole parse: exactly one node, then nothing. A trailing node is
   * reported even when lowering the first one failed.
   */
  method TryFromPairs(pairs: seq<Node>, lowerFunc: FunctionLowering) returns (r: AstResult<SourceModule>)
    ensures pairs == [] ==> r == Err(InvalidState(NothingToParse))
    ensures |pairs| > 1 ==> r == Err(InvalidState(TrailingParse))
    ensures |pairs| == 1 ==> r == Lower(pairs[0], lowerFunc)
  {
    var next := 0;
    if next == |pairs| {
      return Err(InvalidState(NothingToParse));
    }
    var pair := pairs[next];
    next := next + 1;
    var item := TryFromPair(pair, lowerFunc);
    if next < |pairs| {
      r := Err(InvalidState(TrailingParse));
    } else {
      r := item;
    }
  }

  // ---------------------------------------------------------------------------
  // Properties of the pass

  lemma ScanAppendOne(children: seq<Node>, c: Node, lowerFunc: FunctionLowering)
    ensures Scan(children + [c], lowerFunc) == Step(Scan(children, lowerFunc), c, lowerFunc)
  {
  }

  /** Once the pass has failed, no later child is looked at. */
  lemma {:induction false} ScanErrorStands(children: seq<Node>, rest: seq<Node>, lowerFunc: FunctionLowering)
    requires Scan(children, lowerFunc).Err?
    ensures Scan(children + rest, lowerFunc) == Scan(children, lowerFunc)
  {
    if rest == [] {
      assert children + rest == children;
    } else {
      var init := rest[..|rest| - 1];
      assert children + rest == (children + init) + [rest[|rest| - 1]];
      ScanErrorStands(children, init, lowerFunc);
      ScanAppendOne(children + init, rest[|rest| - 1], lowerFunc);
    }
  }

  /** The pass succeeds exactly when every child dispatches without error. */
  lemma {:induction false} ScanOkIff(children: seq<Node>, lowerFunc: FunctionLowering)
    ensures Scan(children, lowerFunc).Ok? <==>
            forall i :: 0 <= i < |children| ==> Classify(children[i], lowerFunc).Ok?
  {
    if children != [] {
      var init := children[..|children| - 1];
      ScanOkIff(init, lowerFunc);
      assert forall i :: 0 <= i < |init| ==> init[i] == children[i];
    }
  }

  /** A child that fails after a successful prefix decides the result. */
  lemma ScanStopsAt(children: seq<Node>, i: nat, lowerFunc: FunctionLowering)
    requires i < |children|
    requires Scan(children[..i], lowerFunc).Ok?
    requires Classify(children[i], lowerFunc).Err?
    ensures Scan(children, lowerFunc) == Err(Classify(children[i], lowerFunc).error)
  {
    ScanAppendOne(children[..i], children[i], lowerFunc);
    assert children[..i + 1] == children[..i] + [children[i]];
    assert children[..i + 1] + children[i + 1..] == children;
    ScanErrorStands(children[..i + 1], children[i + 1..], lowerFunc);
  }

  /** The first failing child, in order, decides the error. */
  lemma ScanFirstError(children: seq<Node>, i: nat, lowerFunc: FunctionLowering)
    requires i < |children|
    requires Classify(children[i], lowerFunc).Err?
    requires forall j :: 0 <= j < i ==> Classify(children[j], lowerFunc).Ok?
    ensures Scan(children, lowerFunc) == Err(Classify(children[i], lowerFunc).error)
  {
    ScanOkIff(children[..i], lowerFunc);
    ScanStopsAt(children, i, lowerFunc);
  }

  /** A successful pass has set the package exactly when some child is a `package` declaration. */
  lemma {:induction false} ScanPackageSet(children: seq<Node>, lowerFunc: FunctionLowering)
    requires Scan(children, lowerFunc).Ok?
    ensures Scan(children, lowerFunc).value.package.Some? <==>
            exists i :: 0 <= i < |children| && children[i].rule == Package
  {
    if children != [] {
      var init := children[..|children| - 1];
      ScanPackageSet(init, lowerFunc);
      assert forall i :: 0 <= i < |init| ==> init[i] == children[i];
    }
  }

  /** The package is the one named by the last `package` declaration. */
  lemma {:induction false} ScanPackageLast(children: seq<Node>, i: nat, lowerFunc: FunctionLowering)
    requires Scan(children, lowerFunc).Ok?
    requires i < |children| && children[i].rule == Package
    requires forall j :: i < j < |children| ==> children[j].rule != Package
    ensures PackageName(children[i]).Ok?
    ensures Scan(children, lowerFunc).value.package == Some(PackageName(children[i]).value)
  {
    var init := children[..|children| - 1];
    if i == |children| - 1 {
    } else {
      assert init[i] == children[i];
      ScanPackageLast(init, i, lowerFunc);
    }
  }

  lemma {:induction false} ImportsOfAppend(a: seq<Node>, b: seq<Node>)
    ensures ImportsOf(a + b) == ImportsOf(a) + ImportsOf(b)
  {
    if a != [] {
      assert (a + b)[1..] == a[1..] + b;
      ImportsOfAppend(a[1..], b);
    } else {
      assert a + b == b;
    }
  }

  lemma {:induction false} CountRuleAppend(a: seq<Node>, b: seq<Node>, r: Rule)
    ensures CountRule(a + b, r) == CountRule(a, r) + CountRule(b, r)
  {
    if a != [] {
      assert (a + b)[1..] == a[1..] + b;
      CountRuleAppend(a[1..], b, r);
    } else {
      assert a + b == b;
    }
  }

  /**
   * The imports of a successful pass are the import paths in source order,
   * duplicates kept: one per `import` child.
   */
  lemma {:induction false} ScanImports(children: seq<Node>, lowerFunc: FunctionLowering)
    requires Scan(children, lowerFunc).Ok?
    ensures Scan(children, lowerFunc).value.imports == ImportsOf(children)
    ensures |Scan(children, lowerFunc).value.imports| == CountRule(children, Import)
  {
    if children != [] {
      var init, c := children[..|children| - 1], children[|children| - 1];
      assert children == init + [c];
      ScanImports(init, lowerFunc);
      ImportsOfAppend(init, [c]);
      CountRuleAppend(init, [c], Import);
      assert [c][1..] == [];
    }
  }

  /** The pass's last step, seen from the function table. */
  lemma ScanFunctionsStep(children: seq<Node>, lowerFunc: FunctionLowering)
    requires children != [] && Scan(children, lowerFunc).Ok?
    ensures Scan(children[..|children| - 1], lowerFunc).Ok?
    ensures var c := children[|children| - 1];
            var before := Scan(children[..|children| - 1], lowerFunc).value.functions;
            Scan(children, lowerFunc).value.functions ==
            if c.rule == Func then before[lowerFunc(c).value.name := lowerFunc(c).value] else before
  {
    var init, c := children[..|children| - 1], children[|children| - 1];
    var item := Classify(c, lowerFunc).value;
    assert Scan(children, lowerFunc) == Ok(Apply(Scan(init, lowerFunc).value, item));
    if c.rule == Func {
      assert item == FuncItem(lowerFunc(c).value);
    } else {
      assert !item.FuncItem?;
    }
  }

  /**
   * The function table of a successful pass has a key for exactly the names
   * of the `func` children, and each entry is filed under its own name.
   */
  lemma {:induction false} ScanFunctionKeys(children: seq<Node>, lowerFunc: FunctionLowering)
    requires Scan(children, lowerFunc).Ok?
    ensures forall name :: name in Scan(children, lowerFunc).value.functions <==>
              exists i :: 0 <= i < |children| && Declares(children[i], lowerFunc, name)
    ensures forall name :: name in Scan(children, lowerFunc).value.functions ==>
              Scan(children, lowerFunc).value.functions[name].name == name
  {
    if children != [] {
      var init, c := children[..|children| - 1], children[|children| - 1];
      ScanFunctionsStep(children, lowerFunc);
      ScanFunctionKeys(init, lowerFunc);
      var before := Scan(init, lowerFunc).value.functions;
      var after := Scan(children, lowerFunc).value.functions;
      forall name
        ensures name in after <==> exists i :: 0 <= i < |children| && Declares(children[i], lowerFunc, name)
      {
        if name in before {
          var i :| 0 <= i < |init| && Declares(init[i], lowerFunc, name);
          assert init[i] == children[i];
          assert name in after;
        } else if name in after {
          assert Declares(children[|children| - 1], lowerFunc, name);
        } else {
          forall i | 0 <= i < |children| ensures !Declares(children[i], lowerFunc, name) {
            if i < |init| {
              assert init[i] == children[i];
            }
          }
        }
      }
    }
  }

  /** `i` is the last of `children` that declares `name`. */
  ghost predicate DeclaredLast(children: seq<Node>, i: int, lowerFunc: FunctionLowering, name: string) {
    0 <= i < |children| && Declares(children[i], lowerFunc, name) &&
    forall j :: i < j < |children| ==> !Declares(children[j], lowerFunc, name)
  }

  /** A name declared more than once is filed with the function declared last. */
  lemma {:induction false} ScanFunctionLast(children: seq<Node>, i: nat, name: string, lowerFunc: FunctionLowering)
    requires Scan(children, lowerFunc).Ok?
    requires DeclaredLast(children, i, lowerFunc, name)
    ensures name in Scan(children, lowerFunc).value.functions
    ensures Scan(children, lowerFunc).value.functions[name] == lowerFunc(children[i]).value
  {
    var init := children[..|children| - 1];
    ScanFunctionsStep(children, lowerFunc);
    if i < |children| - 1 {
      assert init[i] == children[i];
      ScanFunctionLast(init, i, name, lowerFunc);
    }
  }

  /** An end-of-input child, wherever it stands, changes nothing. */
  lemma {:induction false} ScanSkipsEOI(a: seq<Node>, eoi: Node, b: seq<Node>, lowerFunc: FunctionLowering)
    requires eoi.rule == EOI
    ensures Scan(a + [eoi] + b, lowerFunc) == Scan(a + b, lowerFunc)
  {
    if b == [] {
      assert a + [eoi] + b == a + [eoi];
      assert a + b == a;
      ScanAppendOne(a, eoi, lowerFunc);
    } else {
      var init, c := b[..|b| - 1], b[|b| - 1];
      assert a + [eoi] + b == (a + [eoi] + init) + [c];
      assert a + b == (a + init) + [c];
      ScanSkipsEOI(a, eoi, init, lowerFunc);
      ScanAppendOne(a + [eoi] + init, c, lowerFunc);
      ScanAppendOne(a + init, c, lowerFunc);
    }
  }

  // ---------------------------------------------------------------------------
  // Properties of lowering a module node

  /**
   * Lowering succeeds exactly when the node is a `module`, every child
   * dispatches without error and some child is a `package` declaration.
   */
  lemma LowerSucceedsIff(node: Node, lowerFunc: FunctionLowering)
    ensures Lower(node, lowerFunc).Ok? <==>
            node.rule == Module &&
            (forall i :: 0 <= i < |node.children| ==> Classify(node.children[i], lowerFunc).Ok?) &&
            (exists i :: 0 <= i < |node.children| && node.children[i].rule == Package)
  {
    ScanOkIff(node.children, lowerFunc);
    if Scan(node.children, lowerFunc).Ok? {
      ScanPackageSet(node.children, lowerFunc);
    }
  }

  /** The first failing child of a module node decides the error. */
  lemma LowerFirstError(node: Node, i: nat, lowerFunc: FunctionLowering)
    requires node.rule == Module && i < |node.children|
    requires Classify(node.children[i], lowerFunc).Err?
    requires forall j :: 0 <= j < i ==> Classify(node.children[j], lowerFunc).Ok?
    ensures Lower(node, lowerFunc) == Err(Classify(node.children[i], lowerFunc).error)
  {
    ScanFirstError(node.children, i, lowerFunc);
  }

  /** A module whose children all dispatch but that declares no package is rejected. */
  lemma LowerMissingPackage(node: Node, lowerFunc: FunctionLowering)
    requires node.rule == Module
    requires forall i :: 0 <= i < |node.children| ==> Classify(node.children[i], lowerFunc).Ok?
    requires forall i :: 0 <= i < |node.children| ==> node.children[i].rule != Package
    ensures Lower(node, lowerFunc) == Err(InvalidState(PackageNotSet))
  {
    ScanOkIff(node.children, lowerFunc);
    ScanPackageSet(node.children, lowerFunc);
  }

  /** The package of a lowered module is the one the last `package` declaration names. */
  lemma LowerPackage(node: Node, i: nat, lowerFunc: FunctionLowering)
    requires Lower(node, lowerFunc).Ok?
    requires i < |node.children| && node.children[i].rule == Package
    requires forall j :: i < j < |node.children| ==> node.children[j].rule != Package
    ensures PackageName(node.children[i]).Ok?
    ensures Lower(node, lowerFunc).value.package == PackageName(node.children[i]).value
  {
    ScanPackageLast(node.children, i, lowerFunc);
  }

  /** The imports of a lowered module: the import paths in order, one per `import` child. */
  lemma LowerImports(node: Node, lowerFunc: FunctionLowering)
    requires Lower(node, lowerFunc).Ok?
    ensures Lower(node, lowerFunc).value.imports == ImportsOf(node.children)
    ensures |Lower(node, lowerFunc).value.imports| == CountRule(node.children, Import)
  {
    ScanImports(node.children, lowerFunc);
  }

  /**
   * Looking a name up in a lowered module finds a function exactly when some
   * `func` child declares that name, and then the one declared last.
   */
  lemma LowerFunctionLookup(node: Node, name: string, lowerFunc: FunctionLowering)
    requires Lower(node, lowerFunc).Ok?
    ensures Lower(node, lowerFunc).value.Function(name).Some? <==>
            exists i :: 0 <= i < |node.children| && Declares(node.children[i], lowerFunc, name)
    ensures forall i :: DeclaredLast(node.children, i, lowerFunc, name) ==>
              Lower(node, lowerFunc).value.Function(name) == Some(lowerFunc(node.children[i]).value)
  {
    ScanFunctionKeys(node.children, lowerFunc);
    forall i | DeclaredLast(node.children, i, lowerFunc, name)
      ensures Lower(node, lowerFunc).value.Function(name) == Some(lowerFunc(node.children[i]).value)
    {
      ScanFunctionLast(node.children, i, name, lowerFunc);
    }
  }

  /** Inserting an end-of-input child anywhere into a module node leaves its lowering unchanged. */
  lemma LowerSkipsEOI(node: Node, i: nat, eoi: Node, lowerFunc: FunctionLowering)
    requires i <= |node.children| && eoi.rule == EOI
    ensures Lower(node.(children := node.children[..i] + [eoi] + node.children[i..]), lowerFunc) ==
            Lower(node, lowerFunc)
  {
    ScanSkipsEOI(node.children[..i], eoi, node.children[i..], lowerFunc);
    assert node.children[..i] + node.children[i..] == node.children;
  }

  // ---------------------------------------------------------------------------
  // Lowering what a well-formed module looks like

  function PackageDecl(package: string): Node {
    Node(Package, "package " + package, [Node(Name, package, [])])
  }

  function ImportDecl(path: string): Node {
    Node(Import, "import \"" + path + "\"", [Node(String, "\"" + path + "\"", [Node(StringInner, path, [])])])
  }

  function ImportDecls(paths: seq<string>): (decls: seq<Node>)
    ensures |decls| == |paths|
    ensures forall k :: 0 <= k < |paths| ==> decls[k] == ImportDecl(paths[k])
  {
    seq(|paths|, k requires 0 <= k < |paths| => ImportDecl(paths[k]))
  }

  /** The parse of `package p; import ...` followed by end of input. */
  function ModuleDecl(package: string, paths: seq<string>): Node {
    Node(Module, "", [PackageDecl(package)] + ImportDecls(paths) + [Node(EOI, "", [])])
  }

  /** A package declaration contributes the text of its first `name` child. */
  lemma ClassifyPackage(child: Node, k: nat, lowerFunc: FunctionLowering)
    requires child.rule == Package && IsFirst(child.children, Name, k)
    ensures Classify(child, lowerFunc) == Ok(PackageItem(child.children[k].text))
  {
    FindFirst(child.children, Name, k);
  }

  /** An import declaration contributes the text of the first `string_inner` of its first `string`. */
  lemma ClassifyImport(child: Node, k: nat, l: nat, lowerFunc: FunctionLowering)
    requires child.rule == Import && IsFirst(child.children, String, k)
    requires IsFirst(child.children[k].children, StringInner, l)
    ensures Classify(child, lowerFunc) == Ok(ImportItem(child.children[k].children[l].text))
  {
    FindFirst(child.children, String, k);
    FindFirst(child.children[k].children, StringInner, l);
  }

  lemma {:induction false} ScanDecls(package: string, paths: seq<string>, lowerFunc: FunctionLowering)
    ensures Scan([PackageDecl(package)] + ImportDecls(paths), lowerFunc) == Ok(Scanned(Some(package), paths, map[]))
  {
    if paths == [] {
      assert [PackageDecl(package)] + ImportDecls(paths) == [] + [PackageDecl(package)];
      ScanAppendOne([], PackageDecl(package), lowerFunc);
      assert IsFirst(PackageDecl(package).children, Name, 0);
      ClassifyPackage(PackageDecl(package), 0, lowerFunc);
    } else {
      var init := paths[..|paths| - 1];
      assert [PackageDecl(package)] + ImportDecls(paths) ==
             ([PackageDecl(package)] + ImportDecls(init)) + [ImportDecl(paths[|paths| - 1])];
      ScanDecls(package, init, lowerFunc);
      ScanAppendOne([PackageDecl(package)] + ImportDecls(init), ImportDecl(paths[|paths| - 1]), lowerFunc);
      assert IsFirst(ImportDecl(paths[|paths| - 1]).children, String, 0);
      ClassifyImport(ImportDecl(paths[|paths| - 1]), 0, 0, lowerFunc);
      assert init + [paths[|paths| - 1]] == paths;
    }
  }

  /** A module that declares a package and imports lowers to exactly those, in order. */
  lemma LowerModuleDecl(package: string, paths: seq<string>, lowerFunc: FunctionLowering)
    ensures Lower(ModuleDecl(package, paths), lowerFunc) == Ok(SourceModule(package, paths, map[]))
  {
    var eoi := Node(EOI, "", []);
    ScanDecls(package, paths, lowerFunc);
    ScanAppendOne([PackageDecl(package)] + ImportDecls(paths), eoi, lowerFunc);
  }
}
