/** The deny-list validator for uploaded archives (shared/security/code_validator.py). */
module CodeValidator {
  import opened Base

  /** Line and column; nodes without a position report 0, 0. */
  datatype Pos = Pos(line: int, col: int)

  /** The syntax tree, as far as the visitor tells node kinds apart. */
  datatype Node =
    | Import(at: Pos, names: seq<string>)
    | ImportFrom(at: Pos, mod: Option<string>)
    | Call(at: Pos, func: Node, args: seq<Node>)
    | Attribute(at: Pos, value: Node, attr: string)
    | Name(at: Pos, id: string)
    | Global(at: Pos, names: seq<string>)
    | Other(at: Pos, children: seq<Node>)

  datatype Message =
    | ForbiddenImport(name: string)
    | ForbiddenFrom(name: string)
    | ForbiddenCall(name: string)
    | ForbiddenMethodCall(name: string)
    | DynamicImport
    | ForbiddenAttribute(name: string)
    | ForbiddenName(name: string)
    | BuiltinsTouched
    | SyntaxError

  datatype Violation = Violation(file: string, at: Pos, message: Message)

  datatype Policy = Policy(builtins: set<string>, modules: set<string>, attributes: set<string>)

  const DENIED_BUILTINS := {"eval", "exec", "compile", "__import__", "open", "input"}

  const DENIED_MODULES := {
    "subprocess", "socket", "os", "sys", "ctypes", "cffi", "importlib", "imp", "builtins", "shutil", "pathlib", "glob",
    "tempfile", "pty", "atexit", "signal", "multiprocessing", "threading", "concurrent", "asyncio", "ssl", "http",
    "urllib", "ftplib", "smtplib", "telnetlib", "xmlrpc", "pickle", "shelve", "marshal", "copyreg", "code", "codeop",
    "dis", "inspect", "gc", "weakref"}

  const DENIED_ATTRIBUTES := {
    "system", "popen", "spawn", "exec", "execve", "execvp", "fork", "kill", "listdir", "getcwd", "chdir", "environ",
    "__dict__", "__class__", "__bases__", "__subclasses__", "__mro__", "__globals__", "__builtins__", "__code__",
    "__closure__"}

  const POLICY := Policy(DENIED_BUILTINS, DENIED_MODULES, DENIED_ATTRIBUTES)

  const MAX_FILE_SIZE := 10 * 1024 * 1024
  const MAX_FILES := 50
  const ENOUGH_VIOLATIONS := 10

  /** The part of a dotted name before its first dot. */
  function Root(name: string): string
  {
    if name == "" || name[0] == '.' then "" else [name[0]] + Root(name[1..])
  }

  /** It holds no dot, and the name is it, or goes on with a dot. */
  lemma {:induction false} RootIsFirstPart(name: string)
    ensures '.' !in Root(name)
    ensures name == Root(name) || Root(name) + "." <= name
  {
    if name != "" && name[0] != '.' {
      RootIsFirstPart(name[1..]);
      assert name == [name[0]] + name[1..];
    }
  }

  /** The name is the module's, or that of something inside it. */
  predicate IsInModule(name: string, m: string)
  {
    name == m || m + "." <= name
  }

  lemma RootDecides(p: Policy, name: string)
    ensures Root(name) in p.modules <==> exists m :: m in p.modules && '.' !in m && IsInModule(name, m)
  {
    RootIsFirstPart(name);
    if Root(name) in p.modules {
      assert IsInModule(name, Root(name));
    }
    if m :| m in p.modules && '.' !in m && IsInModule(name, m) {
      OneFirstPart(name, m, Root(name));
    }
  }

  lemma FirstPartIsShort(name: string, a: string, b: string)
    requires '.' !in b && IsInModule(name, a) && IsInModule(name, b)
    ensures |b| <= |a|
  {
    assert b == name[..|b|];
    assert forall i | 0 <= i < |b| :: name[i] == b[i] && b[i] in b;
    assert |a| < |name| ==> name[..|a| + 1] == a + "." && name[|a|] == (a + ".")[|a|];
  }

  lemma OneFirstPart(name: string, a: string, b: string)
    requires '.' !in a && '.' !in b && IsInModule(name, a) && IsInModule(name, b)
    ensures a == b
  {
    FirstPartIsShort(name, a, b);
    FirstPartIsShort(name, b, a);
    assert name[..|a|] == a && name[..|b|] == b;
  }

  // ---------- what the visitor should find ----------

  /** A node and everything below it, parents first, left to right. */
  function Subnodes(n: Node): seq<Node>
    decreases n, 1
  {
    [n] + Below(n)
  }

  function Below(n: Node): seq<Node>
    decreases n, 0
  {
    match n
    case Call(_, func, args) => Subnodes(func) + SubnodesOfAll(args)
    case Attribute(_, value, _) => Subnodes(value)
    case Other(_, children) => SubnodesOfAll(children)
    case _ => []
  }

  function SubnodesOfAll(ns: seq<Node>): seq<Node>
    decreases ns, 2
  {
    if ns == [] then [] else Subnodes(ns[0]) + SubnodesOfAll(ns[1..])
  }

  function ImportFlags(p: Policy, names: seq<string>): seq<Message>
  {
    if names == [] then []
    else
      var n := |names| - 1;
      ImportFlags(p, names[..n]) + if Root(names[n]) in p.modules then [ForbiddenImport(names[n])] else []
  }

  function GlobalFlags(names: seq<string>): seq<Message>
  {
    if names == [] then []
    else
      var n := |names| - 1;
      GlobalFlags(names[..n]) + if names[n] == "__builtins__" then [BuiltinsTouched] else []
  }

  function ModuleName(m: Option<string>): string
  {
    if m.Some? then m.value else ""
  }

  /** What one node is flagged for by its own visit method. */
  function OwnFlags(p: Policy, n: Node): seq<Message>
  {
    match n
    case Import(_, names) => ImportFlags(p, names)
    case ImportFrom(_, mod) => if Root(ModuleName(mod)) in p.modules then [ForbiddenFrom(ModuleName(mod))] else []
    case Call(_, func, _) =>
      (if func.Name? && func.id in p.builtins then [ForbiddenCall(func.id)] else [])
      + (if func.Attribute? && func.attr in p.attributes then [ForbiddenMethodCall(func.attr)] else [])
      + (if func.Name? && func.id == "__import__" then [DynamicImport] else [])
    case Attribute(_, _, attr) => if attr in p.attributes then [ForbiddenAttribute(attr)] else []
    case Name(_, id) => if id in p.builtins then [ForbiddenName(id)] else []
    case Global(_, names) => GlobalFlags(names)
    case Other(_, _) => []
  }

  function Tagged(file: string, at: Pos, messages: seq<Message>): (r: seq<Violation>)
    ensures |r| == |messages|
  {
    seq(|messages|, i requires 0 <= i < |messages| => Violation(file, at, messages[i]))
  }

  /** All violations of a list of nodes, each node contributing its own flags once. */
  function FlagsOf(p: Policy, file: string, ns: seq<Node>): seq<Violation>
  {
    if ns == [] then [] else Tagged(file, ns[0].at, OwnFlags(p, ns[0])) + FlagsOf(p, file, ns[1..])
  }

  lemma {:induction false} FlagsOfConcat(p: Policy, file: string, a: seq<Node>, b: seq<Node>)
    ensures FlagsOf(p, file, a + b) == FlagsOf(p, file, a) + FlagsOf(p, file, b)
    decreases |a|
  {
    if a == [] {
      assert a + b == b;
    } else {
      assert (a + b)[1..] == a[1..] + b;
      FlagsOfConcat(p, file, a[1..], b);
    }
  }

  function TotalWeight(p: Policy, ns: seq<Node>): nat
  {
    if ns == [] then 0 else |OwnFlags(p, ns[0])| + TotalWeight(p, ns[1..])
  }

  /** The number of violations is the sum of the nodes' own weights. */
  lemma {:induction false} ViolationsAreWeights(p: Policy, file: string, ns: seq<Node>)
    ensures |FlagsOf(p, file, ns)| == TotalWeight(p, ns)
  {
    if ns != [] {
      ViolationsAreWeights(p, file, ns[1..]);
    }
  }

  /** `eval()` weighs 2, `__import__()` 3 and `x.system()` 2: call and callee are flagged separately. */
  lemma WeightsOfCalls(p: Policy, at: Pos, args: seq<Node>)
    requires "eval" in p.builtins && "__import__" in p.builtins && "system" in p.attributes && "x" !in p.builtins
    requires TotalWeight(p, SubnodesOfAll(args)) == 0
    ensures TotalWeight(p, Subnodes(Call(at, Name(at, "eval"), args))) == 2
    ensures TotalWeight(p, Subnodes(Call(at, Name(at, "__import__"), args))) == 3
    ensures TotalWeight(p, Subnodes(Call(at, Attribute(at, Name(at, "x"), "system"), args))) == 2
  {
    WeightOfNamedCall(p, at, "eval", args);
    WeightOfNamedCall(p, at, "__import__", args);
    WeightOfMethodCall(p, at, "x", "system", args);
  }

  lemma PolicyDeniesThem()
    ensures "eval" in POLICY.builtins && "__import__" in POLICY.builtins && "x" !in POLICY.builtins
    ensures "system" in POLICY.attributes
  {
  }

  lemma WeightOfNamedCall(p: Policy, at: Pos, name: string, args: seq<Node>)
    requires name in p.builtins
    ensures TotalWeight(p, Subnodes(Call(at, Name(at, name), args))) ==
      (if name == "__import__" then 3 else 2) + TotalWeight(p, SubnodesOfAll(args))
  {
    var f := Name(at, name);
    var c := Call(at, f, args);
    var tail := SubnodesOfAll(args);
    assert Subnodes(f) == [f];
    assert Subnodes(c) == [c] + (Subnodes(f) + tail);
    WeightOfHead(p, c, [f] + tail);
    WeightOfHead(p, f, tail);
  }

  lemma WeightOfHead(p: Policy, n: Node, rest: seq<Node>)
    ensures TotalWeight(p, [n] + rest) == |OwnFlags(p, n)| + TotalWeight(p, rest)
  {
    assert ([n] + rest)[1..] == rest;
  }

  lemma WeightOfMethodCall(p: Policy, at: Pos, obj: string, attr: string, args: seq<Node>)
    requires attr in p.attributes && obj !in p.builtins
    ensures TotalWeight(p, Subnodes(Call(at, Attribute(at, Name(at, obj), attr), args))) ==
      2 + TotalWeight(p, SubnodesOfAll(args))
  {
    var x := Name(at, obj);
    var f := Attribute(at, x, attr);
    var c := Call(at, f, args);
    var tail := SubnodesOfAll(args);
    assert Subnodes(x) == [x];
    assert Subnodes(f) == [f] + Subnodes(x);
    WeightOfHead(p, c, Subnodes(f) + tail);
    assert Subnodes(f) + tail == [f] + ([x] + tail);
    WeightOfHead(p, f, [x] + tail);
    WeightOfHead(p, x, tail);
  }

  // ---------- the declarative reading ----------

  /** The name is that of a denied module, or of something inside one. */
  predicate Denied(p: Policy, name: string)
  {
    exists m :: m in p.modules && '.' !in m && IsInModule(name, m)
  }

  /** What the deny-lists forbid, without any rule about calls. */
  predicate Forbidden(p: Policy, n: Node)
  {
    match n
    case Import(_, names) => exists name | name in names :: Denied(p, name)
    case ImportFrom(_, mod) => Denied(p, if mod.Some? then mod.value else "")
    case Attribute(_, _, attr) => attr in p.attributes
    case Name(_, id) => id in p.builtins
    case Global(_, names) => "__builtins__" in names
    case _ => false
  }

  /** n is the tree or somewhere in it. */
  ghost predicate Occurs(n: Node, tree: Node)
    decreases tree
  {
    n == tree ||
    match tree
    case Call(_, func, args) => Occurs(n, func) || exists i :: 0 <= i < |args| && Occurs(n, args[i])
    case Attribute(_, value, _) => Occurs(n, value)
    case Other(_, children) => exists i :: 0 <= i < |children| && Occurs(n, children[i])
    case _ => false
  }

  lemma {:induction false} SubnodesAreAll(n: Node, tree: Node)
    ensures n in Subnodes(tree) <==> Occurs(n, tree)
    decreases tree, 0
  {
    match tree
    case Call(_, func, args) =>
      SubnodesAreAll(n, func);
      SubnodesOfAllAreAll(n, args);
    case Attribute(_, value, _) => SubnodesAreAll(n, value);
    case Other(_, children) => SubnodesOfAllAreAll(n, children);
    case _ =>
  }

  lemma {:induction false} SubnodesOfAllAreAll(n: Node, ns: seq<Node>)
    ensures n in SubnodesOfAll(ns) <==> exists i :: 0 <= i < |ns| && Occurs(n, ns[i])
    decreases ns, 1
  {
    if ns != [] {
      SubnodesAreAll(n, ns[0]);
      SubnodesOfAllAreAll(n, ns[1..]);
      assert forall i | 1 <= i < |ns| :: ns[i] == ns[1..][i - 1];
    }
  }

  ghost predicate Clean(p: Policy, tree: Node)
  {
    forall n | Occurs(n, tree) :: !Forbidden(p, n)
  }

  lemma {:induction false} ImportFlagsIff(p: Policy, names: seq<string>)
    ensures ImportFlags(p, names) == [] <==> forall name | name in names :: !Denied(p, name)
    decreases |names|
  {
    if names != [] {
      var n := |names| - 1;
      ImportFlagsIff(p, names[..n]);
      RootDecides(p, names[n]);
      assert names == names[..n] + [names[n]];
      assert names[n] in names;
      assert forall name | name in names[..n] :: name in names;
      if ImportFlags(p, names) == [] {
        forall name | name in names ensures !Denied(p, name) {
          assert name in names[..n] || name == names[n];
        }
      }
    }
  }

  lemma {:induction false} GlobalFlagsIff(names: seq<string>)
    ensures GlobalFlags(names) == [] <==> "__builtins__" !in names
    decreases |names|
  {
    if names != [] {
      var n := |names| - 1;
      GlobalFlagsIff(names[..n]);
      assert names == names[..n] + [names[n]];
    }
  }

  /** A node is flagged if it is forbidden; and a call is flagged only if its callee is. */
  lemma OwnFlagsIff(p: Policy, n: Node)
    requires "__import__" in p.builtins
    ensures !n.Call? ==> (OwnFlags(p, n) != [] <==> Forbidden(p, n))
    ensures n.Call? && OwnFlags(p, n) != [] ==> Forbidden(p, n.func)
  {
    if n.Import? {
      ImportFlagsIff(p, n.names);
    } else if n.ImportFrom? {
      RootDecides(p, ModuleName(n.mod));
    } else if n.Global? {
      GlobalFlagsIff(n.names);
    }
  }

  lemma {:induction false} SubnodesClosed(n: Node, c: Node)
    requires c in Subnodes(n) && c.Call?
    ensures c.func in Subnodes(n)
    decreases n, 0
  {
    if c == n {
      assert Subnodes(n)[1] == c.func by { assert Subnodes(c.func)[0] == c.func; }
    } else {
      match n
      case Call(_, func, args) =>
        if c in Subnodes(func) { SubnodesClosed(func, c); } else { SubnodesOfAllClosed(args, c); }
      case Attribute(_, value, _) => SubnodesClosed(value, c);
      case Other(_, children) => SubnodesOfAllClosed(children, c);
    }
  }

  lemma {:induction false} SubnodesOfAllClosed(ns: seq<Node>, c: Node)
    requires c in SubnodesOfAll(ns) && c.Call?
    ensures c.func in SubnodesOfAll(ns)
    decreases ns, 1
  {
    if c in Subnodes(ns[0]) { SubnodesClosed(ns[0], c); } else { SubnodesOfAllClosed(ns[1..], c); }
  }

  lemma {:induction false} NoFlagsIff(p: Policy, file: string, ns: seq<Node>)
    ensures FlagsOf(p, file, ns) == [] <==> forall n | n in ns :: OwnFlags(p, n) == []
    decreases |ns|
  {
    if ns != [] {
      NoFlagsIff(p, file, ns[1..]);
      assert ns == [ns[0]] + ns[1..];
    }
  }

  /** A tree has no violation exactly when no node at any depth is forbidden; the visitor's rules about calls decide
      nothing by themselves. */
  lemma VerdictIsDeclarative(p: Policy, file: string, tree: Node)
    requires "__import__" in p.builtins
    ensures FlagsOf(p, file, Subnodes(tree)) == [] <==> Clean(p, tree)
  {
    NoFlagsIff(p, file, Subnodes(tree));
    forall n ensures n in Subnodes(tree) <==> Occurs(n, tree) {
      SubnodesAreAll(n, tree);
    }
    forall n | n in Subnodes(tree)
      ensures OwnFlags(p, n) != [] ==> !Clean(p, tree)
      ensures Forbidden(p, n) ==> OwnFlags(p, n) != []
    {
      OwnFlagsIff(p, n);
      if n.Call? {
        SubnodesClosed(tree, n);
      }
    }
  }

  /** Which messages a node is flagged with, and for what. */
  lemma FlagsSay(p: Policy, n: Node, message: Message)
    ensures message in OwnFlags(p, n) <==>
      match message
      case ForbiddenImport(name) => n.Import? && name in n.names && Denied(p, name)
      case ForbiddenFrom(name) =>
        n.ImportFrom? && (n.mod == Some(name) || (n.mod == None && name == "")) && Denied(p, name)
      case ForbiddenCall(name) => n.Call? && n.func.Name? && n.func.id == name && name in p.builtins
      case ForbiddenMethodCall(name) => n.Call? && n.func.Attribute? && n.func.attr == name && name in p.attributes
      case DynamicImport => n.Call? && n.func.Name? && n.func.id == "__import__"
      case ForbiddenAttribute(name) => n.Attribute? && n.attr == name && name in p.attributes
      case ForbiddenName(name) => n.Name? && n.id == name && name in p.builtins
      case BuiltinsTouched => n.Global? && "__builtins__" in n.names
      case SyntaxError => false
  {
    match n
    case Import(_, names) => ImportFlagsSay(p, names, message);
    case ImportFrom(_, mod) => RootDecides(p, ModuleName(mod));
    case Global(_, names) => GlobalFlagsSay(names, message);
    case _ =>
  }

  lemma {:induction false} ImportFlagsSay(p: Policy, names: seq<string>, message: Message)
    ensures message in ImportFlags(p, names) <==>
      message.ForbiddenImport? && message.name in names && Denied(p, message.name)
    decreases |names|
  {
    if names != [] {
      var n := |names| - 1;
      ImportFlagsSay(p, names[..n], message);
      RootDecides(p, names[n]);
      assert names == names[..n] + [names[n]];
    }
  }

  lemma {:induction false} GlobalFlagsSay(names: seq<string>, message: Message)
    ensures message in GlobalFlags(names) <==> message == BuiltinsTouched && "__builtins__" in names
    decreases |names|
  {
    if names != [] {
      var n := |names| - 1;
      GlobalFlagsSay(names[..n], message);
      assert names == names[..n] + [names[n]];
    }
  }

  /** One flag for every denied name of an import, in order. */
  lemma {:induction false} ImportFlagsAre(p: Policy, names: seq<string>) returns (at: seq<nat>)
    ensures Places(at, |names|) && |at| == |ImportFlags(p, names)|
    ensures forall k | 0 <= k < |at| :: ImportFlags(p, names)[k] == ForbiddenImport(names[at[k]])
    ensures forall i | 0 <= i < |names| :: i in at <==> Denied(p, names[i])
    decreases |names|
  {
    if names == [] {
      at := [];
    } else {
      var n := |names| - 1;
      at := ImportFlagsAre(p, names[..n]);
      RootDecides(p, names[n]);
      if Denied(p, names[n]) {
        at := at + [n];
      }
    }
  }

  // ---------- the visitor ----------

  class ValidationResult {
    var isValid: bool
    var violations: seq<Violation>
    var filesChecked: nat
    var error: Option<Rejection>

    constructor ()
      ensures isValid && violations == [] && filesChecked == 0 && error == None
    {
      isValid, violations, filesChecked, error := true, [], 0, None;
    }

    method AddViolation(v: Violation)
      modifies this`isValid, this`violations
      ensures violations == old(violations) + [v] && !isValid
    {
      violations := violations + [v];
      isValid := false;
    }
  }

  datatype Rejection =
    | NotAnArchive
    | TooManyFiles(count: nat)
    | SuspiciousPath(name: string)
    | NoPythonFiles
    | FileTooLarge(name: string)

  class AstValidator {
    const policy: Policy
    const file: string
    const result: ValidationResult

    constructor (policy: Policy, file: string, result: ValidationResult)
      ensures this.policy == policy && this.file == file && this.result == result
    {
      this.policy, this.file, this.result := policy, file, result;
    }

    method Flag(at: Pos, message: Message)
      modifies result`isValid, result`violations
      ensures result.violations == old(result.violations) + [Violation(file, at, message)] && !result.isValid
    {
      result.AddViolation(Violation(file, at, message));
    }

    /** The visit method of the node's own kind, before it descends. */
    method FlagNode(n: Node)
      modifies result`isValid, result`violations
      ensures result.violations == old(result.violations) + Tagged(file, n.at, OwnFlags(policy, n))
      ensures result.isValid <==> old(result.isValid) && OwnFlags(policy, n) == []
    {
      ghost var before := result.violations;
      match n
      case Import(at, names) => FlagImports(at, names);
      case ImportFrom(at, mod) =>
        if Root(ModuleName(mod)) in policy.modules {
          Flag(at, ForbiddenFrom(ModuleName(mod)));
        }
      case Call(at, func, _) => FlagCall(at, func);
      case Attribute(at, _, attr) =>
        if attr in policy.attributes {
          Flag(at, ForbiddenAttribute(attr));
        }
      case Name(at, id) =>
        if id in policy.builtins {
          Flag(at, ForbiddenName(id));
        }
      case Global(at, names) => FlagGlobals(at, names);
      case Other(_, _) =>
    }

    method FlagImports(at: Pos, names: seq<string>)
      modifies result`isValid, result`violations
      ensures result.violations == old(result.violations) + Tagged(file, at, ImportFlags(policy, names))
      ensures result.isValid <==> old(result.isValid) && ImportFlags(policy, names) == []
    {
      for i := 0 to |names|
        invariant result.violations == old(result.violations) + Tagged(file, at, ImportFlags(policy, names[..i]))
        invariant result.isValid <==> old(result.isValid) && ImportFlags(policy, names[..i]) == []
      {
        assert names[..i + 1][..i] == names[..i];
        if Root(names[i]) in policy.modules {
          Flag(at, ForbiddenImport(names[i]));
        }
      }
      assert names[..|names|] == names;
    }

    method FlagGlobals(at: Pos, names: seq<string>)
      modifies result`isValid, result`violations
      ensures result.violations == old(result.violations) + Tagged(file, at, GlobalFlags(names))
      ensures result.isValid <==> old(result.isValid) && GlobalFlags(names) == []
    {
      for i := 0 to |names|
        invariant result.violations == old(result.violations) + Tagged(file, at, GlobalFlags(names[..i]))
        invariant result.isValid <==> old(result.isValid) && GlobalFlags(names[..i]) == []
      {
        assert names[..i + 1][..i] == names[..i];
        if names[i] == "__builtins__" {
          Flag(at, BuiltinsTouched);
        }
      }
      assert names[..|names|] == names;
    }

    method FlagCall(at: Pos, func: Node)
      modifies result`isValid, result`violations
      ensures result.violations == old(result.violations) + Tagged(file, at, OwnFlags(policy, Call(at, func, [])))
      ensures result.isValid <==> old(result.isValid) && OwnFlags(policy, Call(at, func, [])) == []
    {
      if func.Name? {
        if func.id in policy.builtins {
          Flag(at, ForbiddenCall(func.id));
        }
      }
      if func.Attribute? {
        if func.attr in policy.attributes {
          Flag(at, ForbiddenMethodCall(func.attr));
        }
      }
      if func.Name? && func.id == "__import__" {
        Flag(at, DynamicImport);
      }
    }

    /** Visit a node and everything below it, each node once, in order. */
    method Visit(n: Node) returns (ghost visited: seq<Node>)
      modifies result`isValid, result`violations
      ensures visited == Subnodes(n)
      ensures result.violations == old(result.violations) + FlagsOf(policy, file, Subnodes(n))
      ensures result.isValid <==> old(result.isValid) && FlagsOf(policy, file, Subnodes(n)) == []
      decreases n, 2
    {
      ghost var before := result.violations;
      FlagNode(n);
      FlagsOfNode(policy, file, n);
      FlagsJoin(policy, file, before, [n], Below(n));
      visited := VisitChildren(n);
      visited := [n] + visited;
    }

    /** generic_visit. */
    method VisitChildren(n: Node) returns (ghost visited: seq<Node>)
      modifies result`isValid, result`violations
      ensures visited == Below(n)
      ensures result.violations == old(result.violations) + FlagsOf(policy, file, Below(n))
      ensures result.isValid <==> old(result.isValid) && FlagsOf(policy, file, Below(n)) == []
      decreases n, 1
    {
      match n
      case Call(_, func, args) => visited := VisitCall(n);
      case Attribute(_, value, _) => visited := Visit(value);
      case Other(_, children) => visited := VisitAll(children);
      case _ => visited := [];
    }

    method VisitCall(n: Node) returns (ghost visited: seq<Node>)
      requires n.Call?
      modifies result`isValid, result`violations
      ensures visited == Below(n)
      ensures result.violations == old(result.violations) + FlagsOf(policy, file, Below(n))
      ensures result.isValid <==> old(result.isValid) && FlagsOf(policy, file, Below(n)) == []
      decreases n, 0
    {
      ghost var a, b := Subnodes(n.func), SubnodesOfAll(n.args);
      FlagsJoin(policy, file, result.violations, a, b);
      visited := Visit(n.func);
      ghost var more := VisitAll(n.args);
      visited := visited + more;
    }

    method VisitAll(ns: seq<Node>) returns (ghost visited: seq<Node>)
      modifies result`isValid, result`violations
      ensures visited == SubnodesOfAll(ns)
      ensures result.violations == old(result.violations) + FlagsOf(policy, file, SubnodesOfAll(ns))
      ensures result.isValid <==> old(result.isValid) && FlagsOf(policy, file, SubnodesOfAll(ns)) == []
      decreases ns, 3
    {
      visited := [];
      if ns != [] {
        FlagsJoin(policy, file, result.violations, Subnodes(ns[0]), SubnodesOfAll(ns[1..]));
        visited := Visit(ns[0]);
        ghost var more := VisitAll(ns[1..]);
        visited := visited + more;
      }
    }
  }

  lemma FlagsOfNode(p: Policy, file: string, n: Node)
    ensures FlagsOf(p, file, [n]) == Tagged(file, n.at, OwnFlags(p, n))
  {
  }

  lemma FlagsJoin(p: Policy, file: string, before: seq<Violation>, a: seq<Node>, b: seq<Node>)
    ensures before + FlagsOf(p, file, a + b) == before + FlagsOf(p, file, a) + FlagsOf(p, file, b)
    ensures FlagsOf(p, file, a + b) == [] <==> FlagsOf(p, file, a) == [] && FlagsOf(p, file, b) == []
  {
    FlagsOfConcat(p, file, a, b);
  }

  // ---------- the archive ----------

  /** ast.parse: a tree, or a SyntaxError at a position. */
  datatype Parsed = Tree(root: Node) | Broken(at: Pos)

  datatype File = File(size: int, parsed: Parsed)

  type Files = map<string, File>

  /** The uploaded bytes: no ZIP archive, or its member names in order and what each Python member parses to. */
  datatype Upload = NotZip | Zip(names: seq<string>, files: Files)

  ghost predicate Readable(u: Upload)
  {
    u.Zip? ==> forall name | name in u.names :: name in u.files
  }

  predicate Suspicious(name: string)
  {
    (name != "" && name[0] == '/') || Contains(name, "..")
  }

  predicate IsPython(name: string)
  {
    |name| >= 3 && name[|name| - 3..] == ".py"
  }

  function PythonFiles(names: seq<string>): seq<string>
  {
    if names == [] then []
    else
      var n := |names| - 1;
      PythonFiles(names[..n]) + if IsPython(names[n]) then [names[n]] else []
  }

  lemma {:induction false} PythonFilesAre(names: seq<string>, name: string)
    ensures name in PythonFiles(names) <==> name in names && IsPython(name)
    decreases |names|
  {
    if names != [] {
      var n := |names| - 1;
      PythonFilesAre(names[..n], name);
      assert names == names[..n] + [names[n]];
    }
  }

  /** The Python files are the members so named, in the archive's order, each as often as it is listed. */
  lemma {:induction false} PythonFilesInOrder(names: seq<string>) returns (at: seq<nat>)
    ensures Places(at, |names|) && |at| == |PythonFiles(names)|
    ensures forall k | 0 <= k < |at| :: PythonFiles(names)[k] == names[at[k]]
    ensures forall i | 0 <= i < |names| :: i in at <==> exists stem :: names[i] == stem + ".py"
    decreases |names|
  {
    if names == [] {
      at := [];
    } else {
      var n := |names| - 1;
      at := PythonFilesInOrder(names[..n]);
      PythonIff(names[n]);
      if EndsInPy(names[n]) {
        at := at + [n];
      }
    }
  }

  /** The violations of one source file. */
  function Findings(p: Policy, name: string, parsed: Parsed): seq<Violation>
  {
    match parsed
    case Broken(at) => [Violation(name, at, SyntaxError)]
    case Tree(root) => FlagsOf(p, name, Subnodes(root))
  }

  ghost predicate Known(files: Files, names: seq<string>)
  {
    forall i | 0 <= i < |names| :: names[i] in files
  }

  /** The violations of the first k files, one file after the other. */
  ghost function AllFindings(p: Policy, files: Files, names: seq<string>, k: nat): seq<Violation>
    requires Known(files, names) && k <= |names|
  {
    if k == 0 then []
    else AllFindings(p, files, names, k - 1) + Findings(p, names[k - 1], files[names[k - 1]].parsed)
  }

  ghost predicate CleanFile(p: Policy, f: File)
  {
    f.size <= 10 * 1024 * 1024 && f.parsed.Tree? && Clean(p, f.parsed.root)
  }

  /** What an archive must satisfy, without reference to the order of the checks or to stopping early. */
  ghost predicate Accepts(p: Policy, u: Upload)
    requires Readable(u)
  {
    u.Zip? && |u.names| <= 50
    && (forall name | name in u.names :: !("/" <= name) && forall a, b :: name != a + ".." + b)
    && (exists name :: name in u.names && EndsInPy(name))
    && forall name | name in u.names && EndsInPy(name) :: CleanFile(p, u.files[name])
  }

  ghost predicate EndsInPy(name: string)
  {
    exists stem :: name == stem + ".py"
  }

  lemma PythonIff(name: string)
    ensures IsPython(name) <==> EndsInPy(name)
  {
    if IsPython(name) {
      assert name == name[..|name| - 3] + ".py";
    }
  }

  lemma SuspiciousIff(name: string)
    ensures Suspicious(name) <==> "/" <= name || exists a, b :: name == a + ".." + b
  {
    ContainsIff(name, "..");
  }

  lemma NoFindingsIff(p: Policy, name: string, parsed: Parsed)
    requires "__import__" in p.builtins
    ensures Findings(p, name, parsed) == [] <==> parsed.Tree? && Clean(p, parsed.root)
  {
    if parsed.Tree? {
      VerdictIsDeclarative(p, name, parsed.root);
    }
  }

  /** _validate_source. */
  method ValidateSource(p: Policy, parsed: Parsed, name: string, result: ValidationResult)
    modifies result`isValid, result`violations
    ensures result.violations == old(result.violations) + Findings(p, name, parsed)
    ensures result.isValid <==> old(result.isValid) && Findings(p, name, parsed) == []
  {
    match parsed
    case Broken(at) => result.AddViolation(Violation(name, at, SyntaxError));
    case Tree(root) =>
      var visitor := new AstValidator(p, name, result);
      ghost var visited := visitor.Visit(root);
  }

  method FirstSuspicious(names: seq<string>) returns (found: Option<string>)
    ensures found == SuspiciousIn(names)
  {
    for i := 0 to |names|
      invariant SuspiciousIn(names[i..]) == SuspiciousIn(names)
    {
      assert names[i..][1..] == names[i + 1..];
      if Suspicious(names[i]) {
        return Some(names[i]);
      }
    }
    found := None;
  }

  method SelectPython(names: seq<string>) returns (selected: seq<string>)
    ensures selected == PythonFiles(names)
  {
    selected := [];
    for i := 0 to |names|
      invariant selected == PythonFiles(names[..i])
    {
      assert names[..i + 1][..i] == names[..i];
      if IsPython(names[i]) {
        selected := selected + [names[i]];
      }
    }
    assert names[..|names|] == names;
  }

  function SuspiciousIn(names: seq<string>): (found: Option<string>)
    ensures found.None? <==> forall name | name in names :: !Suspicious(name)
    ensures found.Some? ==> found.value in names && Suspicious(found.value)
  {
    if names == [] then None
    else if Suspicious(names[0]) then Some(names[0])
    else assert names == [names[0]] + names[1..]; SuspiciousIn(names[1..])
  }

  /** Why an archive is refused before any file of it is looked at. */
  function RefusedUnseen(u: Upload): Option<Rejection>
  {
    if u.NotZip? then Some(NotAnArchive)
    else if |u.names| > MAX_FILES then Some(TooManyFiles(|u.names|))
    else if SuspiciousIn(u.names).Some? then Some(SuspiciousPath(SuspiciousIn(u.names).value))
    else if PythonFiles(u.names) == [] then Some(NoPythonFiles)
    else None
  }

  /** The first check that fails decides; of several suspicious paths the first in the archive is named. */
  lemma RefusalsAre(u: Upload)
    ensures var suspicious := u.Zip? && exists name, a, b :: name in u.names && ("/" <= name || name == a + ".." + b);
      var python := u.Zip? && exists stem :: stem + ".py" in u.names;
      match RefusedUnseen(u)
      case Some(NotAnArchive) => u.NotZip?
      case Some(TooManyFiles(count)) => u.Zip? && count == |u.names| > 50
      case Some(SuspiciousPath(name)) =>
        u.Zip? && |u.names| <= 50 && name in u.names && ("/" <= name || exists a, b :: name == a + ".." + b)
        && exists i :: 0 <= i < |u.names| && u.names[i] == name && forall j | 0 <= j < i :: !Suspicious(u.names[j])
      case Some(NoPythonFiles) => u.Zip? && |u.names| <= 50 && !suspicious && !python
      case Some(FileTooLarge(_)) => false
      case None => u.Zip? && |u.names| <= 50 && !suspicious && python
  {
    if u.Zip? {
      forall name ensures Suspicious(name) <==> "/" <= name || exists a, b :: name == a + ".." + b {
        SuspiciousIff(name);
      }
      forall name ensures name in PythonFiles(u.names) <==> name in u.names && EndsInPy(name) {
        PythonFilesAre(u.names, name);
        PythonIff(name);
      }
      if SuspiciousIn(u.names).Some? {
        FirstIsNamed(u.names);
      }
      if PythonFiles(u.names) != [] {
        assert PythonFiles(u.names)[0] in PythonFiles(u.names);
      }
    }
  }

  lemma {:induction false} FirstIsNamed(names: seq<string>)
    requires SuspiciousIn(names).Some?
    ensures exists i :: 0 <= i < |names| && names[i] == SuspiciousIn(names).value
              && forall j | 0 <= j < i :: !Suspicious(names[j])
  {
    if !Suspicious(names[0]) {
      FirstIsNamed(names[1..]);
      var i :| 0 <= i < |names[1..]| && names[1..][i] == SuspiciousIn(names[1..]).value
        && forall j | 0 <= j < i :: !Suspicious(names[1..][j]);
      forall j | 0 <= j < i + 1 ensures !Suspicious(names[j]) {
        assert j > 0 ==> names[j] == names[1..][j - 1];
      }
      assert names[i + 1] == SuspiciousIn(names).value;
    }
  }

  /** An archive is refused if one of its Python files imports a denied module, or anything inside one, anywhere. */
  lemma DeniedImportIsRefused(p: Policy, u: Upload, file: string, n: Node, name: string, m: string)
    requires Readable(u) && u.Zip? && file + ".py" in u.names && u.files[file + ".py"].parsed.Tree?
    requires Occurs(n, u.files[file + ".py"].parsed.root)
    requires (n.Import? && name in n.names) || (n.ImportFrom? && n.mod == Some(name))
    requires m in p.modules && '.' !in m && (name == m || m + "." <= name)
    ensures !Accepts(p, u)
  {
    assert IsInModule(name, m) && Denied(p, name) && Forbidden(p, n);
    assert EndsInPy(file + ".py");
  }

  ghost predicate CleanAt(p: Policy, files: Files, py: seq<string>, i: nat)
    requires Known(files, py) && i < |py|
  {
    CleanFile(p, files[py[i]])
  }

  ghost predicate AllClean(p: Policy, files: Files, py: seq<string>)
    requires Known(files, py)
  {
    forall i: nat | i < |py| :: CleanAt(p, files, py, i)
  }

  lemma AcceptsIff(p: Policy, u: Upload)
    requires Readable(u) && u.Zip?
    ensures Known(u.files, PythonFiles(u.names))
    ensures Accepts(p, u) <==> RefusedUnseen(u).None? && AllClean(p, u.files, PythonFiles(u.names))
  {
    var py := PythonFiles(u.names);
    forall name
      ensures name in py <==> name in u.names && EndsInPy(name)
      ensures Suspicious(name) <==> "/" <= name || exists a, b :: name == a + ".." + b
    {
      PythonFilesAre(u.names, name);
      PythonIff(name);
      SuspiciousIff(name);
    }
    if py != [] {
      assert py[0] in py;
    }
    if AllClean(p, u.files, py) {
      forall name | name in u.names && EndsInPy(name) ensures CleanFile(p, u.files[name]) {
        var i: nat :| i < |py| && py[i] == name;
        assert CleanAt(p, u.files, py, i);
      }
    }
  }

  predicate TooLarge(files: Files, name: string)
    requires name in files
  {
    files[name].size > MAX_FILE_SIZE
  }

  // ---------- the loop over the files, for given findings of each file ----------

  /** The findings of each file. */
  type Found = string -> seq<Violation>

  ghost predicate Finds(found: Found, p: Policy, files: Files, name: string)
    requires name in files
  {
    found(name) == Findings(p, name, files[name].parsed)
  }

  ghost predicate FindsAll(found: Found, p: Policy, files: Files)
  {
    forall name {:trigger Finds(found, p, files, name)} | name in files :: Finds(found, p, files, name)
  }

  ghost function Joined(found: Found, names: seq<string>, k: nat): seq<Violation>
    requires k <= |names|
  {
    if k == 0 then [] else Joined(found, names, k - 1) + found(names[k - 1])
  }

  lemma {:induction false} JoinedIsAll(found: Found, p: Policy, files: Files, names: seq<string>, k: nat)
    requires FindsAll(found, p, files) && Known(files, names) && k <= |names|
    ensures Joined(found, names, k) == AllFindings(p, files, names, k)
  {
    if k > 0 {
      JoinedIsAll(found, p, files, names, k - 1);
      assert Finds(found, p, files, names[k - 1]);
    }
  }

  lemma {:induction false} JoinedIsEmptyIff(found: Found, names: seq<string>, k: nat)
    requires k <= |names|
    ensures Joined(found, names, k) == [] <==> forall i | 0 <= i < k :: found(names[i]) == []
  {
    if k > 0 {
      JoinedIsEmptyIff(found, names, k - 1);
    }
  }

  lemma CleanIffNothingFound(found: Found, p: Policy, files: Files, py: seq<string>, i: nat)
    requires FindsAll(found, p, files) && Known(files, py) && i < |py| && "__import__" in p.builtins
    ensures CleanAt(p, files, py, i) <==> !TooLarge(files, py[i]) && found(py[i]) == []
  {
    assert Finds(found, p, files, py[i]);
    NoFindingsIff(p, py[i], files[py[i]].parsed);
  }

  /** Stopping early never changes the verdict. */
  lemma VerdictStands(found: Found, p: Policy, files: Files, py: seq<string>, k: nat)
    requires FindsAll(found, p, files) && Known(files, py) && k <= |py| && "__import__" in p.builtins
    requires forall j | 0 <= j < k :: !TooLarge(files, py[j])
    ensures k == |py| ==> (Joined(found, py, k) == [] <==> AllClean(p, files, py))
    ensures Joined(found, py, k) != [] || (k < |py| && TooLarge(files, py[k])) ==> !AllClean(p, files, py)
  {
    JoinedIsEmptyIff(found, py, k);
    forall i: nat | i < |py| ensures CleanAt(p, files, py, i) <==> !TooLarge(files, py[i]) && found(py[i]) == [] {
      CleanIffNothingFound(found, p, files, py, i);
    }
  }

  /** One Python file. */
  method CheckFile(p: Policy, files: Files, name: string, result: ValidationResult, ghost found: Found)
    requires FindsAll(found, p, files) && name in files
    modifies result`isValid, result`violations
    ensures result.violations == old(result.violations) + found(name)
    ensures result.isValid <==> old(result.isValid) && found(name) == []
  {
    assert Finds(found, p, files, name);
    ValidateSource(p, files[name].parsed, name, result);
  }

  /** The loop over the Python files, with its two early exits. */
  method CheckFiles(p: Policy, files: Files, py: seq<string>, result: ValidationResult, ghost found: Found)
    requires FindsAll(found, p, files) && Known(files, py)
    requires result.isValid && result.violations == [] && result.filesChecked == 0 && result.error == None
    modifies result
    ensures result.filesChecked <= |py| && result.violations == Joined(found, py, result.filesChecked)
    ensures forall j | 0 <= j < result.filesChecked :: !TooLarge(files, py[j])
    ensures result.filesChecked > 0 ==> |Joined(found, py, result.filesChecked - 1)| <= ENOUGH_VIOLATIONS
    ensures result.error.None? ==> result.filesChecked == |py| || |result.violations| > ENOUGH_VIOLATIONS
    ensures result.error.Some? ==>
      result.filesChecked < |py| && TooLarge(files, py[result.filesChecked])
      && result.error == Some(FileTooLarge(py[result.filesChecked]))
    ensures result.isValid <==> result.error.None? && result.violations == []
  {
    for i := 0 to |py|
      invariant result.filesChecked == i && result.error == None
      invariant result.violations == Joined(found, py, i)
      invariant forall j | 0 <= j < i :: !TooLarge(files, py[j])
      invariant result.isValid <==> result.violations == []
      invariant |result.violations| <= ENOUGH_VIOLATIONS
      invariant i > 0 ==> |Joined(found, py, i - 1)| <= ENOUGH_VIOLATIONS
    {
      var name := py[i];
      if files[name].size > MAX_FILE_SIZE {
        result.isValid := false;
        result.error := Some(FileTooLarge(name));
        return;
      }
      result.filesChecked := result.filesChecked + 1;
      CheckFile(p, files, name, result, found);
      if !result.isValid && |result.violations| > ENOUGH_VIOLATIONS {
        return;
      }
    }
  }

  /** What the loop leaves behind, in terms of the files alone. */
  method CheckPython(p: Policy, files: Files, py: seq<string>, result: ValidationResult)
    requires Known(files, py) && "__import__" in p.builtins
    requires result.isValid && result.violations == [] && result.filesChecked == 0 && result.error == None
    modifies result
    ensures result.isValid <==> AllClean(p, files, py)
    ensures CheckedInOrder(p, files, py, result.filesChecked, result.violations, result.error)
  {
    ghost var found: Found := name => if name in files then Findings(p, name, files[name].parsed) else [];
    CheckFiles(p, files, py, result, found);
    VerdictStands(found, p, files, py, result.filesChecked);
    JoinedIsAll(found, p, files, py, result.filesChecked);
    if result.filesChecked > 0 {
      JoinedIsAll(found, p, files, py, result.filesChecked - 1);
    }
  }

  /** The first k files were checked, none of them too large, and their findings are the violations; the next file was
      too large, or none was left, or the last one brought the violations above ten, and not an earlier one. */
  ghost predicate CheckedInOrder(p: Policy, files: Files, py: seq<string>, k: nat, violations: seq<Violation>,
                                 error: Option<Rejection>)
    requires Known(files, py)
  {
    k <= |py| && violations == AllFindings(p, files, py, k)
    && (forall j | 0 <= j < k :: !TooLarge(files, py[j]))
    && (k > 0 ==> |AllFindings(p, files, py, k - 1)| <= ENOUGH_VIOLATIONS)
    && (error.None? ==> k == |py| || |violations| > ENOUGH_VIOLATIONS)
    && (error.Some? ==> k < |py| && TooLarge(files, py[k]) && error == Some(FileTooLarge(py[k])))
  }

  /** validate_archive: whatever the early exits, the verdict is the declarative one, and the violations reported are
      exactly those of the files checked, in order. */
  method ValidateArchive(p: Policy, u: Upload) returns (result: ValidationResult)
    requires Readable(u) && "__import__" in p.builtins
    ensures fresh(result)
    ensures result.isValid <==> Accepts(p, u)
    ensures RefusedUnseen(u).Some? ==>
      result.error == RefusedUnseen(u) && result.filesChecked == 0 && result.violations == []
    ensures RefusedUnseen(u).None? ==>
      Known(u.files, PythonFiles(u.names))
      && CheckedInOrder(p, u.files, PythonFiles(u.names), result.filesChecked, result.violations, result.error)
  {
    result := new ValidationResult();
    if u.NotZip? {
      result.isValid := false;
      result.error := Some(NotAnArchive);
      return;
    }
    AcceptsIff(p, u);
    if |u.names| > MAX_FILES {
      result.isValid := false;
      result.error := Some(TooManyFiles(|u.names|));
      return;
    }
    var suspect := FirstSuspicious(u.names);
    if suspect.Some? {
      result.isValid := false;
      result.error := Some(SuspiciousPath(suspect.value));
      return;
    }
    var py := SelectPython(u.names);
    if py == [] {
      result.isValid := false;
      result.error := Some(NoPythonFiles);
      return;
    }
    CheckPython(p, u.files, py, result);
  }
}
