/**
  `ast_checks`: the naming and default-value checks run over the parsed
  syntax tree of a file. The tree is an input here: statements are kept as
  far as the checks look at them, expressions only by their kind. The
  visitor's own checks run on every function definition, the enclosing
  definition before the definitions nested in it.
*/
module SyntaxTree {
  import opened Wrappers
  import opened PyStr
  import opened Diagnostics

  /** An expression, by the kind of node the parser makes of it. */
  datatype Expr = Constant | Name(id: string) | List | Dict | Call | OtherExpr

  /** A statement (or the module), with the statements nested in it. A
      compound statement lists the statements of all its blocks in the
      order the parser stores them; an assignment keeps its first target
      apart, since the parser never makes one without a target. */
  datatype Node =
    | Module(body: seq<Node>)
    | FunctionDef(lineno: nat, args: seq<string>, defaults: seq<Expr>, body: seq<Node>)
    | ClassDef(body: seq<Node>)
    | Assign(target: Expr, moreTargets: seq<Expr>, value: Expr)
    | Compound(body: seq<Node>)
    | Other

  /** The statements `generic_visit` walks into. */
  function Children(n: Node): seq<Node>
  {
    match n
    case Module(body) => body
    case FunctionDef(_, _, _, body) => body
    case ClassDef(body) => body
    case Compound(body) => body
    case _ => []
  }

  // ---------------------------------------------------------------------
  // The checks, as functions of the tree

  /** An argument name that is not lower case and has no underscore. */
  predicate BadArg(a: string) {
    !IsLower(a) && '_' !in a
  }

  /** An assignment whose first target is a name without an underscore. */
  predicate BadAssign(item: Node) {
    item.Assign? && item.target.Name? && '_' !in item.target.id
  }

  /** A default value that is not a literal constant. */
  predicate BadDefault(e: Expr) {
    !e.Constant?
  }

  /** `d` once for each of `items` that is `bad`, in order. */
  function Flagged<T>(items: seq<T>, bad: T -> bool, d: Diagnostic): (r: seq<Diagnostic>)
    ensures |r| <= |items|
    ensures forall i :: 0 <= i < |r| ==> r[i] == d
  {
    if items == [] then []
    else Flagged(items[..|items| - 1], bad, d) + (if bad(items[|items| - 1]) then [d] else [])
  }

  /** The positions of the `bad` items. */
  function BadPositions<T>(items: seq<T>, bad: T -> bool): set<nat> {
    set i: nat | i < |items| && bad(items[i])
  }

  function ArgDiagnostics(lineno: nat, args: seq<string>): seq<Diagnostic> {
    Flagged(args, BadArg, Diagnostic(Arg, lineno, None))
  }

  function DefaultDiagnostics(lineno: nat, defaults: seq<Expr>): seq<Diagnostic> {
    Flagged(defaults, BadDefault, Diagnostic(Default, lineno, None))
  }

  /** The assignment check over a body: the `k`-th statement (counting
      from 1) is reported at `lineno + k`. */
  function VarDiagnostics(lineno: nat, body: seq<Node>): (r: seq<Diagnostic>)
    ensures forall i :: 0 <= i < |r| ==>
      r[i].issue == Var && r[i].other == None && lineno < r[i].line <= lineno + |body|
  {
    if body == [] then []
    else VarDiagnostics(lineno, body[..|body| - 1]) +
         (if BadAssign(body[|body| - 1]) then [Diagnostic(Var, lineno + |body|, None)] else [])
  }

  /** What the visitor can report: Error10, Error11 or Error12, with the
      default text. */
  predicate TreeIssue(d: Diagnostic) {
    (d.issue == Arg || d.issue == Var || d.issue == Default) && d.other == None
  }

  /** The checks `visit_FunctionDef` makes on one definition itself, all at
      or below the definition's line. */
  function OwnDiagnostics(f: Node): (r: seq<Diagnostic>)
    requires f.FunctionDef?
    ensures forall i :: 0 <= i < |r| ==> TreeIssue(r[i]) && r[i].line >= f.lineno
  {
    ArgDiagnostics(f.lineno, f.args) + VarDiagnostics(f.lineno, f.body) + DefaultDiagnostics(f.lineno, f.defaults)
  }

  /** Everything the visitor reports on `n` and the statements inside it,
      in pre-order. */
  function NodeDiagnostics(n: Node): (r: seq<Diagnostic>)
    ensures forall i :: 0 <= i < |r| ==> TreeIssue(r[i])
    decreases n
  {
    match n
    case FunctionDef(_, _, _, body) => OwnDiagnostics(n) + BodyDiagnostics(body)
    case Module(body) => BodyDiagnostics(body)
    case ClassDef(body) => BodyDiagnostics(body)
    case Compound(body) => BodyDiagnostics(body)
    case _ => []
  }

  function BodyDiagnostics(ns: seq<Node>): (r: seq<Diagnostic>)
    ensures forall i :: 0 <= i < |r| ==> TreeIssue(r[i])
    decreases ns
  {
    if ns == [] then [] else BodyDiagnostics(ns[..|ns| - 1]) + NodeDiagnostics(ns[|ns| - 1])
  }

  /** The messages `visit_FunctionDef` adds, stage by stage, make up those
      of the definition. */
  lemma FunctionDefMessages(path: string, f: Node, e0: seq<string>, e1: seq<string>, e2: seq<string>,
                            e3: seq<string>, e4: seq<string>)
    requires f.FunctionDef?
    requires e1 == e0 + Messages(path, ArgDiagnostics(f.lineno, f.args))
    requires e2 == e1 + Messages(path, VarDiagnostics(f.lineno, f.body))
    requires e3 == e2 + Messages(path, DefaultDiagnostics(f.lineno, f.defaults))
    requires e4 == e3 + Messages(path, BodyDiagnostics(Children(f)))
    ensures e4 == e0 + Messages(path, NodeDiagnostics(f))
  {
    assert NodeDiagnostics(f) == ArgDiagnostics(f.lineno, f.args) + VarDiagnostics(f.lineno, f.body) +
      DefaultDiagnostics(f.lineno, f.defaults) + BodyDiagnostics(f.body);
    MessagesChain(path, ArgDiagnostics(f.lineno, f.args), VarDiagnostics(f.lineno, f.body),
                  DefaultDiagnostics(f.lineno, f.defaults), BodyDiagnostics(f.body), e0, e1, e2, e3, e4);
  }

  lemma MessagesChain(path: string, a: seq<Diagnostic>, b: seq<Diagnostic>, c: seq<Diagnostic>, d: seq<Diagnostic>,
                      e0: seq<string>, e1: seq<string>, e2: seq<string>, e3: seq<string>, e4: seq<string>)
    requires e1 == e0 + Messages(path, a) && e2 == e1 + Messages(path, b)
    requires e3 == e2 + Messages(path, c) && e4 == e3 + Messages(path, d)
    ensures e4 == e0 + Messages(path, a + b + c + d)
  {
    MessagesAppend(path, a, b);
    MessagesAppend(path, a + b, c);
    MessagesAppend(path, a + b + c, d);
    Reassociate(e0, Messages(path, a), Messages(path, b), Messages(path, c), Messages(path, d));
  }

  lemma Reassociate<T>(e: seq<T>, a: seq<T>, b: seq<T>, c: seq<T>, d: seq<T>)
    ensures e + a + b + c + d == e + (a + b + c + d)
  {
  }

  // ---------------------------------------------------------------------
  // Properties of the checks

  /** `Flagged` holds `d` exactly once per `bad` position. */
  lemma {:induction false} FlaggedCount<T>(items: seq<T>, bad: T -> bool, d: Diagnostic)
    ensures forall x :: x in Flagged(items, bad, d) ==> x == d
    ensures |Flagged(items, bad, d)| == |BadPositions(items, bad)|
  {
    if items != [] {
      var n := |items| - 1;
      FlaggedCount(items[..n], bad, d);
      BadPositionsSnoc(items, bad);
    }
  }

  /** One more item flags `d` once more when it is `bad`. */
  lemma FlaggedStep<T>(items: seq<T>, bad: T -> bool, d: Diagnostic, i: nat)
    requires i < |items|
    ensures Flagged(items[..i + 1], bad, d) == Flagged(items[..i], bad, d) + (if bad(items[i]) then [d] else [])
  {
    assert items[..i + 1][..i] == items[..i];
  }

  /** The last item adds its own position when it is `bad`. */
  lemma BadPositionsSnoc<T>(items: seq<T>, bad: T -> bool)
    requires items != []
    ensures var n := |items| - 1;
      BadPositions(items, bad) == BadPositions(items[..n], bad) + (if bad(items[n]) then {n} else {}) &&
      n !in BadPositions(items[..n], bad)
  {
    var n := |items| - 1;
    var front := items[..n];
    forall i: nat | i < n ensures items[i] == front[i] {
    }
  }

  /** One `Error10` at the definition's line per argument that is neither
      lower case nor has an underscore, and nothing else. */
  lemma ArgDiagnosticsCount(lineno: nat, args: seq<string>)
    ensures forall d :: d in ArgDiagnostics(lineno, args) ==> d == Diagnostic(Arg, lineno, None)
    ensures |ArgDiagnostics(lineno, args)| == |set i: nat | i < |args| && BadArg(args[i])|
  {
    FlaggedCount(args, BadArg, Diagnostic(Arg, lineno, None));
    assert BadPositions(args, BadArg) == set i: nat | i < |args| && BadArg(args[i]);
  }

  /** One `Error12` at the definition's line per default that is not a
      constant, and nothing else. */
  lemma DefaultDiagnosticsCount(lineno: nat, defaults: seq<Expr>)
    ensures forall d :: d in DefaultDiagnostics(lineno, defaults) ==> d == Diagnostic(Default, lineno, None)
    ensures |DefaultDiagnostics(lineno, defaults)| == |set i: nat | i < |defaults| && BadDefault(defaults[i])|
  {
    FlaggedCount(defaults, BadDefault, Diagnostic(Default, lineno, None));
    assert BadPositions(defaults, BadDefault) == set i: nat | i < |defaults| && BadDefault(defaults[i]);
  }

  /** `Error11` is reported at `lineno + k + 1` exactly when the statement
      at position `k` of the body (counting from 0) assigns to a name without an
      underscore; the reports come in body order. */
  lemma VarDiagnosticsIff(lineno: nat, body: seq<Node>)
    ensures forall d :: d in VarDiagnostics(lineno, body) <==>
      exists k :: 0 <= k < |body| && BadAssign(body[k]) && d == Diagnostic(Var, lineno + k + 1, None)
    ensures forall i, j :: 0 <= i < j < |VarDiagnostics(lineno, body)| ==>
      VarDiagnostics(lineno, body)[i].line < VarDiagnostics(lineno, body)[j].line
  {
    VarDiagnosticsMembers(lineno, body);
    VarDiagnosticsSorted(lineno, body);
  }

  lemma {:induction false} VarDiagnosticsMembers(lineno: nat, body: seq<Node>)
    ensures forall d :: d in VarDiagnostics(lineno, body) <==>
      exists k :: 0 <= k < |body| && BadAssign(body[k]) && d == Diagnostic(Var, lineno + k + 1, None)
  {
    if body != [] {
      var n := |body|;
      var front := body[..n - 1];
      VarDiagnosticsMembers(lineno, front);
      var ds := VarDiagnostics(lineno, body);
      forall d ensures d in ds <==>
        exists k :: 0 <= k < n && BadAssign(body[k]) && d == Diagnostic(Var, lineno + k + 1, None)
      {
        if d in VarDiagnostics(lineno, front) {
          var k :| 0 <= k < n - 1 && BadAssign(front[k]) && d == Diagnostic(Var, lineno + k + 1, None);
          assert body[k] == front[k];
        }
        if exists k :: 0 <= k < n && BadAssign(body[k]) && d == Diagnostic(Var, lineno + k + 1, None) {
          var k :| 0 <= k < n && BadAssign(body[k]) && d == Diagnostic(Var, lineno + k + 1, None);
          if k < n - 1 {
            assert front[k] == body[k];
          }
        }
      }
    }
  }

  lemma {:induction false} VarDiagnosticsSorted(lineno: nat, body: seq<Node>)
    ensures forall i, j :: 0 <= i < j < |VarDiagnostics(lineno, body)| ==>
      VarDiagnostics(lineno, body)[i].line < VarDiagnostics(lineno, body)[j].line
  {
    if body != [] {
      VarDiagnosticsSorted(lineno, body[..|body| - 1]);
    }
  }

  /** `x` appears as a contiguous stretch of `y`. */
  ghost predicate Occurs(x: seq<Diagnostic>, y: seq<Diagnostic>) {
    exists before, after :: y == before + x + after
  }

  lemma OccursWithin(x: seq<Diagnostic>, a: seq<Diagnostic>, b: seq<Diagnostic>, c: seq<Diagnostic>)
    requires Occurs(x, b)
    ensures Occurs(x, a + b + c)
  {
    var before, after :| b == before + x + after;
    assert a + b + c == (a + before) + x + (after + c);
  }

  lemma OccursAtStart(x: seq<Diagnostic>, c: seq<Diagnostic>)
    ensures Occurs(x, x + c)
  {
    assert x + c == [] + x + c;
  }

  lemma OccursAfter(x: seq<Diagnostic>, a: seq<Diagnostic>, b: seq<Diagnostic>)
    requires Occurs(x, b)
    ensures Occurs(x, a + b)
  {
    var before, after :| b == before + x + after;
    assert a + b == (a + before) + x + after;
  }

  /** `g` is a statement somewhere inside `n`. */
  ghost predicate Within(g: Node, n: Node)
    decreases n
  {
    exists k :: 0 <= k < |Children(n)| && (Children(n)[k] == g || Within(g, Children(n)[k]))
  }

  /** A node's diagnostics: its own checks when it is a definition, then
      those of the statements inside it. */
  lemma NodeDiagnosticsShape(n: Node)
    ensures NodeDiagnostics(n) == (if n.FunctionDef? then OwnDiagnostics(n) else []) + BodyDiagnostics(Children(n))
  {
  }

  lemma {:induction false} BodyDiagnosticsAppend(a: seq<Node>, b: seq<Node>)
    ensures BodyDiagnostics(a + b) == BodyDiagnostics(a) + BodyDiagnostics(b)
    decreases |b|
  {
    if b == [] {
      assert a + b == a;
    } else {
      var n := |b| - 1;
      assert (a + b)[..|a + b| - 1] == a + b[..n];
      BodyDiagnosticsAppend(a, b[..n]);
    }
  }

  /** The statement at position `k` contributes one contiguous stretch. */
  lemma BodyDiagnosticsAt(ns: seq<Node>, k: nat)
    requires k < |ns|
    ensures BodyDiagnostics(ns) == BodyDiagnostics(ns[..k]) + NodeDiagnostics(ns[k]) + BodyDiagnostics(ns[k + 1..])
  {
    BodyDiagnosticsPrefix(ns, k);
    BodyDiagnosticsSplit(ns, k + 1);
  }

  lemma BodyDiagnosticsSplit(ns: seq<Node>, k: nat)
    requires k <= |ns|
    ensures BodyDiagnostics(ns) == BodyDiagnostics(ns[..k]) + BodyDiagnostics(ns[k..])
  {
    assert ns == ns[..k] + ns[k..];
    BodyDiagnosticsAppend(ns[..k], ns[k..]);
  }

  lemma BodyDiagnosticsPrefix(ns: seq<Node>, k: nat)
    requires k < |ns|
    ensures BodyDiagnostics(ns[..k + 1]) == BodyDiagnostics(ns[..k]) + NodeDiagnostics(ns[k])
  {
    assert ns[..k + 1][..k] == ns[..k];
  }

  /** The own checks of every definition nested anywhere inside `n` appear,
      together and in their order, among the diagnostics of `n`'s body. */
  lemma {:induction false} NestedOccurs(n: Node, g: Node)
    requires g.FunctionDef? && Within(g, n)
    ensures Occurs(OwnDiagnostics(g), BodyDiagnostics(Children(n)))
    decreases n
  {
    var ch := Children(n);
    var k :| 0 <= k < |ch| && (ch[k] == g || Within(g, ch[k]));
    BodyDiagnosticsAt(ch, k);
    NodeDiagnosticsShape(ch[k]);
    var own := if ch[k].FunctionDef? then OwnDiagnostics(ch[k]) else [];
    var inner := BodyDiagnostics(Children(ch[k]));
    if ch[k] == g {
      OccursAtStart(own, inner);
    } else {
      NestedOccurs(ch[k], g);
      OccursAfter(OwnDiagnostics(g), own, inner);
    }
    OccursWithin(OwnDiagnostics(g), BodyDiagnostics(ch[..k]), NodeDiagnostics(ch[k]), BodyDiagnostics(ch[k + 1..]));
  }

  /** Pre-order: a definition's own reports come first, and those of every
      definition nested in it follow, each kept together. */
  lemma OuterBeforeNested(f: Node, g: Node)
    requires f.FunctionDef? && g.FunctionDef? && Within(g, f)
    ensures var ds := NodeDiagnostics(f);
      |OwnDiagnostics(f)| <= |ds| && ds[..|OwnDiagnostics(f)|] == OwnDiagnostics(f) &&
      Occurs(OwnDiagnostics(g), ds[|OwnDiagnostics(f)|..])
  {
    NestedOccurs(f, g);
    var own := OwnDiagnostics(f);
    assert NodeDiagnostics(f) == own + BodyDiagnostics(f.body);
    assert NodeDiagnostics(f)[|own|..] == BodyDiagnostics(f.body);
  }

  /** A definition with a camel-case argument, an assignment to a one-word
      name and a list default: one report of each kind, the assignment at the
      line after the definition. A one-word name without an underscore is
      reported even though it is lower case. */
  lemma VisitExample(tree: seq<Node>)
    requires tree == [FunctionDef(1, ["myArg", "x"], [List], [Assign(Name("total"), [], Constant), Other])]
    ensures NodeDiagnostics(Module(tree)) ==
      [Diagnostic(Arg, 1, None), Diagnostic(Var, 2, None), Diagnostic(Default, 1, None)]
  {
    var f := tree[0];
    ExampleArgs(f.args);
    ExampleBody(f.body);
    ExampleDefaults(f.defaults);
    assert NodeDiagnostics(f) == [Diagnostic(Arg, 1, None)] + [Diagnostic(Var, 2, None)] + [Diagnostic(Default, 1, None)];
    assert tree[..0] == [];
  }

  lemma ExampleArgs(args: seq<string>)
    requires args == ["myArg", "x"]
    ensures ArgDiagnostics(1, args) == [Diagnostic(Arg, 1, None)]
  {
    assert BadArg("myArg") by { assert IsUpper("myArg"[2]); }
    assert !BadArg("x") by { assert IsLowerLetter("x"[0]); }
    assert args[..1] == ["myArg"] && args[..1][..0] == [];
    var d := Diagnostic(Arg, 1, None);
    assert Flagged(args[..1], BadArg, d) == Flagged(args[..1][..0], BadArg, d) + [d];
    assert Flagged(args, BadArg, d) == Flagged(args[..1], BadArg, d);
  }

  lemma ExampleBody(body: seq<Node>)
    requires body == [Assign(Name("total"), [], Constant), Other]
    ensures VarDiagnostics(1, body) == [Diagnostic(Var, 2, None)]
    ensures BodyDiagnostics(body) == []
  {
    assert '_' !in "total";
    assert body[..1] == [Assign(Name("total"), [], Constant)] && body[..1][..0] == [];
    assert VarDiagnostics(1, body[..1]) == [Diagnostic(Var, 2, None)];
    assert BodyDiagnostics(body[..1]) == [];
  }

  lemma ExampleDefaults(defaults: seq<Expr>)
    requires defaults == [List]
    ensures DefaultDiagnostics(1, defaults) == [Diagnostic(Default, 1, None)]
  {
    var d := Diagnostic(Default, 1, None);
    assert defaults[..0] == [] && BadDefault(defaults[0]);
    assert Flagged(defaults, BadDefault, d) == Flagged(defaults[..0], BadDefault, d) + [d];
  }

  // ---------------------------------------------------------------------
  // The visitor

  /** `ArgumentVisitor`: walks the tree and collects the rendered messages. */
  class ArgumentVisitor {
    var errors: seq<string>
    /** The file the messages name. */
    const path: string

    constructor(path: string)
      ensures this.path == path && errors == []
    {
      this.path := path;
      errors := [];
    }

    /** `visit`: definitions get the checks, everything else is walked through. */
    method Visit(node: Node)
      modifies this
      decreases node, 2
      ensures errors == old(errors) + Messages(path, NodeDiagnostics(node))
    {
      if node.FunctionDef? {
        VisitFunctionDef(node);
      } else {
        GenericVisit(node);
        assert NodeDiagnostics(node) == BodyDiagnostics(Children(node));
      }
    }

    /** `visit_FunctionDef`: the argument, assignment and default checks on
        the definition, then the statements inside it. */
    method VisitFunctionDef(node: Node)
      requires node.FunctionDef?
      modifies this
      decreases node, 1
      ensures errors == old(errors) + Messages(path, NodeDiagnostics(node))
    {
      var lineNo := node.lineno;
      CheckArgs(lineNo, node.args);
      ghost var e1 := errors;
      CheckAssignments(lineNo, node.body);
      ghost var e2 := errors;
      CheckDefaults(lineNo, node.defaults);
      ghost var e3 := errors;
      GenericVisit(node);
      FunctionDefMessages(path, node, old(errors), e1, e2, e3, errors);
    }

    /** The argument loop of `visit_FunctionDef`: one message per badly
        named argument. */
    method CheckArgs(lineNo: nat, funArgs: seq<string>)
      modifies this
      ensures errors == old(errors) + Messages(path, ArgDiagnostics(lineNo, funArgs))
    {
      NoMessages(path, errors);
      for i := 0 to |funArgs|
        invariant errors == old(errors) + Messages(path, ArgDiagnostics(lineNo, funArgs[..i]))
      {
        var arg := funArgs[i];
        ghost var prev := errors;
        ghost var step := if BadArg(arg) then [Diagnostic(Arg, lineNo, None)] else [];
        MessagesSingle(path, Diagnostic(Arg, lineNo, None));
        NoMessages(path, prev);
        if !IsLower(arg) && '_' !in arg {
          errors := errors + [Message(path, Diagnostic(Arg, lineNo, None))];
        }
        ExtendMessages(path, old(errors), ArgDiagnostics(lineNo, funArgs[..i]), step, prev);
        FlaggedStep(funArgs, BadArg, Diagnostic(Arg, lineNo, None), i);
        assert funArgs[..i + 1][..i] == funArgs[..i];
      }
      assert funArgs[..|funArgs|] == funArgs;
    }

    /** The body loop of `visit_FunctionDef`: the `item_line` counter numbers
        the statements from 1, and an assignment to a name without an
        underscore is reported at the definition's line plus that number. */
    method CheckAssignments(lineNo: nat, body: seq<Node>)
      modifies this
      ensures errors == old(errors) + Messages(path, VarDiagnostics(lineNo, body))
    {
      var itemLine := 0;
      NoMessages(path, errors);
      for k := 0 to |body|
        invariant itemLine == k
        invariant errors == old(errors) + Messages(path, VarDiagnostics(lineNo, body[..k]))
      {
        var item := body[k];
        itemLine := itemLine + 1;
        ghost var prev := errors;
        ghost var step := if BadAssign(item) then [Diagnostic(Var, lineNo + itemLine, None)] else [];
        MessagesSingle(path, Diagnostic(Var, lineNo + itemLine, None));
        NoMessages(path, prev);
        if item.Assign? && item.target.Name? {
          if '_' !in item.target.id {
            errors := errors + [Message(path, Diagnostic(Var, lineNo + itemLine, None))];
          }
        }
        ExtendMessages(path, old(errors), VarDiagnostics(lineNo, body[..k]), step, prev);
        assert body[..k + 1][..k] == body[..k];
      }
      assert body[..|body|] == body;
    }

    /** The defaults loop of `visit_FunctionDef`: one message per default
        that is not a constant. */
    method CheckDefaults(lineNo: nat, defaults: seq<Expr>)
      modifies this
      ensures errors == old(errors) + Messages(path, DefaultDiagnostics(lineNo, defaults))
    {
      NoMessages(path, errors);
      for i := 0 to |defaults|
        invariant errors == old(errors) + Messages(path, DefaultDiagnostics(lineNo, defaults[..i]))
      {
        var default := defaults[i];
        ghost var prev := errors;
        ghost var step := if BadDefault(default) then [Diagnostic(Default, lineNo, None)] else [];
        MessagesSingle(path, Diagnostic(Default, lineNo, None));
        NoMessages(path, prev);
        if !default.Constant? {
          errors := errors + [Message(path, Diagnostic(Default, lineNo, None))];
        }
        ExtendMessages(path, old(errors), DefaultDiagnostics(lineNo, defaults[..i]), step, prev);
        FlaggedStep(defaults, BadDefault, Diagnostic(Default, lineNo, None), i);
        assert defaults[..i + 1][..i] == defaults[..i];
      }
      assert defaults[..|defaults|] == defaults;
    }

    /** `generic_visit`: every statement inside `node`, in order. */
    method GenericVisit(node: Node)
      modifies this
      decreases node, 0
      ensures errors == old(errors) + Messages(path, BodyDiagnostics(Children(node)))
    {
      NoMessages(path, errors);
      var kids := Children(node);
      for i := 0 to |kids|
        invariant errors == old(errors) + Messages(path, BodyDiagnostics(kids[..i]))
      {
        ghost var prev := errors;
        Visit(kids[i]);
        ExtendMessages(path, old(errors), BodyDiagnostics(kids[..i]), NodeDiagnostics(kids[i]), prev);
        assert kids[..i + 1][..i] == kids[..i];
      }
      assert kids[..|kids|] == kids;
    }

    /** `get_node_errors`. */
    method GetNodeErrors() returns (r: seq<string>)
      ensures r == errors
    {
      r := errors;
    }
  }

  /** `ast_checks` over the statements of a parsed module. */
  method AstChecks(path: string, tree: seq<Node>) returns (r: seq<string>)
    ensures r == Messages(path, NodeDiagnostics(Module(tree)))
  {
    var visitor := new ArgumentVisitor(path);
    visitor.Visit(Module(tree));
    r := visitor.GetNodeErrors();
  }
}
