/**
 * `PythonAnalyzer` and `parse_python_source` (utils.py:55-122).
 *
 * `Walk` is the specification: the facts a pre-order visit of a node records
 * when it starts in a given scope, with the scope threaded as a value.
 * The class `PythonAnalyzer` is the visitor itself, appending to its lists and
 * saving and restoring its scope fields, and is proved to record exactly `Walk`.
 */
module Analyzer {
  import opened Wrappers
  import opened Text
  import opened PyAst
  import opened Records

  /** The visitor's `current_class` and `current_function`. */
  datatype Scope = Scope(currentClass: Option<string>, currentFunction: Option<string>)

  const TopScope: Scope := Scope(None, None)

  /** The name a `def` is recorded under: `"<class>.<name>"` inside a class scope, else `name`. */
  function QualName(currentClass: Option<string>, name: string): string
  {
    if Truthy(currentClass) then currentClass.value + "." + name else name
  }

  /** `getattr(b, 'id', getattr(b, 'attr', None))` for one base expression. */
  function BaseId(b: Node): Option<string>
  {
    match b
    case Name(id) => Some(id)
    case Attribute(_, attr) => Some(attr)
    case _ => None
  }

  function BaseIds(bases: seq<Node>): (r: seq<Option<string>>)
    ensures |r| == |bases|
    ensures forall i :: 0 <= i < |bases| ==> r[i] == BaseId(bases[i])
  {
    seq(|bases|, i requires 0 <= i < |bases| => BaseId(bases[i]))
  }

  /** The innermost value of an attribute chain: `obj` in `obj.foo.bar`. */
  function Root(n: Node): Node
  {
    match n
    case Attribute(value, _) => Root(value)
    case _ => n
  }

  /** The attribute names of a chain, root to leaf: `["foo", "bar"]` in `obj.foo.bar`. */
  function Attrs(n: Node): seq<string>
  {
    match n
    case Attribute(value, attr) => Attrs(value) + [attr]
    case _ => []
  }

  /** The pieces of a callee's name: the root's identifier when the root is a `Name`, then the attributes. */
  function ChainSegments(n: Node): seq<string>
  {
    (if Root(n).Name? then [Root(n).id] else []) + Attrs(n)
  }

  /** The callee name `visit_Call` computes, `None` for a callee that is neither a name nor an attribute. */
  function CalleeName(func: Node): Option<string>
  {
    match func
    case Name(id) => Some(id)
    case Attribute(_, _) => Some(Join(".", ChainSegments(func)))
    case _ => None
  }

  /** The facts recorded by `visit(n)` when the visitor's scope is `s`. */
  function Walk(n: Node, s: Scope): Facts
    decreases n, 1
  {
    match n
    case FunctionDef(name, line, params, _) =>
      var q := QualName(s.currentClass, name);
      Facts([FunctionFact(q, line, params)], [], []).Then(GenericWalk(n, s.(currentFunction := Some(q))))
    case ClassDef(name, line, bases, _) =>
      Facts([], [ClassFact(name, line, BaseIds(bases))], []).Then(GenericWalk(n, s.(currentClass := Some(name))))
    case Call(func, _) =>
      var fname := CalleeName(func);
      var own := if Truthy(fname) && Truthy(s.currentFunction)
        then Facts([], [], [CallFact(s.currentFunction.value, fname.value)])
        else Empty;
      own.Then(GenericWalk(n, s))
    case _ => GenericWalk(n, s)
  }

  /** The facts recorded by `generic_visit(n)`: its children, in field order, in scope `s`. */
  function GenericWalk(n: Node, s: Scope): Facts
    decreases n, 0
  {
    match n
    case FunctionDef(_, _, _, body) => WalkAll(body, s)
    case AsyncFunctionDef(_, _, _, body) => WalkAll(body, s)
    case ClassDef(_, _, bases, body) => WalkAll(bases, s).Then(WalkAll(body, s))
    case Call(func, args) => Walk(func, s).Then(WalkAll(args, s))
    case Name(_) => Empty
    case Attribute(value, _) => Walk(value, s)
    case Other(children) => WalkAll(children, s)
  }

  /** The facts recorded by visiting each node of `ns` in turn, all in scope `s`. */
  function WalkAll(ns: seq<Node>, s: Scope): Facts
  {
    if ns == [] then Empty else WalkAll(ns[..|ns| - 1], s).Then(Walk(ns[|ns| - 1], s))
  }

  /** The attribute-chain loop of `visit_Call` (utils.py:92-105). */
  method ResolveCallee(func: Node) returns (fname: Option<string>)
    ensures fname == CalleeName(func)
  {
    fname := None;
    if func.Name? {
      fname := Some(func.id);
    } else if func.Attribute? {
      var attr: seq<string> := [];
      var cur := func;
      while cur.Attribute?
        invariant Root(cur) == Root(func)
        invariant Attrs(func) == Attrs(cur) + Reversed(attr)
        decreases cur
      {
        assert Reversed(attr + [cur.attr]) == [cur.attr] + Reversed(attr) by {
          assert (attr + [cur.attr])[..|attr|] == attr;
        }
        attr := attr + [cur.attr];
        cur := cur.value;
      }
      assert Root(cur) == cur && Attrs(cur) == [];
      if cur.Name? {
        assert Reversed(attr + [cur.id]) == [cur.id] + Reversed(attr) by {
          assert (attr + [cur.id])[..|attr|] == attr;
        }
        attr := attr + [cur.id];
      }
      assert Reversed(attr) == ChainSegments(func);
      fname := Some(Join(".", Reversed(attr)));
    }
  }

  class PythonAnalyzer {
    var functions: seq<FunctionFact>
    var classes: seq<ClassFact>
    var calls: seq<CallFact>
    var currentFunction: Option<string>
    var currentClass: Option<string>

    /** The three lists recorded so far. */
    function Recorded(): Facts
      reads this
    {
      Facts(functions, classes, calls)
    }

    function CurrentScope(): Scope
      reads this
    {
      Scope(currentClass, currentFunction)
    }

    constructor ()
      ensures Recorded() == Empty && CurrentScope() == TopScope
    {
      functions := [];
      classes := [];
      calls := [];
      currentFunction := None;
      currentClass := None;
    }

    /** `visit(n)`: dispatch to the handler for the node's kind, else `generic_visit`. */
    method Visit(n: Node)
      modifies this
      ensures Recorded() == old(Recorded()).Then(Walk(n, old(CurrentScope())))
      ensures CurrentScope() == old(CurrentScope())
      decreases n, 2
    {
      match n
      case FunctionDef(_, _, _, _) => VisitFunctionDef(n);
      case ClassDef(_, _, _, _) => VisitClassDef(n);
      case Call(_, _) => VisitCall(n);
      case _ => GenericVisit(n);
    }

    method VisitFunctionDef(n: Node)
      requires n.FunctionDef?
      modifies this
      ensures Recorded() == old(Recorded()).Then(Walk(n, old(CurrentScope())))
      ensures CurrentScope() == old(CurrentScope())
      decreases n, 1
    {
      var name := n.name;
      var qualname := name;
      if Truthy(currentClass) {
        qualname := currentClass.value + "." + name;
      }
      functions := functions + [FunctionFact(qualname, n.line, n.params)];
      var prev := currentFunction;
      currentFunction := Some(qualname);
      GenericVisit(n);
      currentFunction := prev;
    }

    method VisitClassDef(n: Node)
      requires n.ClassDef?
      modifies this
      ensures Recorded() == old(Recorded()).Then(Walk(n, old(CurrentScope())))
      ensures CurrentScope() == old(CurrentScope())
      decreases n, 1
    {
      var name := n.name;
      classes := classes + [ClassFact(name, n.line, BaseIds(n.bases))];
      var prevClass := currentClass;
      currentClass := Some(name);
      GenericVisit(n);
      currentClass := prevClass;
    }

    method VisitCall(n: Node)
      requires n.Call?
      modifies this
      ensures Recorded() == old(Recorded()).Then(Walk(n, old(CurrentScope())))
      ensures CurrentScope() == old(CurrentScope())
      decreases n, 1
    {
      var fname := ResolveCallee(n.func);
      if Truthy(fname) && Truthy(currentFunction) {
        calls := calls + [CallFact(currentFunction.value, fname.value)];
      }
      GenericVisit(n);
    }

    /** `generic_visit(n)`: visit every child node, field by field. */
    method GenericVisit(n: Node)
      modifies this
      ensures Recorded() == old(Recorded()).Then(GenericWalk(n, old(CurrentScope())))
      ensures CurrentScope() == old(CurrentScope())
      decreases n, 0
    {
      match n
      case FunctionDef(_, _, _, body) => VisitEach(body);
      case AsyncFunctionDef(_, _, _, body) => VisitEach(body);
      case ClassDef(_, _, bases, body) =>
        VisitEach(bases);
        VisitEach(body);
      case Call(func, args) =>
        Visit(func);
        VisitEach(args);
      case Name(_) =>
      case Attribute(value, _) => Visit(value);
      case Other(children) => VisitEach(children);
    }

    /** The loop of `generic_visit` over one list-valued field. */
    method VisitEach(ns: seq<Node>)
      modifies this
      ensures Recorded() == old(Recorded()).Then(WalkAll(ns, old(CurrentScope())))
      ensures CurrentScope() == old(CurrentScope())
    {
      for i := 0 to |ns|
        invariant Recorded() == old(Recorded()).Then(WalkAll(ns[..i], old(CurrentScope())))
        invariant CurrentScope() == old(CurrentScope())
      {
        Visit(ns[i]);
        assert ns[..i + 1][..i] == ns[..i];
      }
      assert ns[..|ns|] == ns;
    }
  }

  /** What `parse_python_source` returns for a parse result: empty facts when parsing failed. */
  function PythonFacts(tree: Option<Node>): Facts
  {
    match tree
    case None => Empty
    case Some(t) => Walk(t, TopScope)
  }

  /**
   * `parse_python_source(content)`; `parse` stands for `ast.parse`, `None`
   * meaning that it raised.
   */
  method ParsePythonSource(content: string, parse: string -> Option<Node>) returns (facts: Facts)
    ensures parse(content).None? ==> facts == Empty
    ensures parse(content).Some? ==> facts == Walk(parse(content).value, TopScope)
  {
    var analyzer := new PythonAnalyzer();
    var tree := parse(content);
    if tree.Some? {
      analyzer.Visit(tree.value);
    }
    facts := analyzer.Recorded();
  }
}
