/** Properties of the facts the analyzer records (utils.py:63-122). */
module AnalyzerProps {
  import opened Wrappers
  import opened Text
  import opened PyAst
  import opened Records
  import opened Analyzer

  // ----- Visiting a list of siblings -----

  /** Visiting `a + b` records the facts of `a`, then those of `b`, all in the same scope. */
  lemma {:induction false} WalkAllConcat(a: seq<Node>, b: seq<Node>, s: Scope)
    ensures WalkAll(a + b, s) == WalkAll(a, s).Then(WalkAll(b, s))
  {
    if b == [] {
      assert a + b == a;
    } else {
      var b' := b[..|b| - 1];
      assert (a + b)[..|a + b| - 1] == a + b';
      WalkAllConcat(a, b', s);
    }
  }

  // ----- Call facts: only inside a function, and named -----

  /** The callers a scope can contribute directly: its current function, when truthy. */
  function ScopeCallers(s: Scope): seq<string>
  {
    if Truthy(s.currentFunction) then [s.currentFunction.value] else []
  }

  /**
   * Every call fact has a non-empty caller and callee, and its caller is the
   * scope's current function or a function recorded in the same facts.
   */
  ghost predicate CallsKnown(f: Facts, s: Scope)
  {
    forall c :: c in f.calls ==>
      c.caller != "" && c.callee != "" && (c.caller in ScopeCallers(s) || c.caller in Names(f.functions))
  }

  lemma NamesConcat(a: seq<FunctionFact>, b: seq<FunctionFact>)
    ensures Names(a + b) == Names(a) + Names(b)
  {
  }

  lemma ThenCallsKnown(a: Facts, b: Facts, s: Scope)
    requires CallsKnown(a, s) && CallsKnown(b, s)
    ensures CallsKnown(a.Then(b), s)
  {
    NamesConcat(a.functions, b.functions);
  }

  lemma {:induction false} WalkCallsKnown(n: Node, s: Scope)
    ensures CallsKnown(Walk(n, s), s)
    decreases n, 1
  {
    match n
    case FunctionDef(name, line, params, _) =>
      var q := QualName(s.currentClass, name);
      var s' := s.(currentFunction := Some(q));
      var own := Facts([FunctionFact(q, line, params)], [], []);
      var inner := GenericWalk(n, s');
      GenericWalkCallsKnown(n, s');
      NamesConcat(own.functions, inner.functions);
      assert Names(own.functions) == [q];
    case ClassDef(name, _, _, _) =>
      GenericWalkCallsKnown(n, s.(currentClass := Some(name)));
      NamesConcat([], GenericWalk(n, s.(currentClass := Some(name))).functions);
    case Call(func, _) =>
      GenericWalkCallsKnown(n, s);
      var fname := CalleeName(func);
      var own := if Truthy(fname) && Truthy(s.currentFunction)
        then Facts([], [], [CallFact(s.currentFunction.value, fname.value)])
        else Empty;
      assert CallsKnown(own, s);
      ThenCallsKnown(own, GenericWalk(n, s), s);
    case _ =>
      GenericWalkCallsKnown(n, s);
  }

  lemma {:induction false} GenericWalkCallsKnown(n: Node, s: Scope)
    ensures CallsKnown(GenericWalk(n, s), s)
    decreases n, 0
  {
    match n
    case FunctionDef(_, _, _, body) => WalkAllCallsKnown(body, s);
    case AsyncFunctionDef(_, _, _, body) => WalkAllCallsKnown(body, s);
    case ClassDef(_, _, bases, body) =>
      WalkAllCallsKnown(bases, s);
      WalkAllCallsKnown(body, s);
      ThenCallsKnown(WalkAll(bases, s), WalkAll(body, s), s);
    case Call(func, args) =>
      WalkCallsKnown(func, s);
      WalkAllCallsKnown(args, s);
      ThenCallsKnown(Walk(func, s), WalkAll(args, s), s);
    case Name(_) =>
    case Attribute(value, _) => WalkCallsKnown(value, s);
    case Other(children) => WalkAllCallsKnown(children, s);
  }

  lemma {:induction false} WalkAllCallsKnown(ns: seq<Node>, s: Scope)
    ensures CallsKnown(WalkAll(ns, s), s)
  {
    if ns != [] {
      WalkAllCallsKnown(ns[..|ns| - 1], s);
      WalkCallsKnown(ns[|ns| - 1], s);
      ThenCallsKnown(WalkAll(ns[..|ns| - 1], s), Walk(ns[|ns| - 1], s), s);
    }
  }

  // ----- Function facts follow the `def` statements -----

  /** The names of the `def` statements in `n`, in pre-order (`async def` is not one). */
  function DefNames(n: Node): seq<string>
    decreases n, 1
  {
    match n
    case FunctionDef(name, _, _, _) => [name] + ChildDefNames(n)
    case _ => ChildDefNames(n)
  }

  function ChildDefNames(n: Node): seq<string>
    decreases n, 0
  {
    match n
    case FunctionDef(_, _, _, body) => DefNamesAll(body)
    case AsyncFunctionDef(_, _, _, body) => DefNamesAll(body)
    case ClassDef(_, _, bases, body) => DefNamesAll(bases) + DefNamesAll(body)
    case Call(func, args) => DefNames(func) + DefNamesAll(args)
    case Name(_) => []
    case Attribute(value, _) => DefNames(value)
    case Other(children) => DefNamesAll(children)
  }

  function DefNamesAll(ns: seq<Node>): seq<string>
  {
    if ns == [] then [] else DefNamesAll(ns[..|ns| - 1]) + DefNames(ns[|ns| - 1])
  }

  /** `q` is `name`, or `name` qualified by some class: `"<c>.<name>"`. */
  predicate QualifiedFrom(q: string, name: string)
  {
    q == name || (|q| > |name| && q[|q| - |name| - 1] == '.' && q[|q| - |name|..] == name)
  }

  /** The i-th recorded function is an analyzer entry named after the i-th `def`. */
  ghost predicate FollowsDefs(fs: seq<FunctionFact>, names: seq<string>)
  {
    |fs| == |names| && forall i :: 0 <= i < |fs| ==> fs[i].FunctionFact? && QualifiedFrom(fs[i].name, names[i])
  }

  lemma FollowsDefsConcat(a: seq<FunctionFact>, na: seq<string>, b: seq<FunctionFact>, nb: seq<string>)
    requires FollowsDefs(a, na) && FollowsDefs(b, nb)
    ensures FollowsDefs(a + b, na + nb)
  {
    forall i | 0 <= i < |a + b|
      ensures (a + b)[i].FunctionFact? && QualifiedFrom((a + b)[i].name, (na + nb)[i])
    {
      if i >= |a| {
        assert (a + b)[i] == b[i - |a|] && (na + nb)[i] == nb[i - |a|];
      }
    }
  }

  lemma QualNameQualifies(c: Option<string>, name: string)
    ensures QualifiedFrom(QualName(c, name), name)
  {
    if Truthy(c) {
      var q := c.value + "." + name;
      assert q[|q| - |name|..] == name;
    }
  }

  /**
   * The functions a visit records are the `def` statements of the tree in
   * pre-order, each under its bare or class-qualified name; `async def` is never recorded.
   */
  lemma {:induction false} WalkFollowsDefs(n: Node, s: Scope)
    ensures FollowsDefs(Walk(n, s).functions, DefNames(n))
    decreases n, 1
  {
    match n
    case FunctionDef(name, line, params, _) =>
      var q := QualName(s.currentClass, name);
      GenericWalkFollowsDefs(n, s.(currentFunction := Some(q)));
      QualNameQualifies(s.currentClass, name);
      FollowsDefsConcat([FunctionFact(q, line, params)], [name],
        GenericWalk(n, s.(currentFunction := Some(q))).functions, ChildDefNames(n));
    case ClassDef(name, _, _, _) =>
      GenericWalkFollowsDefs(n, s.(currentClass := Some(name)));
      assert [] + GenericWalk(n, s.(currentClass := Some(name))).functions
          == GenericWalk(n, s.(currentClass := Some(name))).functions;
    case Call(_, _) =>
      GenericWalkFollowsDefs(n, s);
    case _ =>
      GenericWalkFollowsDefs(n, s);
  }

  lemma {:induction false} GenericWalkFollowsDefs(n: Node, s: Scope)
    ensures FollowsDefs(GenericWalk(n, s).functions, ChildDefNames(n))
    decreases n, 0
  {
    match n
    case FunctionDef(_, _, _, body) => WalkAllFollowsDefs(body, s);
    case AsyncFunctionDef(_, _, _, body) => WalkAllFollowsDefs(body, s);
    case ClassDef(_, _, bases, body) =>
      WalkAllFollowsDefs(bases, s);
      WalkAllFollowsDefs(body, s);
      FollowsDefsConcat(WalkAll(bases, s).functions, DefNamesAll(bases), WalkAll(body, s).functions, DefNamesAll(body));
    case Call(func, args) =>
      WalkFollowsDefs(func, s);
      WalkAllFollowsDefs(args, s);
      FollowsDefsConcat(Walk(func, s).functions, DefNames(func), WalkAll(args, s).functions, DefNamesAll(args));
    case Name(_) =>
    case Attribute(value, _) => WalkFollowsDefs(value, s);
    case Other(children) => WalkAllFollowsDefs(children, s);
  }

  lemma {:induction false} WalkAllFollowsDefs(ns: seq<Node>, s: Scope)
    ensures FollowsDefs(WalkAll(ns, s).functions, DefNamesAll(ns))
  {
    if ns != [] {
      var init := ns[..|ns| - 1];
      var last := ns[|ns| - 1];
      WalkAllFollowsDefs(init, s);
      WalkFollowsDefs(last, s);
      FollowsDefsConcat(WalkAll(init, s).functions, DefNamesAll(init), Walk(last, s).functions, DefNames(last));
    }
  }

  lemma HeadIsMember<T>(xs: seq<T>)
    requires xs != []
    ensures xs[0] in xs
  {
  }

  /** Module-level and class-body calls are dropped: with no current function and no `def`, no call is recorded. */
  lemma CallsNeedFunctionScope(n: Node, s: Scope)
    requires !Truthy(s.currentFunction) && DefNames(n) == []
    ensures Walk(n, s).calls == []
  {
    WalkCallsKnown(n, s);
    WalkFollowsDefs(n, s);
    var f := Walk(n, s);
    assert Names(f.functions) == [];
    if f.calls != [] {
      HeadIsMember(f.calls);
      assert false;
    }
  }

  // ----- Qualified names when no class is nested -----

  /** No `class` statement anywhere in the tree. */
  predicate ClassFree(n: Node)
    decreases n, 1
  {
    !n.ClassDef? && ChildrenClassFree(n)
  }

  predicate ChildrenClassFree(n: Node)
    decreases n, 0
  {
    match n
    case FunctionDef(_, _, _, body) => AllClassFree(body)
    case AsyncFunctionDef(_, _, _, body) => AllClassFree(body)
    case ClassDef(_, _, bases, body) => AllClassFree(bases) && AllClassFree(body)
    case Call(func, args) => ClassFree(func) && AllClassFree(args)
    case Name(_) => true
    case Attribute(value, _) => ClassFree(value)
    case Other(children) => AllClassFree(children)
  }

  predicate AllClassFree(ns: seq<Node>)
  {
    ns == [] || (AllClassFree(ns[..|ns| - 1]) && ClassFree(ns[|ns| - 1]))
  }

  /** Each name is the corresponding `def` name under the class prefix `cls` (if truthy). */
  ghost predicate QualifiedBy(fs: seq<FunctionFact>, names: seq<string>, cls: Option<string>)
  {
    |fs| == |names| && forall i :: 0 <= i < |fs| ==> fs[i].name == QualName(cls, names[i])
  }

  lemma QualifiedByConcat(a: seq<FunctionFact>, na: seq<string>, b: seq<FunctionFact>, nb: seq<string>, cls: Option<string>)
    requires QualifiedBy(a, na, cls) && QualifiedBy(b, nb, cls)
    ensures QualifiedBy(a + b, na + nb, cls)
  {
    forall i | 0 <= i < |a + b|
      ensures (a + b)[i].name == QualName(cls, (na + nb)[i])
    {
      if i >= |a| {
        assert (a + b)[i] == b[i - |a|] && (na + nb)[i] == nb[i - |a|];
      }
    }
  }

  /**
   * Without nested classes every function, however deeply nested in other
   * functions, is named after the scope's class: a function defined inside a
   * method still gets the `"<class>."` prefix.
   */
  lemma {:induction false} ClassFreeQualification(n: Node, s: Scope)
    requires ClassFree(n)
    ensures QualifiedBy(Walk(n, s).functions, DefNames(n), s.currentClass)
    decreases n, 1
  {
    match n
    case FunctionDef(name, line, params, _) =>
      var q := QualName(s.currentClass, name);
      var s' := s.(currentFunction := Some(q));
      GenericClassFreeQualification(n, s');
      QualifiedByConcat([FunctionFact(q, line, params)], [name],
        GenericWalk(n, s').functions, ChildDefNames(n), s.currentClass);
    case Call(func, _) =>
      var fname := CalleeName(func);
      GenericClassFreeQualification(n, s);
      assert Walk(n, s).functions == GenericWalk(n, s).functions;
    case AsyncFunctionDef(_, _, _, _) => GenericClassFreeQualification(n, s);
    case Name(_) =>
    case Attribute(_, _) => GenericClassFreeQualification(n, s);
    case Other(_) => GenericClassFreeQualification(n, s);
  }

  lemma {:induction false} GenericClassFreeQualification(n: Node, s: Scope)
    requires ChildrenClassFree(n) && !n.ClassDef?
    ensures QualifiedBy(GenericWalk(n, s).functions, ChildDefNames(n), s.currentClass)
    decreases n, 0
  {
    match n
    case FunctionDef(_, _, _, body) => AllClassFreeQualification(body, s);
    case AsyncFunctionDef(_, _, _, body) => AllClassFreeQualification(body, s);
    case Call(func, args) =>
      ClassFreeQualification(func, s);
      AllClassFreeQualification(args, s);
      QualifiedByConcat(Walk(func, s).functions, DefNames(func), WalkAll(args, s).functions, DefNamesAll(args), s.currentClass);
    case Name(_) =>
    case Attribute(value, _) => ClassFreeQualification(value, s);
    case Other(children) => AllClassFreeQualification(children, s);
  }

  lemma {:induction false} AllClassFreeQualification(ns: seq<Node>, s: Scope)
    requires AllClassFree(ns)
    ensures QualifiedBy(WalkAll(ns, s).functions, DefNamesAll(ns), s.currentClass)
  {
    if ns != [] {
      var init := ns[..|ns| - 1];
      var last := ns[|ns| - 1];
      AllClassFreeQualification(init, s);
      ClassFreeQualification(last, s);
      QualifiedByConcat(WalkAll(init, s).functions, DefNamesAll(init), Walk(last, s).functions, DefNames(last), s.currentClass);
    }
  }

  /** All methods of a class without nested classes are recorded as `"<class>.<name>"`. */
  lemma MethodsQualified(name: string, line: int, body: seq<Node>, s: Scope)
    requires name != "" && AllClassFree(body)
    ensures QualifiedBy(Walk(ClassDef(name, line, [], body), s).functions, DefNamesAll(body), Some(name))
  {
    var s' := s.(currentClass := Some(name));
    AllClassFreeQualification(body, s');
    assert WalkAll([], s') == Empty;
  }

  // ----- Callee names -----

  /** Every identifier along an attribute chain is free of dots, as Python identifiers are. */
  predicate DotFreeChain(n: Node)
  {
    match n
    case Name(id) => '.' !in id
    case Attribute(value, attr) => '.' !in attr && DotFreeChain(value)
    case _ => true
  }

  lemma {:induction false} SegmentsDotFree(n: Node)
    requires DotFreeChain(n)
    ensures forall i :: 0 <= i < |ChainSegments(n)| ==> '.' !in ChainSegments(n)[i]
  {
    match n
    case Attribute(value, attr) =>
      SegmentsDotFree(value);
      assert ChainSegments(n) == ChainSegments(value) + [attr];
    case _ =>
  }

  /**
   * A callee name splits back, at its dots, into the chain it was read from:
   * the root identifier (if the root is a name) and then the attributes, root to leaf.
   */
  lemma CalleeNameSplits(func: Node)
    requires func.Name? || func.Attribute?
    requires DotFreeChain(func)
    ensures CalleeName(func).Some?
    ensures SplitOn(CalleeName(func).value, '.') == ChainSegments(func)
  {
    SegmentsDotFree(func);
    if func.Name? {
      assert ChainSegments(func) == [func.id];
    }
    SplitJoinRoundTrip(ChainSegments(func));
  }

  /** `obj.foo.bar()` calls `"obj.foo.bar"`. */
  lemma AttributeChainCallee()
    ensures CalleeName(Attribute(Attribute(Name("obj"), "foo"), "bar")) == Some("obj.foo.bar")
  {
    var func := Attribute(Attribute(Name("obj"), "foo"), "bar");
    assert ChainSegments(func) == ["obj", "foo", "bar"];
    assert Join(".", ["bar"]) == "bar";
    assert Join(".", ["foo", "bar"]) == "foo" + "." + "bar";
    assert Join(".", ["obj", "foo", "bar"]) == "obj" + "." + ("foo" + "." + "bar");
    assert "obj" + "." + ("foo" + "." + "bar") == "obj.foo.bar";
  }

  /** `f().g()` calls `"g"`: a root that is not a name contributes nothing. */
  lemma CallRootedCallee()
    ensures CalleeName(Attribute(Call(Name("f"), []), "g")) == Some("g")
  {
    assert ChainSegments(Attribute(Call(Name("f"), []), "g")) == ["g"];
  }

  // ----- Scenarios -----

  /** `def foo():\n    bar()\ndef bar():\n    pass`: two functions and one call `foo -> bar`. */
  lemma ScenarioTwoFunctions()
    ensures Walk(Other([FunctionDef("foo", 1, [], [Other([]), Other([Call(Name("bar"), [])])]),
                        FunctionDef("bar", 3, [], [Other([]), Other([])])]), TopScope)
         == Facts([FunctionFact("foo", 1, []), FunctionFact("bar", 3, [])], [], [CallFact("foo", "bar")])
  {
    var sFoo := Scope(None, Some("foo"));
    var call := Call(Name("bar"), []);
    assert Walk(Name("bar"), sFoo) == Empty;
    assert GenericWalk(call, sFoo) == Empty;
    assert Walk(call, sFoo).calls == [CallFact("foo", "bar")];
    assert WalkAll([Other([]), Other([call])], sFoo) == Facts([], [], [CallFact("foo", "bar")]) by {
      assert WalkAll([call], sFoo) == Walk(call, sFoo);
      assert Walk(Other([call]), sFoo) == WalkAll([call], sFoo);
      assert Walk(Other([]), sFoo) == Empty;
      assert [Other([]), Other([call])][..1] == [Other([])];
      assert WalkAll([Other([])], sFoo) == Empty;
    }
    var sBar := Scope(None, Some("bar"));
    assert WalkAll([Other([]), Other([])], sBar) == Empty by {
      assert [Other([]), Other([])][..1] == [Other([])];
    }
    var foo := FunctionDef("foo", 1, [], [Other([]), Other([call])]);
    var bar := FunctionDef("bar", 3, [], [Other([]), Other([])]);
    assert [foo, bar][..1] == [foo];
  }

  /** `class Dog(Animal):` records its base by identifier. */
  lemma ScenarioClassBase()
    ensures Walk(ClassDef("Dog", 1, [Name("Animal")], [Other([])]), TopScope).classes
         == [ClassFact("Dog", 1, [Some("Animal")])]
  {
    assert BaseIds([Name("Animal")]) == [Some("Animal")];
  }

  /** `class C(models.Model):` keeps only the final attribute of a dotted base; `class D(f()):` gets `None`. */
  lemma AttributeAndCallBases()
    ensures BaseIds([Attribute(Name("models"), "Model"), Call(Name("f"), [])]) == [Some("Model"), None]
  {
  }

  /** In `def h(): f(g())` the outer call is recorded before the inner one. */
  lemma NestedCallOrder()
    ensures Walk(FunctionDef("h", 1, [], [Call(Name("f"), [Call(Name("g"), [])])]), TopScope).calls
         == [CallFact("h", "f"), CallFact("h", "g")]
  {
    var s := Scope(None, Some("h"));
    var inner := Call(Name("g"), []);
    var outer := Call(Name("f"), [inner]);
    assert Walk(Name("g"), s) == Empty && Walk(Name("f"), s) == Empty;
    assert GenericWalk(inner, s) == Empty;
    assert Walk(inner, s).calls == [CallFact("h", "g")];
    assert WalkAll([inner], s) == Walk(inner, s);
    assert Walk(outer, s).calls == [CallFact("h", "f"), CallFact("h", "g")];
    assert WalkAll([outer], s) == Walk(outer, s);
  }

  /** A call at module level and a call in a class body record nothing; the class is still recorded. */
  lemma TopLevelCallsDropped()
    ensures Walk(Other([Call(Name("setup"), []), ClassDef("C", 2, [], [Call(Name("register"), [])])]), TopScope).calls == []
  {
    var n := Other([Call(Name("setup"), []), ClassDef("C", 2, [], [Call(Name("register"), [])])]);
    assert DefNames(Call(Name("setup"), [])) == [] by {
      assert DefNamesAll([]) == [];
    }
    assert DefNamesAll([Call(Name("register"), [])]) == [];
    assert DefNames(ClassDef("C", 2, [], [Call(Name("register"), [])])) == [];
    assert DefNamesAll([Call(Name("setup"), []), ClassDef("C", 2, [], [Call(Name("register"), [])])]) == [] by {
      assert [Call(Name("setup"), []), ClassDef("C", 2, [], [Call(Name("register"), [])])][..1] == [Call(Name("setup"), [])];
    }
    CallsNeedFunctionScope(n, TopScope);
  }

  /** `class A:` / `def m(self):` / `def inner():` records `A.m` and `A.inner`. */
  lemma NestedFunctionInMethod()
    ensures Names(Walk(Other([ClassDef("A", 1, [], [FunctionDef("m", 2, ["self"], [FunctionDef("inner", 3, [], [])])])]), TopScope).functions)
         == ["A.m", "A.inner"]
  {
    var s := Scope(Some("A"), None);
    var inner := FunctionDef("inner", 3, [], []);
    var m := FunctionDef("m", 2, ["self"], [inner]);
    assert "A" + "." + "inner" == "A.inner" && "A" + "." + "m" == "A.m";
    assert GenericWalk(inner, Scope(Some("A"), Some("A.m"))) == Empty;
    assert Walk(inner, Scope(Some("A"), Some("A.m"))).functions == [FunctionFact("A.inner", 3, [])];
    assert WalkAll([inner], Scope(Some("A"), Some("A.m"))) == Walk(inner, Scope(Some("A"), Some("A.m")));
    assert Walk(m, s).functions == [FunctionFact("A.m", 2, ["self"]), FunctionFact("A.inner", 3, [])];
    assert WalkAll([m], s) == Walk(m, s);
    var c := ClassDef("A", 1, [], [m]);
    assert WalkAll([c], TopScope) == Walk(c, TopScope);
  }

  /** `async def f(): g()` at module level records nothing at all. */
  lemma AsyncFunctionIgnored()
    ensures Walk(Other([AsyncFunctionDef("f", 1, [], [Call(Name("g"), [])])]), TopScope) == Empty
  {
    var call := Call(Name("g"), []);
    assert WalkAll([call], TopScope) == Walk(call, TopScope);
    var f := AsyncFunctionDef("f", 1, [], [call]);
    assert WalkAll([f], TopScope) == Walk(f, TopScope);
  }

  /** In `def outer(): async def inner(): g()` the call is attributed to `outer`. */
  lemma AsyncBodyBelongsToEnclosingFunction()
    ensures Walk(FunctionDef("outer", 1, [], [AsyncFunctionDef("inner", 2, [], [Call(Name("g"), [])])]), TopScope)
         == Facts([FunctionFact("outer", 1, [])], [], [CallFact("outer", "g")])
  {
    var s := Scope(None, Some("outer"));
    var call := Call(Name("g"), []);
    assert WalkAll([call], s) == Walk(call, s);
    var f := AsyncFunctionDef("inner", 2, [], [call]);
    assert WalkAll([f], s) == Walk(f, s);
  }

  /** A decorator is visited inside the function's own scope, so `@app.route()` on `def index()` is a call from `index`. */
  lemma DecoratorCallAttributedToFunction()
    ensures Walk(FunctionDef("index", 2, [], [Other([]), Call(Attribute(Name("app"), "route"), [])]), TopScope).calls
         == [CallFact("index", "app.route")]
  {
    var s := Scope(None, Some("index"));
    var deco := Call(Attribute(Name("app"), "route"), []);
    assert ChainSegments(Attribute(Name("app"), "route")) == ["app", "route"];
    assert Join(".", ["app", "route"]) == "app" + "." + "route" == "app.route";
    assert Walk(Attribute(Name("app"), "route"), s) == Empty;
    assert GenericWalk(deco, s) == Empty;
    assert Walk(deco, s).calls == [CallFact("index", "app.route")];
    assert [Other([]), deco][..1] == [Other([])];
  }
}
