/** `parse_files_with_ccg` (utils.py:124-185): per-file facts assembled into a call graph. */
module CallGraph {
  import opened Wrappers
  import opened Text
  import opened Paths
  import opened PyAst
  import opened Records
  import opened Analyzer
  import opened LineScan
  import opened Hotspots
  import AnalyzerProps

  /** One entry of the walker's list: `{path, relpath, name, content}`. */
  datatype FileRecord = FileRecord(path: string, relpath: string, name: string, content: string)

  /** The returned dict: `{modules, call_edges, hotspots}`. */
  datatype Ccg = Ccg(modules: map<string, Facts>, callEdges: seq<Edge>, hotspots: seq<string>)

  /** Files larger than this many bytes are read as empty (utils.py:43-44). */
  const MaxFileSize: nat := 300000

  /** The content the walker stores for a file of `size` bytes whose text is `text`. */
  function LoadedContent(size: nat, text: string): (content: string)
    ensures size > MaxFileSize ==> content == ""
    ensures size <= MaxFileSize ==> content == text
  {
    if size > MaxFileSize then "" else text
  }

  /** `os.path.splitext(name)[1].lower() in {".py"}`. */
  predicate IsPythonFile(name: string)
  {
    LowerAscii(Extension(name)) == ".py"
  }

  /** The facts recorded for one file: the analyzer for Python files, the line scan for all others. */
  function FileFacts(f: FileRecord, parse: string -> Option<Node>): Facts
  {
    if IsPythonFile(f.name) then PythonFacts(parse(f.content)) else ScanFacts(f.content)
  }

  /** The symbol id `"<relpath>::<name>"`. */
  function SymbolId(rel: string, name: string): string
  {
    rel + "::" + name
  }

  /** The edges of one file's calls: both endpoints in the caller's file, calls with an empty side skipped. */
  function CallEdges(rel: string, calls: seq<CallFact>): seq<Edge>
  {
    if calls == [] then []
    else
      var c := calls[|calls| - 1];
      CallEdges(rel, calls[..|calls| - 1])
        + (if c.caller != "" && c.callee != "" then [Edge(SymbolId(rel, c.caller), SymbolId(rel, c.callee))] else [])
  }

  /** The edges of `files` when each file's facts are `factsOf(file)`: file by file, and within a file call by call. */
  function EdgesOver(files: seq<FileRecord>, factsOf: FileRecord -> Facts): seq<Edge>
  {
    if files == [] then []
    else
      var f := files[|files| - 1];
      EdgesOver(files[..|files| - 1], factsOf) + CallEdges(f.relpath, factsOf(f).calls)
  }

  /** All edges of the file list. */
  function AllEdges(files: seq<FileRecord>, parse: string -> Option<Node>): seq<Edge>
  {
    EdgesOver(files, f => FileFacts(f, parse))
  }

  /** The module map: each file's facts stored under its relpath, a later file overwriting an earlier one. */
  function ModulesOf(files: seq<FileRecord>, parse: string -> Option<Node>): map<string, Facts>
  {
    if files == [] then map[]
    else
      var f := files[|files| - 1];
      ModulesOf(files[..|files| - 1], parse)[f.relpath := FileFacts(f, parse)]
  }

  /** The call graph the function returns for `files`. */
  function CallGraphOf(files: seq<FileRecord>, parse: string -> Option<Node>): Ccg
  {
    var edges := AllEdges(files, parse);
    Ccg(ModulesOf(files, parse), edges, HotspotsOf(edges))
  }

  /** One file's facts: `ast`-based extraction for `.py` files, the line scan otherwise (utils.py:139-162). */
  method ParseFile(f: FileRecord, parse: string -> Option<Node>) returns (parsed: Facts)
    ensures parsed == FileFacts(f, parse)
  {
    var ext := LowerAscii(Extension(f.name));
    if ext == ".py" {
      parsed := ParsePythonSource(f.content, parse);
    } else {
      parsed := ScanLines(f.content);
    }
  }

  /** Appends one file's edges to `edges` (utils.py:165-170). */
  method AppendEdges(edges: seq<Edge>, rel: string, calls: seq<CallFact>) returns (out: seq<Edge>)
    ensures out == edges + CallEdges(rel, calls)
  {
    out := edges;
    for j := 0 to |calls|
      invariant out == edges + CallEdges(rel, calls[..j])
    {
      var c := calls[j];
      if c.caller != "" && c.callee != "" {
        out := out + [Edge(SymbolId(rel, c.caller), SymbolId(rel, c.callee))];
      }
      assert calls[..j + 1][..j] == calls[..j];
    }
    assert calls[..|calls|] == calls;
  }

  /** `parse_files_with_ccg(file_list)`; `parse` stands for `ast.parse`. */
  method ParseFilesWithCcg(files: seq<FileRecord>, parse: string -> Option<Node>) returns (ccg: Ccg)
    ensures ccg == CallGraphOf(files, parse)
  {
    var modules: map<string, Facts> := map[];
    var callEdges: seq<Edge> := [];
    for i := 0 to |files|
      invariant modules == ModulesOf(files[..i], parse)
      invariant callEdges == AllEdges(files[..i], parse)
    {
      var f := files[i];
      var parsed := ParseFile(f, parse);
      callEdges := AppendEdges(callEdges, f.relpath, parsed.calls);
      modules := modules[f.relpath := parsed];
      assert files[..i + 1][..i] == files[..i];
      assert AllEdges(files[..i + 1], parse) == AllEdges(files[..i], parse) + CallEdges(f.relpath, parsed.calls);
    }
    assert files[..|files|] == files;
    var degree := CountDegree(callEdges);
    ccg := Ccg(modules, callEdges, Keys(TopEntries(degree)));
  }

  // ----- Edges -----

  /** The edge a call fact yields. */
  function EdgeOf(rel: string, c: CallFact): Edge
  {
    Edge(SymbolId(rel, c.caller), SymbolId(rel, c.callee))
  }

  /**
   * A file's edges are exactly the edges of its calls whose caller and callee
   * are both non-empty, one edge per such call.
   */
  lemma {:induction false} CallEdgesExact(rel: string, calls: seq<CallFact>)
    ensures forall e :: e in CallEdges(rel, calls) ==>
      exists c :: c in calls && c.caller != "" && c.callee != "" && e == EdgeOf(rel, c)
    ensures forall c :: c in calls && c.caller != "" && c.callee != "" ==> EdgeOf(rel, c) in CallEdges(rel, calls)
    ensures (forall c :: c in calls ==> c.caller != "" && c.callee != "") ==> |CallEdges(rel, calls)| == |calls|
    ensures |CallEdges(rel, calls)| <= |calls|
  {
    if calls != [] {
      var init := calls[..|calls| - 1];
      CallEdgesExact(rel, init);
      assert calls == init + [calls[|calls| - 1]];
      forall c | c in calls ensures c in init || c == calls[|calls| - 1] {
      }
    }
  }

  /** A single call yields its edge exactly when caller and callee are both non-empty. */
  lemma CallEdgesSingle(rel: string, c: CallFact)
    ensures CallEdges(rel, [c]) == if c.caller != "" && c.callee != "" then [EdgeOf(rel, c)] else []
  {
    assert [c][..0] == [];
  }

  /**
   * A file's edges follow its calls: the edges of `a + b` are those of `a`,
   * then those of `b`. With `CallEdgesSingle` this fixes the edge list of any
   * call list, one edge per valid call, in call order.
   */
  lemma {:induction false} CallEdgesConcat(rel: string, a: seq<CallFact>, b: seq<CallFact>)
    ensures CallEdges(rel, a + b) == CallEdges(rel, a) + CallEdges(rel, b)
  {
    if b == [] {
      assert a + b == a;
    } else {
      assert (a + b)[..|a + b| - 1] == a + b[..|b| - 1];
      CallEdgesConcat(rel, a, b[..|b| - 1]);
    }
  }

  /** The number of calls with a non-empty caller and callee. */
  function ValidCalls(calls: seq<CallFact>): nat
  {
    if calls == [] then 0
    else ValidCalls(calls[..|calls| - 1]) + (if calls[|calls| - 1].caller != "" && calls[|calls| - 1].callee != "" then 1 else 0)
  }

  /** A file has exactly as many edges as it has calls with a non-empty caller and callee. */
  lemma {:induction false} CallEdgesCount(rel: string, calls: seq<CallFact>)
    ensures |CallEdges(rel, calls)| == ValidCalls(calls)
  {
    if calls != [] {
      CallEdgesCount(rel, calls[..|calls| - 1]);
    }
  }

  /** Every call the analyzer records in a Python file yields exactly one edge. */
  lemma PythonCallsAllBecomeEdges(rel: string, tree: Node)
    ensures |CallEdges(rel, Walk(tree, TopScope).calls)| == |Walk(tree, TopScope).calls|
  {
    AnalyzerProps.WalkCallsKnown(tree, TopScope);
    CallEdgesExact(rel, Walk(tree, TopScope).calls);
  }

  /** The line scan never yields an edge. */
  lemma ScannedFilesHaveNoEdges(f: FileRecord, parse: string -> Option<Node>)
    requires !IsPythonFile(f.name)
    ensures CallEdges(f.relpath, FileFacts(f, parse).calls) == []
  {
    ScanFactsShaped(f.content);
  }

  lemma {:induction false} EdgesOverConcat(a: seq<FileRecord>, b: seq<FileRecord>, factsOf: FileRecord -> Facts)
    ensures EdgesOver(a + b, factsOf) == EdgesOver(a, factsOf) + EdgesOver(b, factsOf)
  {
    if b == [] {
      assert a + b == a;
    } else {
      var init, f := b[..|b| - 1], b[|b| - 1];
      var tail := CallEdges(f.relpath, factsOf(f).calls);
      assert (a + b)[..|a + b| - 1] == a + init;
      assert (a + b)[|a + b| - 1] == f;
      assert EdgesOver(a + b, factsOf) == EdgesOver(a + init, factsOf) + tail;
      EdgesOverConcat(a, init, factsOf);
      assert EdgesOver(b, factsOf) == EdgesOver(init, factsOf) + tail;
    }
  }

  /** Edges keep the order of the files: the edges of `a + b` are those of `a`, then those of `b`. */
  lemma AllEdgesConcat(a: seq<FileRecord>, b: seq<FileRecord>, parse: string -> Option<Node>)
    ensures AllEdges(a + b, parse) == AllEdges(a, parse) + AllEdges(b, parse)
  {
    EdgesOverConcat(a, b, f => FileFacts(f, parse));
  }

  lemma {:induction false} EdgesOverStayInFile(files: seq<FileRecord>, factsOf: FileRecord -> Facts)
    ensures forall e :: e in EdgesOver(files, factsOf) ==>
      exists k, caller, callee :: 0 <= k < |files| && caller != "" && callee != ""
        && e.source == SymbolId(files[k].relpath, caller) && e.target == SymbolId(files[k].relpath, callee)
  {
    if files != [] {
      var init := files[..|files| - 1];
      var f := files[|files| - 1];
      EdgesOverStayInFile(init, factsOf);
      CallEdgesExact(f.relpath, factsOf(f).calls);
      forall e | e in EdgesOver(files, factsOf)
        ensures exists k, caller, callee ::
          0 <= k < |files| && caller != "" && callee != ""
          && e.source == SymbolId(files[k].relpath, caller) && e.target == SymbolId(files[k].relpath, callee)
      {
        if e in EdgesOver(init, factsOf) {
          var k, caller, callee :| 0 <= k < |init| && caller != "" && callee != ""
            && e.source == SymbolId(init[k].relpath, caller) && e.target == SymbolId(init[k].relpath, callee);
          assert files[k] == init[k];
        } else {
          var c :| c in factsOf(f).calls && c.caller != "" && c.callee != "" && e == EdgeOf(f.relpath, c);
          assert files[|files| - 1] == f;
        }
      }
    }
  }

  /**
   * Every edge joins two symbol ids of one and the same file: both endpoints
   * are `"<relpath>::<name>"` with that file's relpath and a non-empty name.
   */
  lemma EdgesStayInFile(files: seq<FileRecord>, parse: string -> Option<Node>)
    ensures forall e :: e in AllEdges(files, parse) ==>
      exists k, caller, callee :: 0 <= k < |files| && caller != "" && callee != ""
        && e.source == SymbolId(files[k].relpath, caller) && e.target == SymbolId(files[k].relpath, callee)
  {
    EdgesOverStayInFile(files, f => FileFacts(f, parse));
  }

  // ----- The module map -----

  /**
   * The module map has one key per distinct relpath, and each key holds the
   * facts of the last file with that relpath.
   */
  lemma {:induction false} ModulesLastWins(files: seq<FileRecord>, parse: string -> Option<Node>)
    ensures ModulesOf(files, parse).Keys == set f | f in files :: f.relpath
    ensures forall k ::
      0 <= k < |files| && (forall j :: k < j < |files| ==> files[j].relpath != files[k].relpath)
      ==> ModulesOf(files, parse)[files[k].relpath] == FileFacts(files[k], parse)
  {
    if files != [] {
      var init := files[..|files| - 1];
      var f := files[|files| - 1];
      ModulesLastWins(init, parse);
      assert files == init + [f];
      forall k | 0 <= k < |files| && (forall j :: k < j < |files| ==> files[j].relpath != files[k].relpath)
        ensures ModulesOf(files, parse)[files[k].relpath] == FileFacts(files[k], parse)
      {
        if k < |files| - 1 {
          assert files[k] == init[k];
          assert files[|files| - 1].relpath != files[k].relpath;
          assert forall j :: k < j < |init| ==> init[j] == files[j];
        }
      }
    }
  }

  // ----- Dispatch -----

  /**
   * The dispatch lower-cases the extension: for any file stem, `.PY` and `.py`
   * go to the analyzer and `.txt` to the line scan.
   */
  lemma DispatchByLowerCaseExtension(stem: string)
    requires |stem| > 0 && stem[|stem| - 1] != '.' && stem[|stem| - 1] != '/'
    ensures IsPythonFile(stem + ".PY")
    ensures IsPythonFile(stem + ".py")
    ensures !IsPythonFile(stem + ".txt")
  {
    ExtensionOfSuffix(stem, ".PY");
    assert LowerAscii(".PY") == ".py";
    ExtensionOfSuffix(stem, ".py");
    assert LowerAscii(".py") == ".py";
    ExtensionOfSuffix(stem, ".txt");
    assert LowerAscii(".txt")[1] == 't';
  }

  /** A dot-file such as `.py` has no extension and so goes to the line scan. */
  lemma DotFileIsNotPython(word: string)
    requires '.' !in word && '/' !in word
    ensures !IsPythonFile("." + word)
  {
    LeadingDotNoExtension(word);
  }

  /** A Python file that does not parse contributes empty facts and no edges. */
  lemma ParseFailureContributesNothing(f: FileRecord, parse: string -> Option<Node>)
    requires IsPythonFile(f.name) && parse(f.content).None?
    ensures FileFacts(f, parse) == Empty
    ensures CallEdges(f.relpath, FileFacts(f, parse).calls) == []
  {
  }

  /** An oversized non-Python file is stored as empty content and contributes empty facts. */
  lemma OversizedFileContributesNothing(path: string, relpath: string, name: string, size: nat, text: string, parse: string -> Option<Node>)
    requires size > MaxFileSize && !IsPythonFile(name)
    ensures FileFacts(FileRecord(path, relpath, name, LoadedContent(size, text)), parse) == Empty
  {
  }
  /**
   * An oversized Python file is stored as `""`, and `ast.parse("")` is an
   * empty module, so it too contributes empty facts.
   */
  lemma OversizedPythonFileContributesNothing(path: string, relpath: string, name: string, size: nat, text: string, parse: string -> Option<Node>)
    requires size > MaxFileSize && IsPythonFile(name)
    requires parse("") == Some(Other([]))
    ensures FileFacts(FileRecord(path, relpath, name, LoadedContent(size, text)), parse) == Empty
  {
  }

  // ----- Scenarios -----

  /** A 400,000-byte `b.txt` is read as empty and yields no facts. */
  lemma ScenarioOversizedText(text: string, parse: string -> Option<Node>)
    ensures FileFacts(FileRecord("/repo/b.txt", "b.txt", "b.txt", LoadedContent(400000, text)), parse) == Empty
  {
    ExtensionOfSuffix("b", ".txt");
    assert "b" + ".txt" == "b.txt";
    assert LowerAscii(".txt")[1] == 't';
    assert SplitLines("") == [];
  }

  /** A module with `def helper(): ...` and `def main(): helper()`. */
  function HelperModule(): Node
  {
    Other([FunctionDef("helper", 1, [], [Other([])]),
           FunctionDef("main", 2, [], [Other([Call(Name("helper"), [])])])])
  }

  lemma HelperModuleCalls()
    ensures Walk(HelperModule(), TopScope).calls == [CallFact("main", "helper")]
  {
    var sHelper := Scope(None, Some("helper"));
    var sMain := Scope(None, Some("main"));
    var call := Call(Name("helper"), []);
    assert Walk(Name("helper"), sMain) == Empty;
    assert GenericWalk(call, sMain) == Empty;
    assert Walk(call, sMain).calls == [CallFact("main", "helper")];
    assert WalkAll([call], sMain) == Walk(call, sMain);
    assert WalkAll([Other([call])], sMain) == Walk(Other([call]), sMain);
    assert Walk(Other([]), sHelper) == Empty;
    assert WalkAll([Other([])], sHelper) == Empty;
    var helper := FunctionDef("helper", 1, [], [Other([])]);
    var main := FunctionDef("main", 2, [], [Other([call])]);
    assert [helper, main][..1] == [helper];
    assert Walk(helper, TopScope).calls == [];
    assert Walk(main, TopScope).calls == [CallFact("main", "helper")];
  }

  /** A parsed helper module yields the single edge `<rel>::main -> <rel>::helper`. */
  lemma HelperFileEdges(f: FileRecord, parse: string -> Option<Node>)
    requires IsPythonFile(f.name) && parse(f.content) == Some(HelperModule())
    ensures CallEdges(f.relpath, FileFacts(f, parse).calls) == [Edge(f.relpath + "::main", f.relpath + "::helper")]
  {
    HelperModuleCalls();
    var c := CallFact("main", "helper");
    assert FileFacts(f, parse).calls == [c];
    assert [c][..0] == [];
    assert CallEdges(f.relpath, [c]) == [EdgeOf(f.relpath, c)];
    assert f.relpath + "::" + "main" == f.relpath + "::main";
    assert f.relpath + "::" + "helper" == f.relpath + "::helper";
  }

  /** The two helper nodes `x.py::helper` and `y.py::helper` are distinct and each has degree 1. */
  lemma HelperDegrees()
    ensures "x.py::helper" != "y.py::helper"
    ensures Count(Endpoints([Edge("x.py::main", "x.py::helper"), Edge("y.py::main", "y.py::helper")]), "x.py::helper") == 1
    ensures Count(Endpoints([Edge("x.py::main", "x.py::helper"), Edge("y.py::main", "y.py::helper")]), "y.py::helper") == 1
  {
    assert "x.py::helper"[0] != "y.py::helper"[0];
    var edges := [Edge("x.py::main", "x.py::helper"), Edge("y.py::main", "y.py::helper")];
    assert edges[..1] == [Edge("x.py::main", "x.py::helper")];
    var ids := ["x.py::main", "x.py::helper", "y.py::main", "y.py::helper"];
    assert Endpoints(edges) == ids;
    assert ids[..3] == ["x.py::main", "x.py::helper", "y.py::main"];
    assert ids[..3][..2] == ["x.py::main", "x.py::helper"];
    assert ids[..3][..2][..1] == ["x.py::main"];
    assert ids[..3][..2][..1][..0] == [];
    assert "x.py::main"[0] != "y.py::helper"[0];
    assert "y.py::main"[0] != "x.py::helper"[0];
    assert "x.py::main"[6] != "x.py::helper"[6];
    assert "y.py::main"[6] != "y.py::helper"[6];
    assert Count(["x.py::main"], "x.py::helper") == 0;
    assert Count(["x.py::main"], "y.py::helper") == 0;
    assert Count(["x.py::main", "x.py::helper"], "x.py::helper") == 1;
    assert Count(["x.py::main", "x.py::helper"], "y.py::helper") == 0;
  }

  /**
   * Two files `x.py` and `y.py` that each define `helper`, called once in each
   * file; their edges name two distinct helper nodes (each of degree 1, by
   * `HelperDegrees`).
   */
  lemma ScenarioSameNameInTwoFiles(fx: FileRecord, fy: FileRecord, parse: string -> Option<Node>)
    requires fx.relpath == "x.py" && fx.name == "x.py" && parse(fx.content) == Some(HelperModule())
    requires fy.relpath == "y.py" && fy.name == "y.py" && parse(fy.content) == Some(HelperModule())
    ensures AllEdges([fx, fy], parse) == [Edge("x.py::main", "x.py::helper"), Edge("y.py::main", "y.py::helper")]
  {
    PythonNames();
    HelperFilePair(fx, fy, parse);
    HelperIds();
  }

  lemma HelperIds()
    ensures "x.py" + "::main" == "x.py::main" && "x.py" + "::helper" == "x.py::helper"
    ensures "y.py" + "::main" == "y.py::main" && "y.py" + "::helper" == "y.py::helper"
  {
  }

  /** Two parsed helper modules yield one edge each, in file order. */
  lemma HelperFilePair(f: FileRecord, g: FileRecord, parse: string -> Option<Node>)
    requires IsPythonFile(f.name) && parse(f.content) == Some(HelperModule())
    requires IsPythonFile(g.name) && parse(g.content) == Some(HelperModule())
    ensures AllEdges([f, g], parse)
         == [Edge(f.relpath + "::main", f.relpath + "::helper"), Edge(g.relpath + "::main", g.relpath + "::helper")]
  {
    HelperFileEdges(f, parse);
    HelperFileEdges(g, parse);
    AllEdgesPair(f, g, parse);
  }

  lemma PythonNames()
    ensures IsPythonFile("x.py") && IsPythonFile("y.py")
  {
    ExtensionOfSuffix("x", ".py");
    assert "x" + ".py" == "x.py";
    ExtensionOfSuffix("y", ".py");
    assert "y" + ".py" == "y.py";
    assert LowerAscii(".py") == ".py";
  }

  lemma AllEdgesPair(f: FileRecord, g: FileRecord, parse: string -> Option<Node>)
    ensures AllEdges([f, g], parse) == CallEdges(f.relpath, FileFacts(f, parse).calls) + CallEdges(g.relpath, FileFacts(g, parse).calls)
  {
    var factsOf := h => FileFacts(h, parse);
    assert [f, g][..1] == [f];
    assert [f][..0] == [];
    assert EdgesOver([f], factsOf) == CallEdges(f.relpath, factsOf(f).calls);
    assert EdgesOver([f, g], factsOf) == EdgesOver([f], factsOf) + CallEdges(g.relpath, factsOf(g).calls);
  }
}
