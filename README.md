# Code-structure extractor and call-graph builder

This project models the structural analysis engine of a repository documentation generator. The engine takes the files of a cloned repository and builds a call graph. For each file, it records the functions and classes and, for Python files, which function calls which. It then joins these facts into a graph keyed by relative path, with symbol ids of the form `"<relpath>::<name>"`, and ranks the ten most connected symbols as hotspots.

The model has one Dafny module per concern:

- `PyAst`: the abstract Python syntax tree the analyzer walks.
- `Records`: function, class and call facts, and edges.
- `Analyzer`: the `ast.NodeVisitor` subclass `PythonAnalyzer`.
  - The class keeps the five mutable fields of the source.
  - Each visit method is proved against a pure walk. The walk threads the current class and function explicitly through the recursion.
  - `ast.parse` is a parameter of type `string -> Option<Node>`. `None` stands for a syntax error.
- `AnalyzerProps`: what the walk promises.
  - Every call fact has a known caller.
  - Names are qualified by the enclosing class.
  - Callee names follow attribute chains.
  - It also holds concrete scenarios.
- `LineScan`: the keyword line scan used for all other files.
- `Text`, `Paths`: the Python string and path operations the code relies on: `strip`, `split`, `splitlines`, `lower` and `posixpath.splitext`.
- `Hotspots`: the two hotspot steps.
  - The degree count is an insertion-ordered dict, modelled as a sequence of `(id, count)` pairs.
  - The ranking is a stable sort by descending degree truncated to ten.
- `CallGraph`: `parse_files_with_ccg`. It dispatches each file by extension, assembles the edges and builds the module map.
- `Language`: the extension-to-language lookup `get_language`.

The ranking is non-increasing in degree, not strictly descending. Entries of equal degree stay in the order their ids first occur among the edge endpoints. The number of hotspots is the fixed constant 10 in the code. `Hotspots.HotspotRanking` states this full ordering contract, and `Hotspots.TiesKeepFirstSeenOrder` shows a tie.

## Model

| member | source | states |
|---|---|---|
| Text.StripLeftSpec | utils.py:155 | `lstrip` removes exactly a whitespace prefix and stops at the first non-space character |
| Text.StripRightSpec | utils.py:155 | `rstrip` removes exactly a whitespace suffix and stops at the last non-space character |
| Text.StripSpec | utils.py:155 | the stripped line neither starts nor ends with whitespace; a line without surrounding whitespace is unchanged; an all-space line strips to `""` |
| Text.TakeUntil | utils.py:157 | `s.split(c)[0]` is the longest prefix of `s` without `c`, followed in `s` by `c` when it is shorter than `s` |
| Text.TakeUntilPast | utils.py:157 | for `p + c + rest` with `c` not in `p`, the first split part is `p` |
| Text.TakeUntilAll | utils.py:159 | a string without `c` is its own first split part |
| Text.SplitOn | utils.py:105 | splitting gives at least one part, and no part holds the separator |
| Text.SplitJoinRoundTrip | utils.py:105 | splitting `".".join(parts)` at `.` gives back the dot-free parts |
| Text.Reversed | utils.py:105 | `reversed` keeps the length and puts the element at `i` into position `|s| - 1 - i` |
| Text.LineEnd | utils.py:154 | the first line ends at the first line-break character |
| Text.SplitLines | utils.py:154 | no line that `splitlines` returns contains a line-break character |
| Text.LineEndPrefix | utils.py:154 | a break-free line followed by a break ends where the break is |
| Text.SplitLinesCons | utils.py:154 | a break-free line followed by `\n` is the first line, and the rest is split on |
| Text.SplitJoinLines | utils.py:154 | `splitlines` inverts terminating each break-free line with `\n` |
| Text.SplitLinesCrLf | utils.py:154 | `\r\n` is one line boundary: a break-free line followed by `\r\n` is the first line, and the rest is split on |
| Text.SplitLinesSingle | utils.py:154 | a non-empty break-free text is one line |
| Text.SplitJoinNewline | utils.py:154 | `"\n".join(lines).splitlines()` gives back break-free lines whose last line is not empty (a file without a final newline) |
| Text.SplitJoinCrLf | utils.py:154 | the same for lines joined by `\r\n` |
| Text.LowerChar | utils.py:145 | an upper-case ASCII letter becomes its own lower-case letter (code point + 32), and every other character stays |
| Text.LowerAscii | utils.py:145 | `lower()` keeps the length and lowers each character |
| Paths.RFind | utils/python_utils.py:29 | the index of the last occurrence of a character, or -1 if there is none |
| Paths.SplitExt | utils/python_utils.py:29 | root + extension is the path; the extension is empty or is a dot followed by neither a dot nor a slash |
| Paths.NoDotNoExtension | utils/python_utils.py:29 | a name without a dot has an empty extension |
| Paths.LeadingDotNoExtension | utils/python_utils.py:29 | a name whose only dot is the leading one (`.py`, `.bashrc`) has an empty extension |
| Paths.ExtensionOfSuffix | utils/python_utils.py:29 | `stem + ext` has extension `ext` when `ext` is one dot-led segment and the stem does not end in `.` or `/` |
| Language.GetLanguage | utils/python_utils.py:27-36 | the result is one of the five table values or `"unknown"`; it is `"unknown"` exactly when the extension is not a table key, and otherwise the key's value |
| Language.SixLanguages | utils/python_utils.py:30-36 | the result is one of `python`, `jac`, `markdown`, `javascript`, `java`, `unknown` |
| Language.LanguageOfExtension | utils/python_utils.py:30-35 | a name ending in one of the five extensions maps to that extension's language |
| Language.LanguageDeterminesExtension | utils/python_utils.py:29-36 | two names with the same known language have the same extension |
| Language.SameExtensionSameLanguage | utils/python_utils.py:29-36 | names sharing an extension get the same language |
| Language.UpperCaseIsUnknown | utils/python_utils.py:29-36 | the lookup is case-sensitive: `main.PY` is `"unknown"` |
| Language.NoExtensionIsUnknown | utils/python_utils.py:29-36 | `.py` and `Makefile` have no extension and are `"unknown"` |
| Analyzer.BaseIds | utils.py:83 | one base entry per base node: the `id` of a `Name`, the `attr` of an `Attribute`, otherwise `None` |
| Analyzer.ResolveCallee | utils.py:92-105 | the attribute-chain loop yields the callee name: the identifier for a `Name`, the root name and attributes joined by `.` for an attribute chain, nothing otherwise |
| Analyzer.PythonAnalyzer.constructor | utils.py:56-61 | a fresh analyzer has no facts, no current class and no current function |
| Analyzer.PythonAnalyzer.Visit | utils.py:55-108 | visiting a node appends exactly the facts of the scoped walk of that node and leaves the current class and function as they were |
| Analyzer.PythonAnalyzer.VisitFunctionDef | utils.py:63-76 | appends the function fact under its qualified name, then the body's facts in the function's scope, and restores the previous current function |
| Analyzer.PythonAnalyzer.VisitClassDef | utils.py:78-88 | appends the class fact with its base ids, then the facts of bases and body inside the class, and restores the previous current class |
| Analyzer.PythonAnalyzer.VisitCall | utils.py:90-108 | appends a call fact only when a callee name was found and a current function is set, then the children's facts |
| Analyzer.PythonAnalyzer.GenericVisit | utils.py:75 | `generic_visit` appends the facts of every child in order and keeps the scope |
| Analyzer.PythonAnalyzer.VisitEach | utils.py:75 | visiting a list of children appends their facts in order and keeps the scope |
| Analyzer.ParsePythonSource | utils.py:110-122 | a parse failure yields empty functions, classes and calls; otherwise the facts of walking the tree from the top-level scope |
| AnalyzerProps.WalkAllConcat | utils.py:75 | walking `a + b` records the facts of `a`, then those of `b` |
| AnalyzerProps.WalkCallsKnown | utils.py:106-107 | every call fact has a non-empty caller and callee, and its caller is the enclosing function or a function recorded in the same walk |
| AnalyzerProps.GenericWalkCallsKnown | utils.py:106-107 | the same holds for the generic walk of a node's children |
| AnalyzerProps.WalkAllCallsKnown | utils.py:106-107 | the same holds for a sequence of nodes |
| AnalyzerProps.QualNameQualifies | utils.py:64-67 | the qualified name is the bare name or `"<something>.<name>"` |
| AnalyzerProps.WalkFollowsDefs | utils.py:63-72 | the recorded functions correspond one by one, in pre-order, to the (non-async) function definitions of the tree, each qualifying its own name |
| AnalyzerProps.GenericWalkFollowsDefs | utils.py:63-75 | the same correspondence for a node's children |
| AnalyzerProps.WalkAllFollowsDefs | utils.py:63-75 | the same correspondence for a sequence of nodes |
| AnalyzerProps.CallsNeedFunctionScope | utils.py:106 | outside any function, a tree without function definitions records no calls |
| AnalyzerProps.ClassFreeQualification | utils.py:65-67 | in a tree without nested classes, every function is named `QualName(current class, name)` |
| AnalyzerProps.GenericClassFreeQualification | utils.py:65-67 | the same for the children of a node |
| AnalyzerProps.AllClassFreeQualification | utils.py:65-67 | the same for a sequence of nodes |
| AnalyzerProps.MethodsQualified | utils.py:78-88 | in a class body without nested classes, every function, nested ones inside methods included, is named `"<class>.<name>"` |
| AnalyzerProps.SegmentsDotFree | utils.py:98-105 | a dot-free chain gives dot-free segments |
| AnalyzerProps.CalleeNameSplits | utils.py:98-105 | splitting the callee name of a dot-free chain at `.` gives back the root name and the attributes |
| AnalyzerProps.AttributeChainCallee | utils.py:96-105 | `obj.foo.bar()` is named `"obj.foo.bar"` |
| AnalyzerProps.CallRootedCallee | utils.py:100-105 | `f().g()` is named `"g"`, because the root is not a `Name` |
| AnalyzerProps.ScenarioTwoFunctions | utils.py:63-108 | `def foo(): bar()` then `def bar(): pass` gives functions `foo`, `bar` and the call `foo -> bar` |
| AnalyzerProps.ScenarioClassBase | utils.py:78-84 | `class Dog(Animal):` records `Dog` with base `Animal` |
| AnalyzerProps.AttributeAndCallBases | utils.py:83 | the base `models.Model` gives `Model`, and a call base gives `None` |
| AnalyzerProps.NestedCallOrder | utils.py:106-108 | in `f(g())` the call to `f` is recorded before the call to `g` |
| AnalyzerProps.TopLevelCallsDropped | utils.py:106 | calls at module level and directly in a class body are not recorded |
| AnalyzerProps.NestedFunctionInMethod | utils.py:65-67 | a function nested in method `m` of class `A` is named `A.inner` |
| AnalyzerProps.AsyncFunctionIgnored | utils.py:63 | an `async def` is not recorded, and a call in its body at top level is dropped |
| AnalyzerProps.AsyncBodyBelongsToEnclosingFunction | utils.py:73-76 | calls in an `async def` nested in `outer` are attributed to `outer` |
| AnalyzerProps.DecoratorCallAttributedToFunction | utils.py:73-75 | a decorator call is recorded with the decorated function as caller |
| LineScan.DefName | utils.py:156-157 | the name after `def ` runs up to the first `(` or the end and contains no `(` |
| LineScan.ClassName | utils.py:158-159 | the name after `class ` runs up to the first `(` or `:`, whichever comes first, and contains neither |
| LineScan.ScanLines | utils.py:152-162 | the loop over the lines yields the facts of scanning every line in order, with no calls |
| LineScan.ScanAllShaped | utils.py:160-162 | the scan yields only scanned functions and classes, and no calls |
| LineScan.ScanFactsShaped | utils.py:162 | the scan of any content yields no calls |
| LineScan.ScanOfJoinedLines | utils.py:154 | the scan of `\n`-joined lines is the scan of those lines |
| LineScan.StripNoSurroundingSpace | utils.py:155 | `strip` leaves a line without surrounding whitespace as it is |
| LineScan.IndentationIgnored | utils.py:155 | leading whitespace does not change what a line contributes |
| LineScan.DefLineYieldsName | utils.py:156-157 | `def <name>(<params>):` yields the function `<name>` |
| LineScan.ClassLineYieldsName | utils.py:158-159 | `class <name>(<bases>):` and `class <name>:` yield the class `<name>` |
| LineScan.OtherLinesIgnored | utils.py:155-159 | other lines, and `def` without a following space, contribute nothing |
| Hotspots.Endpoints | utils.py:175-177 | the endpoint sequence lists source then target of each edge in order |
| Hotspots.CountDegree | utils.py:174-177 | the degree loop builds the insertion-ordered tally of all endpoints |
| Hotspots.DedupSpec | utils.py:176-177 | the keys in first-seen order are distinct and are exactly the ids that occur |
| Hotspots.TallySpec | utils.py:174-177 | the tally's keys are the distinct ids in first-seen order, each with its number of occurrences, and the counts add up to the number of ids |
| Hotspots.DegreeSum | utils.py:174-177 | the degrees add up to twice the number of edges |
| Hotspots.SelfLoopCountsTwice | utils.py:175-177 | a self-loop gives its node degree 2 |
| Hotspots.InsertPermutes | utils.py:178 | inserting into the sorted table is a permutation |
| Hotspots.InsertOrders | utils.py:178 | inserting keeps the table non-increasing in degree |
| Hotspots.InsertKeepsKeysDistinct | utils.py:178 | inserting a new key keeps the keys distinct |
| Hotspots.InsertStable | utils.py:178 | the inserted entry comes before the entries of equal degree |
| Hotspots.SortPermutes | utils.py:178 | `sorted` is a permutation of the table |
| Hotspots.SortOrders | utils.py:178 | `sorted(key=-degree)` is non-increasing in degree |
| Hotspots.SortKeepsKeysDistinct | utils.py:178 | sorting keeps the keys distinct |
| Hotspots.SortStable | utils.py:178 | for every degree, the entries of that degree keep their relative order |
| Hotspots.SortSpec | utils.py:178 | the sort is a stable, non-increasing permutation |
| Hotspots.TopEntriesAreEntries | utils.py:178 | `[:10]` keeps `min(10, n)` table entries, in non-increasing order |
| Hotspots.TopEntriesDominate | utils.py:178 | every entry left out has a degree no larger than any entry kept |
| Hotspots.TopEntriesTies | utils.py:178 | the kept entries of each degree are the first ones of that degree in first-seen order |
| Hotspots.TopEntriesDistinct | utils.py:178 | the kept ids are distinct |
| Hotspots.HotspotRanking | utils.py:173-183 | the hotspots are at most ten distinct endpoint ids with their degrees, in non-increasing degree order; a left-out id has no larger degree than a kept one; ties keep first-seen order |
| Hotspots.TiesKeepFirstSeenOrder | utils.py:173-183 | for edges `a -> b`, `c -> b` the hotspots are `b`, `a`, `c` |
| CallGraph.LoadedContent | utils.py:43-47 | a file over 300,000 bytes is read as `""`, any other as its text |
| CallGraph.ParseFile | utils.py:145-162 | a file whose lower-cased extension is `.py` gets the analyzer's facts and any other gets the line scan's |
| CallGraph.AppendEdges | utils.py:165-169 | the loop over a file's calls appends exactly that file's edges |
| CallGraph.ParseFilesWithCcg | utils.py:124-185 | the result is the module map, the edge list and the hotspots of the file list |
| CallGraph.CallEdgesSingle | utils.py:165-169 | one call yields its edge `[rel::caller, rel::callee]` exactly when caller and callee are non-empty, and nothing otherwise |
| CallGraph.CallEdgesConcat | utils.py:165-169 | a file's edges follow its call order: the edges of `a + b` are those of `a`, then those of `b` |
| CallGraph.CallEdgesCount | utils.py:165-169 | a file has exactly as many edges as calls with a non-empty caller and callee |
| CallGraph.CallEdgesExact | utils.py:165-169 | a file's edges are exactly the edges of its calls with a non-empty caller and callee, so there are never more edges than calls, and one edge per call when all are non-empty |
| CallGraph.PythonCallsAllBecomeEdges | utils.py:165-169 | every call the analyzer records yields an edge |
| CallGraph.ScannedFilesHaveNoEdges | utils.py:162 | a non-Python file contributes no edges |
| CallGraph.EdgesOverConcat | utils.py:142-169 | for any per-file facts, the edges of `a + b` are those of `a`, then those of `b` |
| CallGraph.EdgesOverStayInFile | utils.py:169 | for any per-file facts, both endpoints of every edge are ids of one file's relpath with non-empty names |
| CallGraph.AllEdgesConcat | utils.py:142-169 | edges keep file order: the edges of `a + b` are those of `a`, then those of `b` |
| CallGraph.EdgesStayInFile | utils.py:169 | both endpoints of every edge are symbol ids of one and the same file, with non-empty names |
| CallGraph.ModulesLastWins | utils.py:171 | the module map has one key per distinct relpath, holding the facts of the last file with that relpath |
| CallGraph.DispatchByLowerCaseExtension | utils.py:145-148 | for any stem, names ending in `.PY` or `.py` go to the analyzer and names ending in `.txt` to the line scan |
| CallGraph.DotFileIsNotPython | utils.py:145-148 | a dot-file such as `.py` has an empty extension and goes to the line scan |
| CallGraph.ParseFailureContributesNothing | utils.py:147-149 | a Python file that does not parse has empty facts and no edges |
| CallGraph.OversizedFileContributesNothing | utils.py:43-44 | an oversized non-Python file has empty facts |
| CallGraph.OversizedPythonFileContributesNothing | utils.py:43-49 | an oversized Python file is stored as `""`, which parses to an empty module, so it has empty facts too |
| CallGraph.ScenarioOversizedText | utils.py:43-44 | a 400,000-byte `b.txt` has empty functions, classes and calls |
| CallGraph.HelperModuleCalls | utils.py:90-108 | `def helper(): ...` and `def main(): helper()` record the one call `main -> helper` |
| CallGraph.HelperFileEdges | utils.py:165-169 | that module yields the one edge `<rel>::main -> <rel>::helper` |
| CallGraph.HelperFilePair | utils.py:142-169 | two such modules yield their edges in file order |
| CallGraph.HelperDegrees | utils.py:174-177 | `x.py::helper` and `y.py::helper` are distinct and have degree 1 each |
| CallGraph.ScenarioSameNameInTwoFiles | utils.py:142-169 | `x.py` and `y.py` both defining `helper` give edges to two distinct helper nodes |
| CallGraph.AllEdgesPair | utils.py:142-169 | the edges of two files are the first file's edges, then the second's |
| Text.StripLeft | utils.py:155 | `lstrip`: drops leading whitespace (characterised by `Text.StripLeftSpec`) |
| Text.StripRight | utils.py:155 | `rstrip`: drops trailing whitespace (characterised by `Text.StripRightSpec`) |
| Text.Strip | utils.py:155 | `strip`: `rstrip` after `lstrip` (characterised by `Text.StripSpec`) |
| Text.StartsWith | utils.py:156-158 | `startswith`: the prefix is the first `|prefix|` characters |
| Text.Join | utils.py:105 | `sep.join(parts)`: the parts with `sep` between neighbours (inverted by `Text.SplitJoinRoundTrip`) |
| Paths.Extension | utils/python_utils.py:29 | `os.path.splitext(p)[1]` (characterised by `Paths.SplitExt`) |
| Analyzer.QualName | utils.py:64-67 | `"<class>.<name>"` when a current class is set (truthy), else the bare name |
| Analyzer.BaseId | utils.py:83 | `getattr(b, 'id', getattr(b, 'attr', None))`: `id` of a `Name`, `attr` of an `Attribute`, else `None` |
| Analyzer.Root | utils.py:99-102 | the node reached by following `.value` from an attribute chain |
| Analyzer.Attrs | utils.py:99-102 | the attributes of an attribute chain, root side first |
| Analyzer.ChainSegments | utils.py:103-105 | the root `Name`'s id (if the root is a `Name`) followed by the attributes |
| Analyzer.CalleeName | utils.py:92-105 | the callee name of a call's `func`: the id of a `Name`, the `.`-join of the chain segments of an `Attribute`, nothing otherwise |
| Analyzer.Walk | utils.py:63-108 | the facts a visit of one node records in a scope: the function, class and call handlers, and the generic walk for every other node |
| Analyzer.GenericWalk | utils.py:75 | `generic_visit`: the facts of a node's children in field order, in the current scope |
| Analyzer.WalkAll | utils.py:75 | the facts of visiting a sequence of nodes in order |
| Analyzer.PythonFacts | utils.py:110-122 | facts of a parse result: empty on failure, else the walk from the top-level scope |
| LineScan.ScanLine | utils.py:155-159 | what one line contributes after `strip`: a function for `def `, a class for `class `, nothing otherwise |
| LineScan.ScanAll | utils.py:154-161 | the line contributions concatenated in line order |
| LineScan.ScanFacts | utils.py:152-162 | the line scan of a file's content over `splitlines` |
| Hotspots.Count | utils.py:174-177 | the number of occurrences of an id |
| Hotspots.Dedup | utils.py:174-177 | the distinct ids in order of first occurrence, the key order of the degree dict |
| Hotspots.Keys | utils.py:183 | the ids of a table, in order |
| Hotspots.Find | utils.py:176-177 | the position of a key in the table, or its length when the key is absent |
| Hotspots.Bump | utils.py:176-177 | `degree[id] = degree.get(id, 0) + 1` on an insertion-ordered dict: increment in place, or append with count 1 |
| Hotspots.Tally | utils.py:174-177 | the degree dict after bumping every id in turn (characterised by `Hotspots.TallySpec`) |
| Hotspots.InsertByDegree | utils.py:178 | insert an entry before the first entry of no larger degree |
| Hotspots.SortByDegree | utils.py:178 | `sorted(..., key=lambda x: -x[1])` as a stable insertion sort (characterised by `Hotspots.SortSpec`) |
| Hotspots.TopEntries | utils.py:178 | the first `min(10, n)` entries of the sorted table |
| Hotspots.HotspotsOf | utils.py:173-183 | the ids of the top entries of the degree table of the edges |
| CallGraph.IsPythonFile | utils.py:145-148 | the lower-cased `splitext` extension of the name is `.py` |
| CallGraph.FileFacts | utils.py:145-162 | a file's facts: the analyzer's for Python files, the line scan's otherwise |
| CallGraph.SymbolId | utils.py:169 | `"<rel>::<name>"` |
| CallGraph.EdgeOf | utils.py:169 | the edge `[rel::caller, rel::callee]` of a call |
| CallGraph.CallEdges | utils.py:165-169 | a file's edges: one per call with a non-empty caller and callee, in call order |
| CallGraph.ValidCalls | utils.py:168 | the number of calls with a non-empty caller and callee |
| CallGraph.EdgesOver | utils.py:142-169 | the edges of a file list for given per-file facts, file by file |
| CallGraph.AllEdges | utils.py:142-169 | the `call_edges` list of a file list |
| CallGraph.ModulesOf | utils.py:171 | the `modules` dict: each file's facts under its relpath, a later file overwriting an earlier one |
| CallGraph.CallGraphOf | utils.py:180-185 | the returned dict: the module map, the edges and their hotspots |

## Left out

- `clone_repo` (utils.py and utils/python_utils.py): it runs `git` in a subprocess, which is external I/O.
- `walk_tree` and `list_files`: they read the file system. The file list is an input to `CallGraph.ParseFilesWithCcg`. Only the size rule is modelled, as `CallGraph.LoadedContent`, with the size as a parameter. Read errors and UTF-8 decoding with `errors="ignore"` are not modelled.
- `write_output`: it is a file write.
- The tree-sitter import and the empty `parse_with_treesitter`: a foreign library with no logic in the source. `parse_files_with_ccg` never consults `TREE_SITTER_AVAILABLE`.
- `app.py`: a user interface and an HTTP client.
- The Python grammar behind `ast.parse`: it is the parameter `parse`. Every node kind the model does not name is `Other`, with its children in field order.
- Analyzer.ParsePythonSource: does not model an exception raised midway through `analyzer.visit`, such as exceeding the recursion limit on a very deep tree. In the source such an exception keeps the facts gathered so far; the model returns the facts of the whole walk.
- CallGraph.FileRecord: always holds `relpath`, `name` and `content`. The default values that `f.get` supplies for missing keys, and a missing `relpath` turned into `"None"` in ids, are not modelled.
- CallGraph.ParseFilesWithCcg: `modules` is a map, so the insertion order of the dict's keys is not represented.
- Text.LowerAscii: lowers ASCII letters only, not the full Unicode case mapping of `str.lower()`. This covers the `.py` test, but not an extension with a non-ASCII letter whose lower case is an ASCII letter.
- Paths.SplitExt: models `posixpath.splitext` only, with `/` as the separator. The Windows variant is not modelled.
- Text.IsSpace and Text.IsLineBreak: the character sets of Python's `str.isspace` and `str.splitlines` are written out as fixed lists. Changes to the Unicode database that Python consults are not followed.
- Hotspots.HotspotRanking: the number of hotspots is the fixed constant 10 of the code. It is not a parameter, because the code has none.
