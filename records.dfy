/** The structural facts recorded for one file: `{"functions", "classes", "calls"}`. */
module Records {
  import opened Wrappers

  /** A function entry: from the analyzer `{name, lineno, args}`, from the line scan `{name}` only. */
  datatype FunctionFact =
      FunctionFact(name: string, line: int, args: seq<string>)
    | ScannedFunction(name: string)

  /** A class entry: from the analyzer `{name, lineno, bases}`, from the line scan `{name}` only. */
  datatype ClassFact =
      ClassFact(name: string, line: int, bases: seq<Option<string>>)
    | ScannedClass(name: string)

  /** `{caller, callee}`: the qualified name of the calling function and the callee's text. */
  datatype CallFact = CallFact(caller: string, callee: string)

  datatype Facts = Facts(functions: seq<FunctionFact>, classes: seq<ClassFact>, calls: seq<CallFact>)
  {
    /** The facts of `this` followed by those of `other`, list by list. */
    function Then(other: Facts): Facts
    {
      Facts(functions + other.functions, classes + other.classes, calls + other.calls)
    }
  }

  /** A call edge `[source_id, destination_id]` between symbol ids `"<relpath>::<name>"`. */
  datatype Edge = Edge(source: string, target: string)

  const Empty: Facts := Facts([], [], [])

  function Names(fs: seq<FunctionFact>): (r: seq<string>)
    ensures |r| == |fs|
    ensures forall i :: 0 <= i < |fs| ==> r[i] == fs[i].name
  {
    seq(|fs|, i requires 0 <= i < |fs| => fs[i].name)
  }
}
