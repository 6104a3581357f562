/**
 * The part of Python's abstract syntax tree that the analyzer distinguishes.
 * Each sequence field holds the child nodes that `ast.NodeVisitor.generic_visit`
 * reaches, in the order of the node's `_fields`.
 */
module PyAst {

  datatype Node =
      /** `def`: `params` are the names of `node.args.args`; `body` is every child
          generic_visit reaches (argument defaults and annotations, the statements,
          the decorators, the return annotation). */
      FunctionDef(name: string, line: int, params: seq<string>, body: seq<Node>)
      /** `async def`: the analyzer has no handler for it. */
    | AsyncFunctionDef(name: string, line: int, params: seq<string>, body: seq<Node>)
      /** `class`: `bases` are visited before `body` (keywords, statements, decorators). */
    | ClassDef(name: string, line: int, bases: seq<Node>, body: seq<Node>)
      /** A call: `func` is visited before `args` (positional and keyword arguments). */
    | Call(func: Node, args: seq<Node>)
    | Name(id: string)
    | Attribute(value: Node, attr: string)
      /** Any other node, with its children in field order (a `Module` is one). */
    | Other(children: seq<Node>)
}
