/** The ESTree nodes the compiler emits, and the JavaScript values they carry. */
module Estree {
  import opened Wrappers

  /** A JavaScript primitive value. Numbers are kept as exact reals. */
  datatype Value = Undefined | Null | Bool(b: bool) | Number(n: real) | Str(s: string)

  /** JavaScript truthiness of a primitive: `undefined`, `null`, `false`, `0` and `''`
      are falsy. */
  predicate Truthy(v: Value)
  {
    match v
    case Undefined => false
    case Null => false
    case Bool(b) => b
    case Number(n) => n != 0.0
    case Str(s) => s != ""
  }

  /** The `raw` property of a literal: absent, given text, or `JSON.stringify` of the
      value (kept symbolic, its formatting is not modelled). */
  datatype Raw = NoRaw | RawText(text: string) | JsonOf(v: Value)

  datatype Node =
    | Literal(value: Value, raw: Raw)
    | Identifier(name: string)
      /** `obj` is ESTree's `object` property (a reserved word here). */
    | MemberExpression(obj: Node, property: Node)
      /** The compiler only emits `'+'`. */
    | BinaryExpression(operator: string, left: Node, right: Node)
    | CallExpression(callee: Node, arguments: seq<Node>)
      /** An absent branch is a `null` subtree, as the visitor leaves it. */
    | ConditionalExpression(test: Node, consequent: Option<Node>, alternate: Option<Node>)
    | ObjectExpression(properties: seq<Property>)
    | Program(body: seq<Node>)
      /** `functionBody` is ESTree's `body` property of a function. */
    | FunctionDeclaration(id: Option<Node>, params: seq<Node>, functionBody: Node)
    | BlockStatement(body: seq<Node>)
    | ReturnStatement(argument: Option<Node>)
    | ExportNamedDeclaration(declaration: Node)
    | ImportDeclaration(specifiers: seq<ImportSpecifier>, source: Node)

  datatype Property = Property(key: Node, value: Node)
  datatype ImportSpecifier = ImportSpecifier(local: Node, imported: Node)

  predicate IsConcatenation(n: Node)
  {
    n.BinaryExpression? && n.operator == "+"
  }

  /** The operands of a left-leaning `+` chain, left to right. */
  function Operands(n: Node): seq<Node>
  {
    if IsConcatenation(n) then Operands(n.left) + [n.right] else [n]
  }

  /** The identifiers of a static member chain `a.b.c`, root first; `None` when the node
      is not such a chain. */
  function MemberPath(n: Node): Option<seq<string>>
  {
    match n
    case Identifier(name) => Some([name])
    case MemberExpression(obj, Identifier(p)) =>
      (match MemberPath(obj)
       case Some(path) => Some(path + [p])
       case None => None)
    case _ => None
  }
}
