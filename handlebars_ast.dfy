/** The template AST produced by the Handlebars parser, restricted to the node kinds the
    compiler visits. Field names follow the parser's node objects. */
module HandlebarsAst {
  import opened Wrappers

  /** A template body, or the body of a block or of its `{{else}}` part. */
  datatype Program = Program(body: seq<Statement>)

  datatype Statement =
    | ContentStatement(value: string)
    | CommentStatement(value: string)
      /** `{{path params hash}}`; `escaped` is false for the triple-stash form. */
    | MustacheStatement(path: Expression, params: seq<Expression>, hash: Option<Hash>, escaped: bool)
      /** `{{#path params hash}}program{{else}}inverse{{/path}}` */
    | BlockStatement(path: Expression, params: seq<Expression>, hash: Option<Hash>,
                     program: Option<Program>, inverse: Option<Program>)
    | PartialStatement(name: Expression)
      /** Partials and decorator blocks are never compiled, so their bodies are not kept. */
    | PartialBlockStatement(name: Expression)
    | DecoratorBlock(path: Expression)

  /** A value position: a path such as `../../world.name` (two parent hops, parts
      `world` and `name`, original text as written) or a literal. `text` of a number is
      its JavaScript string form. Each literal's `value` property is named after its
      kind here. */
  datatype Expression =
    | PathExpression(depth: nat, parts: seq<string>, original: string)
    | StringLiteral(value: string)
    | NumberLiteral(number: real, text: string)
    | BooleanLiteral(truth: bool)
    | UndefinedLiteral
    | NullLiteral
    | SubExpression(path: Expression, params: seq<Expression>)

  datatype Hash = Hash(pairs: seq<HashPair>)
  datatype HashPair = HashPair(key: string, value: Expression)

  /** The `program` property of a node that may be a block or a mustache (a mustache has
      none). */
  function ProgramOf(st: Statement): Option<Program>
  {
    if st.BlockStatement? then st.program else None
  }

  function InverseOf(st: Statement): Option<Program>
  {
    if st.BlockStatement? then st.inverse else None
  }

  /** Number of statements in a node, counting those nested in block bodies; the
      termination measure of the compiler. */
  function StatementSize(st: Statement): (n: nat)
    ensures n >= 1
  {
    match st
    case BlockStatement(_, _, _, program, inverse) =>
      1 + OptionalBodySize(program) + OptionalBodySize(inverse)
    case _ => 1
  }

  function OptionalBodySize(p: Option<Program>): nat
  {
    match p
    case None => 0
    case Some(prog) => BodySize(prog.body)
  }

  function BodySize(body: seq<Statement>): nat
  {
    if |body| == 0 then 0 else StatementSize(body[0]) + BodySize(body[1..])
  }

  lemma {:induction false} StatementWithinBody(body: seq<Statement>, i: nat)
    requires i < |body|
    ensures StatementSize(body[i]) <= BodySize(body)
    decreases i
  {
    if i > 0 {
      StatementWithinBody(body[1..], i - 1);
    }
  }
}
