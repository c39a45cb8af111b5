/** What the visitor computes, as functions: every rule takes the current scope depth and
    the helper usage table, and yields its result together with the updated table. The
    class in `EjsVisitor` is proved to compute exactly these values. */
module EjsCompile {
  import opened Wrappers
  import opened Text
  import opened Estree
  import opened EjsBuilders
  import H = HandlebarsAst

  /** The options object as a caller passes it; absent options are `None`. */
  datatype Options = Options(escapeFn: Option<string>, exportRender: bool,
                             helperResolver: Option<string -> Value>)

  /** The options after the constructor has filled in the defaults. `exportRender` is
      the `export` option. */
  datatype Config = Config(escapeFn: string, exportRender: bool, helperResolver: string -> Value)

  /** The resolver used when none is configured: `() => false`. */
  function NoResolver(name: string): Value
  {
    Bool(false)
  }

  /** The constructor's defaults: an empty escape function name counts as absent, and
      without a resolver every helper resolves to `false`. */
  function Configure(o: Options): (c: Config)
    ensures c.escapeFn != ""
    ensures o.escapeFn.Some? && o.escapeFn.value != "" ==> c.escapeFn == o.escapeFn.value
    ensures o.escapeFn.None? || o.escapeFn.value == "" ==> c.escapeFn == "escape"
    ensures c.exportRender == o.exportRender
    ensures o.helperResolver.Some? ==> c.helperResolver == o.helperResolver.value
    ensures o.helperResolver.None? ==> forall n :: !Truthy(c.helperResolver(n))
  {
    Config(if o.escapeFn.Some? && o.escapeFn.value != "" then o.escapeFn.value else "escape",
           o.exportRender,
           if o.helperResolver.Some? then o.helperResolver.value else NoResolver)
  }

  /** The TypeErrors the visitor can raise on a template the parser accepts. */
  datatype CompileError =
      /** `path.parts` of a literal or sub-expression head is undefined */
    | PathNotAPathExpression
      /** `params[0]` of an `if` or `unless` without a condition is undefined */
    | MissingConditionParam
      /** `program` of an `if` or `unless` written as a mustache is undefined */
    | MissingProgram

  /** A rule's outcome together with the helper table as the rule leaves it. */
  datatype Step<T> = Step(result: Result<T, CompileError>, table: HelperTable)

  /** `_getVariableName`: the parameter of the render function at scope depth `depth`. */
  function VariableName(depth: int): (r: string)
    ensures '.' !in r
  {
    "data" + IntToString(depth)
  }

  /** `parts[0]` rendered into a string; a path without parts (`this`) gives the text of
      `undefined`. */
  function HeadName(parts: seq<string>): string
  {
    if |parts| == 0 then "undefined" else parts[0]
  }

  /** `params[0].original` rendered into a string. */
  function OriginalText(e: H.Expression): string
  {
    match e
    case PathExpression(_, _, original) => original
    case StringLiteral(value) => value
    case NumberLiteral(_, text) => text
    case BooleanLiteral(truth) => if truth then "true" else "false"
    case UndefinedLiteral => "undefined"
    case NullLiteral => "null"
    case SubExpression(_, _) => "undefined"
  }

  /** The `value` property of a hash value that is not a path. */
  function LiteralValue(e: H.Expression): Value
  {
    match e
    case StringLiteral(value) => Str(value)
    case NumberLiteral(number, _) => Number(number)
    case BooleanLiteral(truth) => Bool(truth)
    case NullLiteral => Null
    case _ => Undefined
  }

  /** `''` as the conditional rules write it. */
  const EmptyString := Literal(Str(""), RawText("''"))

  /** `ContentStatement`: the fragment as a string literal, even when it is empty. */
  function ContentLiteral(value: string): (r: Node)
    ensures r.Literal? && r.value == Str(value)
  {
    Literal(Str(value), NoRaw)
  }

  /** `callee(scope.head)`, the call an interpolation compiles to. */
  function Interpolation(callee: string, scope: string, head: string): (r: Node)
    requires '.' !in scope
  {
    CallExpression(Identifier(callee), [ScopedMember(scope, head)])
  }

  /** The value of one hash pair: a path becomes a member chain on the scope variable,
      any other value a literal of that value. */
  function HashValue(value: H.Expression, scope: string): (r: Node)
    requires '.' !in scope
  {
    if value.PathExpression? then ScopedMember(scope, value.original)
    else Literal(LiteralValue(value), JsonOf(LiteralValue(value)))
  }

  /** One property of the helper's options object. */
  function HashProperty(pair: H.HashPair, depth: int): Property
  {
    Property(Identifier(pair.key), HashValue(pair.value, VariableName(depth)))
  }

  /** The properties of the options object: one per hash pair, in order. */
  function PairProperties(pairs: seq<H.HashPair>, depth: int): (r: seq<Property>)
    ensures |r| == |pairs|
    decreases |pairs|
  {
    if |pairs| == 0 then []
    else PairProperties(pairs[..|pairs| - 1], depth) + [HashProperty(pairs[|pairs| - 1], depth)]
  }

  function HashProperties(hash: Option<H.Hash>, depth: int): seq<Property>
  {
    if hash.None? then [] else PairProperties(hash.value.pairs, depth)
  }

  /** The function node `_createRenderFunction` builds around a body expression. */
  function RenderFunction(functionName: Option<string>, param: string, argument: Option<Node>): Node
  {
    Program([FunctionDeclaration(if functionName.Some? then Some(Identifier(functionName.value)) else None,
                                 [Identifier(param)],
                                 BlockStatement([ReturnStatement(argument)]))])
  }

  /** `n` is a program holding one function declaration with the given name and a single
      parameter `param`. */
  predicate IsRenderFunction(n: Node, functionName: Option<string>, param: string)
  {
    && n.Program? && |n.body| == 1
    && n.body[0].FunctionDeclaration?
    && n.body[0].id == (if functionName.Some? then Some(Identifier(functionName.value)) else None)
    && n.body[0].params == [Identifier(param)]
  }

  /** Accepted statements that yield a node; every other kind yields nothing. */
  predicate Contributes(st: H.Statement)
  {
    st.ContentStatement? || st.MustacheStatement? || st.BlockStatement?
  }

  function OptionToSeq(o: Option<Node>): seq<Node>
  {
    if o.Some? then [o.value] else []
  }

  /** `accept` on a statement of a body. */
  function CompileStatement(st: H.Statement, depth: int, c: Config, t: HelperTable): (s: Step<Option<Node>>)
    decreases H.StatementSize(st), 3
  {
    match st
    case ContentStatement(value) => Step(Success(Some(ContentLiteral(value))), t)
    case CommentStatement(_) => Step(Success(None), t)
    case MustacheStatement(_, _, _, _) => CompileMustache(st, depth, c, t)
    case BlockStatement(_, _, _, _, _) => CompileBlock(st, depth, c, t)
    case PartialStatement(_) => Step(Success(None), t)
    case PartialBlockStatement(_) => Step(Success(None), t)
    case DecoratorBlock(_) => Step(Success(None), t)
  }

  /** `MustacheStatement`: a hashed mustache is a helper call, any other one a call of
      the escape function or of `String` on the referenced variable. */
  function CompileMustache(m: H.Statement, depth: int, c: Config, t: HelperTable): (s: Step<Option<Node>>)
    requires m.MustacheStatement?
    decreases H.StatementSize(m), 2
  {
    if m.hash.Some? then CompileBlock(m, depth, c, t)
    else
      match m.path
      case PathExpression(pathDepth, parts, _) =>
        Step(Success(Some(Interpolation(if m.escaped then c.escapeFn else "String",
                                        VariableName(depth - pathDepth), HeadName(parts)))), t)
      case _ => Step(Failure(PathNotAPathExpression), t)
  }

  /** `BlockStatement`: record the helper, then lower `if` and `unless` to conditionals
      and every other helper to a call. */
  function CompileBlock(b: H.Statement, depth: int, c: Config, t: HelperTable): (s: Step<Option<Node>>)
    requires b.MustacheStatement? || b.BlockStatement?
    decreases H.StatementSize(b), 1
  {
    match b.path
    case PathExpression(_, parts, _) =>
      var helperName := HeadName(parts);
      var t1 := UseHelper(t, helperName, c.helperResolver);
      if helperName == "if" then CompileIf(b, depth, c, t1)
      else if helperName == "unless" then CompileUnless(b, depth, c, t1)
      else CompileHelperCall(b, helperName, depth, c, t1)
    case _ => Step(Failure(PathNotAPathExpression), t)
  }

  /** `IfStatement`: `data{depth}.cond ? body : (inverse or '')`. */
  function CompileIf(b: H.Statement, depth: int, c: Config, t: HelperTable): (s: Step<Option<Node>>)
    requires b.MustacheStatement? || b.BlockStatement?
    decreases H.StatementSize(b), 0
  {
    if |b.params| == 0 then Step(Failure(MissingConditionParam), t)
    else
      var test := ScopedMember(VariableName(depth), OriginalText(b.params[0]));
      match H.ProgramOf(b)
      case None => Step(Failure(MissingProgram), t)
      case Some(program) =>
        assert H.BodySize(program.body) < H.StatementSize(b);
        var consequent := CompileConcat(program.body, depth, c, t);
        if consequent.result.Failure? then Step(Failure(consequent.result.error), consequent.table)
        else
          match H.InverseOf(b)
          case None =>
            Step(Success(Some(ConditionalExpression(test, consequent.result.value, Some(EmptyString)))),
                 consequent.table)
          case Some(inverse) =>
            assert H.BodySize(inverse.body) < H.StatementSize(b);
            var alternate := CompileConcat(inverse.body, depth, c, consequent.table);
            if alternate.result.Failure? then Step(Failure(alternate.result.error), alternate.table)
            else
              Step(Success(Some(ConditionalExpression(test, consequent.result.value, alternate.result.value))),
                   alternate.table)
  }

  /** `UnlessStatement`: `data{depth}.cond ? (inverse or '') : body`, the inverse being
      compiled first. */
  function CompileUnless(b: H.Statement, depth: int, c: Config, t: HelperTable): (s: Step<Option<Node>>)
    requires b.MustacheStatement? || b.BlockStatement?
    decreases H.StatementSize(b), 0
  {
    if |b.params| == 0 then Step(Failure(MissingConditionParam), t)
    else
      var test := ScopedMember(VariableName(depth), OriginalText(b.params[0]));
      var consequent :=
        match H.InverseOf(b)
        case None => Step(Success(Some(EmptyString)), t)
        case Some(inverse) =>
          assert H.BodySize(inverse.body) < H.StatementSize(b);
          CompileConcat(inverse.body, depth, c, t);
      if consequent.result.Failure? then Step(Failure(consequent.result.error), consequent.table)
      else
        match H.ProgramOf(b)
        case None => Step(Failure(MissingProgram), consequent.table)
        case Some(program) =>
          assert H.BodySize(program.body) < H.StatementSize(b);
          var alternate := CompileConcat(program.body, depth, c, consequent.table);
          if alternate.result.Failure? then Step(Failure(alternate.result.error), alternate.table)
          else
            Step(Success(Some(ConditionalExpression(test, consequent.result.value, alternate.result.value))),
                 alternate.table)
  }

  /** The generic helper call `helperName(options[, {fn: render}])`. */
  function CompileHelperCall(b: H.Statement, helperName: string, depth: int, c: Config, t: HelperTable)
    : (s: Step<Option<Node>>)
    requires b.MustacheStatement? || b.BlockStatement?
    decreases H.StatementSize(b), 0
  {
    var options := ObjectExpression(HashProperties(b.hash, depth));
    var program := H.ProgramOf(b);
    if program.Some? && |program.value.body| > 0 then
      assert H.BodySize(program.value.body) < H.StatementSize(b);
      var fn := CompileRenderFunction(program.value, None, depth, c, t);
      if fn.result.Failure? then Step(Failure(fn.result.error), fn.table)
      else
        var fnOption := ObjectExpression([Property(Identifier("fn"), fn.result.value)]);
        Step(Success(Some(CallExpression(Identifier(helperName), [options, fnOption]))), fn.table)
    else
      Step(Success(Some(CallExpression(Identifier(helperName), [options]))), t)
  }

  /** The operands of a body: `statements.map(accept).filter(truthy)`. */
  function CompileBody(body: seq<H.Statement>, depth: int, c: Config, t: HelperTable): (s: Step<seq<Node>>)
    decreases H.BodySize(body), 4
  {
    if |body| == 0 then Step(Success([]), t)
    else
      var head := CompileStatement(body[0], depth, c, t);
      if head.result.Failure? then Step(Failure(head.result.error), head.table)
      else
        var tail := CompileBody(body[1..], depth, c, head.table);
        if tail.result.Failure? then tail
        else Step(Success(OptionToSeq(head.result.value) + tail.result.value), tail.table)
  }

  /** `ops` followed by the operands of `s`, when `s` succeeded. */
  function Prefixed(ops: seq<Node>, s: Step<seq<Node>>): Step<seq<Node>>
  {
    if s.result.Success? then Step(Success(ops + s.result.value), s.table) else s
  }

  /** `_concatExpressions`: the operands of a body folded with `+`. */
  function CompileConcat(body: seq<H.Statement>, depth: int, c: Config, t: HelperTable): (s: Step<Option<Node>>)
    decreases H.BodySize(body), 5
  {
    var operands := CompileBody(body, depth, c, t);
    if operands.result.Failure? then Step(Failure(operands.result.error), operands.table)
    else Step(Success(ConcatExpressions(operands.result.value)), operands.table)
  }

  /** `_createRenderFunction`: the body is compiled one scope deeper, and the function's
      parameter is that scope's variable. */
  function CompileRenderFunction(program: H.Program, functionName: Option<string>, depth: int,
                                 c: Config, t: HelperTable): (s: Step<Node>)
    ensures s.result.Success? ==> IsRenderFunction(s.result.value, functionName, VariableName(depth + 1))
    decreases H.BodySize(program.body), 6
  {
    var argument := CompileConcat(program.body, depth + 1, c, t);
    if argument.result.Failure? then Step(Failure(argument.result.error), argument.table)
    else Step(Success(RenderFunction(functionName, VariableName(depth + 1), argument.result.value)),
              argument.table)
  }

  /** `Program`, the entry point: compile the template as `render` at depth 0 with an
      empty table, optionally export it, and put the helper imports in front. */
  function CompileTemplate(program: H.Program, c: Config): Result<Node, CompileError>
  {
    var render := CompileRenderFunction(program, Some("render"), 0, c, EmptyTable);
    if render.result.Failure? then Failure(render.result.error)
    else
      var body := render.result.value.body;
      var last := |body| - 1;
      var declarations := if c.exportRender then body[last := ExportNamedDeclaration(body[last])] else body;
      Success(Program(CreateHelperImports(render.table) + declarations))
  }
}
