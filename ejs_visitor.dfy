/** The visitor object: it keeps the scope depth and the helper usage table in fields and
    updates them as it walks the template. Every method is proved to return what the
    corresponding rule of `EjsCompile` computes from the state it started in, and to leave
    the state that rule describes; on a TypeError nothing is promised about the fields,
    since the source abandons the visitor then. */
module EjsVisitor {
  import opened Wrappers
  import opened Estree
  import opened EjsBuilders
  import opened EjsCompile
  import H = HandlebarsAst

  class EcmaScriptVisitor {
    const options: Config
    /** `_depth`: how many render functions enclose the node being visited. */
    var depth: int
    /** `_usedHelpers` */
    var usedHelpers: HelperTable

    /** The constructor fills in the options' defaults. `Program` resets both fields
        before it compiles anything. */
    constructor (opts: Options)
      ensures options == Configure(opts)
      ensures depth == 0 && usedHelpers == EmptyTable
    {
      options := Configure(opts);
      depth := 0;
      usedHelpers := EmptyTable;
    }

    /** `_getVariableName` */
    function GetVariableName(offset: int): (r: string)
      reads this
      ensures r == VariableName(depth + offset)
      ensures '.' !in r
    {
      VariableName(depth + offset)
    }

    /** `Program`: the entry point for a whole template. */
    method Program(program: H.Program) returns (r: Result<Node, CompileError>)
      modifies this
      ensures r == CompileTemplate(program, options)
      ensures r.Success? ==> depth == 0
      ensures r.Success? ==> usedHelpers == CompileRenderFunction(program, Some("render"), 0, options, EmptyTable).table
    {
      depth := 0;
      usedHelpers := EmptyTable;
      var jsProgram := CreateRenderFunction(program, Some("render"));
      if jsProgram.Failure? {
        r := Failure(jsProgram.error);
        return;
      }
      var body := jsProgram.value.body;
      if options.exportRender {
        var lastEntry := |body| - 1;
        body := body[lastEntry := ExportNamedDeclaration(body[lastEntry])];
      }
      body := CreateHelperImports(usedHelpers) + body;
      r := Success(Node.Program(body));
    }

    /** `_createRenderFunction`: one scope deeper while the body is compiled. A TypeError
        inside the body skips the decrement, as the exception does in the source. */
    method CreateRenderFunction(program: H.Program, functionName: Option<string>)
      returns (r: Result<Node, CompileError>)
      modifies this
      ensures var s := CompileRenderFunction(program, functionName, old(depth), options, old(usedHelpers));
              r == s.result && (r.Success? ==> depth == old(depth) && usedHelpers == s.table)
      decreases H.BodySize(program.body), 6
    {
      depth := depth + 1;
      var param := GetVariableName(0);
      var argument := ConcatStatements(program.body);
      if argument.Failure? {
        r := Failure(argument.error);
        return;
      }
      depth := depth - 1;
      r := Success(RenderFunction(functionName, param, argument.value));
    }

    /** `_concatExpressions`: accept every statement in order, drop the absent results,
        fold the rest with `+`. */
    method ConcatStatements(statements: seq<H.Statement>) returns (r: Result<Option<Node>, CompileError>)
      modifies this
      ensures var s := CompileConcat(statements, old(depth), options, old(usedHelpers));
              r == s.result && (r.Success? ==> depth == old(depth) && usedHelpers == s.table)
      decreases H.BodySize(statements), 5
    {
      var operands: seq<Node> := [];
      var i := 0;
      assert statements[i..] == statements;
      ghost var whole := CompileBody(statements, depth, options, usedHelpers);
      assert whole.result.Success? ==> operands + whole.result.value == whole.result.value;
      while i < |statements|
        invariant 0 <= i <= |statements|
        invariant depth == old(depth)
        invariant CompileBody(statements, old(depth), options, old(usedHelpers))
                  == Prefixed(operands, CompileBody(statements[i..], depth, options, usedHelpers))
      {
        H.StatementWithinBody(statements, i);
        assert statements[i..][0] == statements[i] && statements[i..][1..] == statements[i + 1..];
        ghost var rest := CompileBody(statements[i..], depth, options, usedHelpers);
        ghost var head := CompileStatement(statements[i], depth, options, usedHelpers);
        var accepted := Accept(statements[i]);
        if accepted.Failure? {
          assert rest.result == Failure(accepted.error);
          r := Failure(accepted.error);
          return;
        }
        ghost var tail := CompileBody(statements[i + 1..], depth, options, usedHelpers);
        assert rest == if tail.result.Success? then Step(Success(OptionToSeq(head.result.value) + tail.result.value), tail.table) else tail;
        assert tail.result.Success? ==>
          operands + (OptionToSeq(accepted.value) + tail.result.value)
          == (operands + OptionToSeq(accepted.value)) + tail.result.value;
        operands := operands + OptionToSeq(accepted.value);
        i := i + 1;
      }
      assert statements[i..] == [];
      assert operands + [] == operands;
      r := Success(ConcatExpressions(operands));
    }

    /** `accept` on one statement: dispatch on its kind. Comments yield nothing, and so do
        partials and decorator blocks (the source only logs a warning for them). */
    method Accept(st: H.Statement) returns (r: Result<Option<Node>, CompileError>)
      modifies this
      ensures var s := CompileStatement(st, old(depth), options, old(usedHelpers));
              r == s.result && (r.Success? ==> depth == old(depth) && usedHelpers == s.table)
      decreases H.StatementSize(st), 3
    {
      match st
      case ContentStatement(value) =>
        r := Success(Some(ContentLiteral(value)));
      case CommentStatement(_) =>
        r := Success(None);
      case MustacheStatement(_, _, _, _) =>
        r := MustacheStatement(st);
      case BlockStatement(_, _, _, _, _) =>
        r := BlockStatement(st);
      case PartialStatement(_) =>
        r := Success(None);
      case PartialBlockStatement(_) =>
        r := Success(None);
      case DecoratorBlock(_) =>
        r := Success(None);
    }

    /** `MustacheStatement` */
    method MustacheStatement(mustache: H.Statement) returns (r: Result<Option<Node>, CompileError>)
      requires mustache.MustacheStatement?
      modifies this
      ensures var s := CompileMustache(mustache, old(depth), options, old(usedHelpers));
              r == s.result && (r.Success? ==> depth == old(depth) && usedHelpers == s.table)
      decreases H.StatementSize(mustache), 2
    {
      if mustache.hash.Some? {
        r := BlockStatement(mustache);
      } else if mustache.path.PathExpression? {
        var callee := if mustache.escaped then options.escapeFn else "String";
        var scope := GetVariableName(-(mustache.path.depth as int));
        r := Success(Some(Interpolation(callee, scope, HeadName(mustache.path.parts))));
      } else {
        r := Failure(PathNotAPathExpression);
      }
    }

    /** `IfStatement` */
    method IfStatement(ifBlock: H.Statement) returns (r: Result<Option<Node>, CompileError>)
      requires ifBlock.MustacheStatement? || ifBlock.BlockStatement?
      modifies this
      ensures var s := CompileIf(ifBlock, old(depth), options, old(usedHelpers));
              r == s.result && (r.Success? ==> depth == old(depth) && usedHelpers == s.table)
      decreases H.StatementSize(ifBlock), 0
    {
      if |ifBlock.params| == 0 {
        r := Failure(MissingConditionParam);
        return;
      }
      var condition := OriginalText(ifBlock.params[0]);
      var test := ScopedMember(GetVariableName(0), condition);
      var program := H.ProgramOf(ifBlock);
      if program.None? {
        r := Failure(MissingProgram);
        return;
      }
      assert H.BodySize(program.value.body) < H.StatementSize(ifBlock);
      var consequent := ConcatStatements(program.value.body);
      if consequent.Failure? {
        r := Failure(consequent.error);
        return;
      }
      var alternate := Some(EmptyString);
      var inverse := H.InverseOf(ifBlock);
      if inverse.Some? {
        assert H.BodySize(inverse.value.body) < H.StatementSize(ifBlock);
        var compiled := ConcatStatements(inverse.value.body);
        if compiled.Failure? {
          r := Failure(compiled.error);
          return;
        }
        alternate := compiled.value;
      }
      r := Success(Some(ConditionalExpression(test, consequent.value, alternate)));
    }

    /** `UnlessStatement`: the branches of `IfStatement` swapped; the inverse is compiled
        first. */
    method UnlessStatement(unlessBlock: H.Statement) returns (r: Result<Option<Node>, CompileError>)
      requires unlessBlock.MustacheStatement? || unlessBlock.BlockStatement?
      modifies this
      ensures var s := CompileUnless(unlessBlock, old(depth), options, old(usedHelpers));
              r == s.result && (r.Success? ==> depth == old(depth) && usedHelpers == s.table)
      decreases H.StatementSize(unlessBlock), 0
    {
      if |unlessBlock.params| == 0 {
        r := Failure(MissingConditionParam);
        return;
      }
      var condition := OriginalText(unlessBlock.params[0]);
      var test := ScopedMember(GetVariableName(0), condition);
      var consequent := Some(EmptyString);
      var inverse := H.InverseOf(unlessBlock);
      if inverse.Some? {
        assert H.BodySize(inverse.value.body) < H.StatementSize(unlessBlock);
        var compiled := ConcatStatements(inverse.value.body);
        if compiled.Failure? {
          r := Failure(compiled.error);
          return;
        }
        consequent := compiled.value;
      }
      var program := H.ProgramOf(unlessBlock);
      if program.None? {
        r := Failure(MissingProgram);
        return;
      }
      assert H.BodySize(program.value.body) < H.StatementSize(unlessBlock);
      var alternate := ConcatStatements(program.value.body);
      if alternate.Failure? {
        r := Failure(alternate.error);
        return;
      }
      r := Success(Some(ConditionalExpression(test, consequent, alternate.value)));
    }

    /** `BlockStatement`, also reached from a hashed mustache. */
    method BlockStatement(block: H.Statement) returns (r: Result<Option<Node>, CompileError>)
      requires block.MustacheStatement? || block.BlockStatement?
      modifies this
      ensures var s := CompileBlock(block, old(depth), options, old(usedHelpers));
              r == s.result && (r.Success? ==> depth == old(depth) && usedHelpers == s.table)
      decreases H.StatementSize(block), 1
    {
      if !block.path.PathExpression? {
        r := Failure(PathNotAPathExpression);
        return;
      }
      var helperName := HeadName(block.path.parts);
      ghost var before := usedHelpers;
      if !Resolved(usedHelpers, helperName) {
        usedHelpers := Assign(usedHelpers, helperName, options.helperResolver(helperName));
      }
      assert usedHelpers == UseHelper(before, helperName, options.helperResolver);
      if helperName == "if" {
        assert CompileBlock(block, depth, options, before) == CompileIf(block, depth, options, usedHelpers);
        r := IfStatement(block);
        return;
      }
      if helperName == "unless" {
        assert CompileBlock(block, depth, options, before) == CompileUnless(block, depth, options, usedHelpers);
        r := UnlessStatement(block);
        return;
      }
      assert CompileBlock(block, depth, options, before)
          == CompileHelperCall(block, helperName, depth, options, usedHelpers);
      r := HelperCall(block, helperName);
    }

    /** The last case of `BlockStatement`: a call of the helper with its options object
        and, when the block has a non-empty body, an object holding the body's render
        function as `fn`. */
    method HelperCall(block: H.Statement, helperName: string) returns (r: Result<Option<Node>, CompileError>)
      requires block.MustacheStatement? || block.BlockStatement?
      modifies this
      ensures var s := CompileHelperCall(block, helperName, old(depth), options, old(usedHelpers));
              r == s.result && (r.Success? ==> depth == old(depth) && usedHelpers == s.table)
      decreases H.StatementSize(block), 0
    {
      var properties := HashOptions(block.hash);
      var helperOptions := ObjectExpression(properties);
      var program := H.ProgramOf(block);
      if program.Some? && |program.value.body| > 0 {
        assert H.BodySize(program.value.body) < H.StatementSize(block);
        var fn := CreateRenderFunction(program.value, None);
        if fn.Failure? {
          r := Failure(fn.error);
          return;
        }
        var fnOption := ObjectExpression([Property(Identifier("fn"), fn.value)]);
        r := Success(Some(CallExpression(Identifier(helperName), [helperOptions, fnOption])));
      } else {
        r := Success(Some(CallExpression(Identifier(helperName), [helperOptions])));
      }
    }

    /** The options object of a helper call, built by the `forEach` over the hash pairs: a
        path value becomes a member chain on the current scope variable, any other value a
        literal. */
    method HashOptions(hash: Option<H.Hash>) returns (properties: seq<Property>)
      ensures properties == HashProperties(hash, depth)
    {
      properties := [];
      if hash.Some? {
        var pairs := hash.value.pairs;
        var i := 0;
        while i < |pairs|
          invariant 0 <= i <= |pairs|
          invariant properties == PairProperties(pairs[..i], depth)
        {
          var pair := pairs[i];
          var property := Property(Identifier(pair.key), HashValue(pair.value, GetVariableName(0)));
          assert pairs[..i + 1][..i] == pairs[..i];
          properties := properties + [property];
          i := i + 1;
        }
        assert pairs[..i] == pairs;
      }
    }
  }

  /** `toEcmaScript`: a fresh visitor per template, so no state survives between calls. */
  method ToEcmaScript(ast: H.Program, opts: Options) returns (r: Result<Node, CompileError>)
    ensures r == CompileTemplate(ast, Configure(opts))
  {
    var visitor := new EcmaScriptVisitor(opts);
    r := visitor.Program(ast);
  }
}
