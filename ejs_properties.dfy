/** What the compiler promises about the code it emits: how bodies become `+` chains,
    how `unless` mirrors `if`, how variable references and helper calls are shaped, and
    what the finished module looks like. */
module EjsProperties {
  import opened Wrappers
  import opened Text
  import opened Estree
  import opened EjsBuilders
  import opened EjsCompile
  import opened EjsTables
  import H = HandlebarsAst

  /* ---------------------------------------------------------------------------------
     Bodies and `+` chains
     --------------------------------------------------------------------------------- */

  /** The statements of a body that yield a node, in order. */
  function Contributing(body: seq<H.Statement>): (r: seq<H.Statement>)
    ensures |r| <= |body|
    decreases |body|
  {
    if |body| == 0 then []
    else (if Contributes(body[0]) then [body[0]] else []) + Contributing(body[1..])
  }

  /** Folding operands with `concatExpressions` and reading the chain back gives the
      operands, as long as none of them is itself a `+` node. */
  lemma {:induction false} ConcatOperands(ops: seq<Node>)
    requires |ops| >= 1
    requires forall i :: 0 <= i < |ops| ==> !IsConcatenation(ops[i])
    ensures Operands(ConcatExpressions(ops).value) == ops
    decreases |ops|
  {
    if |ops| >= 2 {
      var init := ops[..|ops| - 1];
      ConcatOperands(init);
      assert init + [ops[|ops| - 1]] == ops;
    }
  }

  /** A block compiles to a conditional for `if` and `unless`, and to a call of the
      helper for every other name. */
  lemma BlockShape(b: H.Statement, depth: int, c: Config, t: HelperTable)
    requires b.MustacheStatement? || b.BlockStatement?
    ensures var r := CompileBlock(b, depth, c, t).result;
            r.Success? ==>
              && b.path.PathExpression? && r.value.Some?
              && (var helperName := HeadName(b.path.parts);
                  && (helperName == "if" || helperName == "unless" ==> r.value.value.ConditionalExpression?)
                  && (helperName != "if" && helperName != "unless" ==>
                        r.value.value.CallExpression? && r.value.value.callee == Identifier(helperName)))
  {
  }

  /** A statement that compiles yields a node exactly when it is content, a mustache or
      a block, and that node is never a `+` node, so it stays one operand of the body's
      chain. */
  lemma StatementShape(st: H.Statement, depth: int, c: Config, t: HelperTable)
    ensures var r := CompileStatement(st, depth, c, t).result;
            r.Success? ==>
              && (r.value.Some? <==> Contributes(st))
              && (r.value.Some? ==> !IsConcatenation(r.value.value))
  {
    if (st.MustacheStatement? && st.hash.Some?) || st.BlockStatement? {
      BlockShape(st, depth, c, t);
    }
  }

  /** The operands of a body: one per contributing statement, none of them a `+` node. */
  lemma {:induction false} BodyOperands(body: seq<H.Statement>, depth: int, c: Config, t: HelperTable)
    ensures var r := CompileBody(body, depth, c, t).result;
            r.Success? ==>
              && |r.value| == |Contributing(body)|
              && forall i :: 0 <= i < |r.value| ==> !IsConcatenation(r.value[i])
    decreases |body|
  {
    if |body| > 0 {
      var head := CompileStatement(body[0], depth, c, t);
      StatementShape(body[0], depth, c, t);
      if head.result.Success? {
        BodyOperands(body[1..], depth, c, head.table);
        var tail := CompileBody(body[1..], depth, c, head.table).result;
        if tail.Success? {
          var ops := OptionToSeq(head.result.value) + tail.value;
          forall i | 0 <= i < |ops| ensures !IsConcatenation(ops[i]) {
            if i >= |OptionToSeq(head.result.value)| {
              assert ops[i] == tail.value[i - |OptionToSeq(head.result.value)|];
            }
          }
        }
      }
    }
  }

  /** Operand i of a body is the node of its i-th contributing statement, compiled on its
      own; which table that statement would start from makes no difference. */
  lemma {:induction false} BodyOrder(body: seq<H.Statement>, depth: int, c: Config, t: HelperTable)
    ensures var r := CompileBody(body, depth, c, t).result;
            r.Success? ==>
              && |r.value| == |Contributing(body)|
              && forall i :: 0 <= i < |r.value| ==>
                   CompileStatement(Contributing(body)[i], depth, c, t).result == Success(Some(r.value[i]))
    decreases |body|
  {
    if |body| > 0 {
      var head := CompileStatement(body[0], depth, c, t);
      StatementShape(body[0], depth, c, t);
      if head.result.Success? {
        BodyOrder(body[1..], depth, c, head.table);
        var tail := CompileBody(body[1..], depth, c, head.table).result;
        if tail.Success? {
          var ops := CompileBody(body, depth, c, t).result.value;
          var rest := Contributing(body[1..]);
          if Contributes(body[0]) {
            assert Contributing(body) == [body[0]] + rest;
            assert ops == [head.result.value.value] + tail.value;
            forall i | 0 <= i < |ops|
              ensures CompileStatement(Contributing(body)[i], depth, c, t).result == Success(Some(ops[i]))
            {
              if i > 0 {
                assert Contributing(body)[i] == rest[i - 1];
                assert ops[i] == tail.value[i - 1];
                StatementIndependent(rest[i - 1], depth, c, head.table, t);
              }
            }
          } else {
            assert Contributing(body) == rest;
            assert head.table == t;
            assert ops == [] + tail.value;
          }
        }
      }
    }
  }

  /** `_concatExpressions` on a body: nothing when no statement contributes, otherwise a
      chain whose operands, read back, are the contributing statements' nodes in order. */
  lemma ConcatFlattens(body: seq<H.Statement>, depth: int, c: Config, t: HelperTable)
    ensures var r := CompileConcat(body, depth, c, t).result;
            var ops := CompileBody(body, depth, c, t).result;
            r.Success? <==> ops.Success?
    ensures var r := CompileConcat(body, depth, c, t).result;
            var ops := CompileBody(body, depth, c, t).result;
            r.Success? ==>
              && (r.value.None? <==> |Contributing(body)| == 0)
              && (r.value.Some? ==> Operands(r.value.value) == ops.value)
    ensures var r := CompileConcat(body, depth, c, t).result;
            r.Success? && r.value.Some? ==>
              var ops := Operands(r.value.value);
              && |ops| == |Contributing(body)|
              && forall i :: 0 <= i < |ops| ==>
                   CompileStatement(Contributing(body)[i], depth, c, t).result == Success(Some(ops[i]))
  {
    BodyOperands(body, depth, c, t);
    BodyOrder(body, depth, c, t);
    var ops := CompileBody(body, depth, c, t).result;
    if ops.Success? && |ops.value| > 0 {
      ConcatOperands(ops.value);
    }
  }

  /** Comments, partials and decorator blocks never fail and never touch the table, so a
      body compiles exactly as its contributing statements do. */
  lemma {:induction false} NonContributingElided(body: seq<H.Statement>, depth: int, c: Config, t: HelperTable)
    ensures CompileBody(Contributing(body), depth, c, t) == CompileBody(body, depth, c, t)
    decreases |body|
  {
    if |body| > 0 {
      var head := CompileStatement(body[0], depth, c, t);
      NonContributingElided(body[1..], depth, c, head.table);
      if Contributes(body[0]) {
        var r := Contributing(body);
        assert r == [body[0]] + Contributing(body[1..]);
        assert r[0] == body[0] && r[1..] == Contributing(body[1..]);
      } else {
        assert Contributing(body) == Contributing(body[1..]);
        assert head == Step(Success(None), t);
        var tail := CompileBody(body[1..], depth, c, t);
        assert tail.result.Success? ==> [] + tail.result.value == tail.result.value;
      }
    }
  }

  /* ---------------------------------------------------------------------------------
     Conditionals
     --------------------------------------------------------------------------------- */

  /** `unless` is `if` with its branches exchanged: one compiles exactly when the other
      does, with the same test, and the branches trade places. When both fail they may
      report different errors, since `unless` compiles the inverse first. */
  lemma UnlessIsSwappedIf(b: H.Statement, depth: int, c: Config, t: HelperTable)
    requires b.MustacheStatement? || b.BlockStatement?
    ensures var u := CompileUnless(b, depth, c, t).result;
            var i := CompileIf(b, depth, c, t).result;
            u.Success? <==> i.Success?
    ensures var u := CompileUnless(b, depth, c, t).result;
            var i := CompileIf(b, depth, c, t).result;
            u.Success? ==>
              && u.value.Some? && i.value.Some?
              && u.value.value.ConditionalExpression? && i.value.value.ConditionalExpression?
              && u.value.value.test == i.value.value.test
              && u.value.value.consequent == i.value.value.alternate
              && u.value.value.alternate == i.value.value.consequent
  {
    if |b.params| > 0 && H.ProgramOf(b).Some? {
      var program := H.ProgramOf(b).value;
      var ifThen := CompileConcat(program.body, depth, c, t);
      if H.InverseOf(b).Some? {
        var inverse := H.InverseOf(b).value;
        var unlessThen := CompileConcat(inverse.body, depth, c, t);
        ConcatIndependent(program.body, depth, c, t, unlessThen.table);
        ConcatIndependent(inverse.body, depth, c, t, ifThen.table);
      } else {
        ConcatIndependent(program.body, depth, c, t, t);
      }
    }
  }

  /** The test of a conditional is the first parameter's text as a member chain on the
      current scope variable; a conditional without a parameter, or an `if` or `unless`
      mustache (which has no body), fails. */
  lemma IfTest(b: H.Statement, depth: int, c: Config, t: HelperTable)
    requires b.MustacheStatement? || b.BlockStatement?
    ensures |b.params| == 0 ==> CompileIf(b, depth, c, t).result == Failure(MissingConditionParam)
    ensures |b.params| > 0 && b.MustacheStatement? ==> CompileIf(b, depth, c, t).result == Failure(MissingProgram)
    ensures var r := CompileIf(b, depth, c, t).result;
            r.Success? ==>
              MemberPath(r.value.value.test) == Some([VariableName(depth)] + Split(OriginalText(b.params[0]), '.'))
  {
    if |b.params| > 0 {
      ScopedMemberPath(VariableName(depth), OriginalText(b.params[0]));
    }
  }

  /** The branches of an `if`: the consequent is the body folded in the current scope, the
      alternate the inverse folded there, or `''` when there is no inverse. */
  lemma IfBranches(b: H.Statement, depth: int, c: Config, t: HelperTable)
    requires b.MustacheStatement? || b.BlockStatement?
    ensures var r := CompileIf(b, depth, c, t).result;
            r.Success? ==>
              && H.ProgramOf(b).Some? && r.value.Some? && r.value.value.ConditionalExpression?
              && CompileConcat(H.ProgramOf(b).value.body, depth, c, t).result == Success(r.value.value.consequent)
              && (H.InverseOf(b).None? ==> r.value.value.alternate == Some(EmptyString))
              && (H.InverseOf(b).Some? ==>
                    CompileConcat(H.InverseOf(b).value.body, depth, c, t).result == Success(r.value.value.alternate))
  {
    if |b.params| > 0 && H.ProgramOf(b).Some? && H.InverseOf(b).Some? {
      var consequent := CompileConcat(H.ProgramOf(b).value.body, depth, c, t);
      ConcatIndependent(H.InverseOf(b).value.body, depth, c, consequent.table, t);
    }
  }

  /* ---------------------------------------------------------------------------------
     Interpolations and helper calls
     --------------------------------------------------------------------------------- */

  /** A mustache without a hash calls the escape function (or `String` when unescaped) on
      a member chain that starts at the variable of the scope the path climbs to; its
      head must be a path. */
  lemma MustacheInterpolation(m: H.Statement, depth: int, c: Config, t: HelperTable)
    requires m.MustacheStatement? && m.hash.None?
    ensures var s := CompileMustache(m, depth, c, t);
            && s.table == t
            && (m.path.PathExpression? <==> s.result.Success?)
            && (!m.path.PathExpression? ==> s.result == Failure(PathNotAPathExpression))
    ensures var r := CompileMustache(m, depth, c, t).result;
            r.Success? ==>
              && r.value.Some? && r.value.value.CallExpression?
              && r.value.value.callee == Identifier(if m.escaped then c.escapeFn else "String")
              && |r.value.value.arguments| == 1
              && MemberPath(r.value.value.arguments[0])
                 == Some([VariableName(depth - m.path.depth)] + Split(HeadName(m.path.parts), '.'))
  {
    if m.path.PathExpression? {
      ScopedMemberPath(VariableName(depth - m.path.depth), HeadName(m.path.parts));
    }
  }

  lemma FirstScopeVariable()
    ensures VariableName(1) == "data1"
  {
    assert NatToString(1) == "1";
  }

  /** `data1.world` as a member chain. */
  lemma ScopedWorld()
    ensures ScopedMember("data1", "world") == MemberExpression(Identifier("data1"), Identifier("world"))
  {
    SplitAfterHead("data1", '.', "world");
    SplitNoSeparator("world", '.');
    assert "data1" + "." + "world" == "data1" + ['.'] + "world";
    var parts := Split("data1" + "." + "world", '.');
    assert parts == ["data1", "world"];
    assert parts[..1] == ["data1"];
  }

  /** `{{../../world}}` three scopes deep reads `world` from the scope one level down:
      `escape(data1.world)`. */
  lemma ParentScopeLookup()
    ensures var m := H.MustacheStatement(H.PathExpression(2, ["world"], "../../world"), [], None, true);
            CompileMustache(m, 3, Configure(Options(None, false, None)), EmptyTable).result
            == Success(Some(CallExpression(Identifier("escape"),
                                           [MemberExpression(Identifier("data1"), Identifier("world"))])))
  {
    FirstScopeVariable();
    ScopedWorld();
  }

  /** `String(data1.world)`: the triple-stash `{{{../../world}}}` read three scopes deep. */
  lemma InnerWorld(t: HelperTable)
    ensures var m := H.MustacheStatement(H.PathExpression(2, ["world"], "../../world"), [], None, false);
            CompileStatement(m, 3, Configure(Options(None, false, None)), t)
            == Step(Success(Some(CallExpression(Identifier("String"),
                                                [MemberExpression(Identifier("data1"), Identifier("world"))]))), t)
  {
    FirstScopeVariable();
    ScopedWorld();
  }

  /** `helper({}, {fn: function (dataN) { return ... }})` for a helper whose body folds to
      `argument` in scope `depth + 1`. */
  function CallWithBody(depth: int, argument: Node): Node
  {
    CallExpression(Identifier("helper"),
                   [ObjectExpression([]),
                    ObjectExpression([Property(Identifier("fn"), RenderFunction(None, VariableName(depth + 1), Some(argument)))])])
  }

  /** `{{#helper}}` ... `{{/helper}}` around `body`, without parameters or hash. */
  function HelperBlock(body: seq<H.Statement>): H.Statement
  {
    H.BlockStatement(H.PathExpression(0, ["helper"], "helper"), [], None, Some(H.Program(body)), None)
  }

  /** A `helper` block whose body folds to `argument` one scope deeper calls `helper` with
      that body's render function as `fn`. */
  lemma HelperBlockCall(body: seq<H.Statement>, depth: int, c: Config, t: HelperTable, argument: Node)
    requires |body| > 0
    requires CompileConcat(body, depth + 1, c, UseHelper(t, "helper", c.helperResolver)).result == Success(Some(argument))
    ensures CompileStatement(HelperBlock(body), depth, c, t).result == Success(Some(CallWithBody(depth, argument)))
  {
    var b := HelperBlock(body);
    assert HeadName(b.path.parts) == "helper";
    var t1 := UseHelper(t, "helper", c.helperResolver);
    assert CompileBlock(b, depth, c, t) == CompileHelperCall(b, "helper", depth, c, t1);
    assert CompileRenderFunction(H.Program(body), None, depth, c, t1).result
        == Success(RenderFunction(None, VariableName(depth + 1), Some(argument)));
  }

  /** Content followed by a statement that yields `y` folds to `'content' + y`. */
  lemma ContentThen(text: string, b: H.Statement, depth: int, c: Config, t: HelperTable, y: Node)
    requires CompileStatement(b, depth, c, t).result == Success(Some(y))
    ensures CompileConcat([H.ContentStatement(text), b], depth, c, t).result
            == Success(Some(BinaryExpression("+", ContentLiteral(text), y)))
  {
    var body := [H.ContentStatement(text), b];
    assert body[1..] == [b] && [b][1..] == [];
    var head := CompileStatement(b, depth, c, t);
    assert CompileBody([], depth, c, head.table).result == Success([]);
    assert OptionToSeq(head.result.value) + [] == [y];
    assert CompileBody([b], depth, c, t).result == Success([y]);
    var ops := [ContentLiteral(text), y];
    assert CompileStatement(body[0], depth, c, t) == Step(Success(Some(ContentLiteral(text))), t);
    assert CompileBody(body[1..], depth, c, t).result == Success([y]);
    assert OptionToSeq(Some(ContentLiteral(text))) + [y] == ops;
    assert CompileBody(body, depth, c, t).result == Success(ops);
    assert ops[..1] == [ContentLiteral(text)];
  }

  /** `{{#helper}} from {{{../../world}}}{{/helper}}` two scopes deep, from any table. */
  lemma InnerHelper(t: HelperTable)
    ensures var c := Configure(Options(None, false, None));
            var world := H.MustacheStatement(H.PathExpression(2, ["world"], "../../world"), [], None, false);
            var read := CallExpression(Identifier("String"), [MemberExpression(Identifier("data1"), Identifier("world"))]);
            CompileStatement(HelperBlock([H.ContentStatement(" from "), world]), 2, c, t).result
            == Success(Some(CallWithBody(2, BinaryExpression("+", ContentLiteral(" from "), read))))
  {
    var c := Configure(Options(None, false, None));
    var world := H.MustacheStatement(H.PathExpression(2, ["world"], "../../world"), [], None, false);
    var read := CallExpression(Identifier("String"), [MemberExpression(Identifier("data1"), Identifier("world"))]);
    var t1 := UseHelper(t, "helper", c.helperResolver);
    InnerWorld(t1);
    ContentThen(" from ", world, 3, c, t1, read);
    HelperBlockCall([H.ContentStatement(" from "), world], 2, c, t, BinaryExpression("+", ContentLiteral(" from "), read));
  }

  /** `Hello {{#helper}}world{{#helper}} from {{{../../world}}}{{/helper}}{{/helper}}`: each
      `fn` takes the next scope's variable, and the innermost one still reads `world`
      from the template's own scope. */
  lemma NestedHelperScopes()
    ensures var c := Configure(Options(None, false, None));
            var world := H.MustacheStatement(H.PathExpression(2, ["world"], "../../world"), [], None, false);
            var template := H.Program([H.ContentStatement("Hello "),
                                       HelperBlock([H.ContentStatement("world"),
                                                    HelperBlock([H.ContentStatement(" from "), world])])]);
            var read := CallExpression(Identifier("String"), [MemberExpression(Identifier("data1"), Identifier("world"))]);
            var inner := CallWithBody(2, BinaryExpression("+", ContentLiteral(" from "), read));
            var outer := CallWithBody(1, BinaryExpression("+", ContentLiteral("world"), inner));
            CompileTemplate(template, c)
            == Success(RenderFunction(Some("render"), VariableName(1),
                                      Some(BinaryExpression("+", ContentLiteral("Hello "), outer))))
  {
    var o := Options(None, false, None);
    var c := Configure(o);
    var world := H.MustacheStatement(H.PathExpression(2, ["world"], "../../world"), [], None, false);
    var read := CallExpression(Identifier("String"), [MemberExpression(Identifier("data1"), Identifier("world"))]);
    var innerBody := [H.ContentStatement(" from "), world];
    var inner := CallWithBody(2, BinaryExpression("+", ContentLiteral(" from "), read));
    var t1 := UseHelper(EmptyTable, "helper", c.helperResolver);
    InnerHelper(t1);
    ContentThen("world", HelperBlock(innerBody), 2, c, t1, inner);
    var outerBody := [H.ContentStatement("world"), HelperBlock(innerBody)];
    var outer := CallWithBody(1, BinaryExpression("+", ContentLiteral("world"), inner));
    HelperBlockCall(outerBody, 1, c, EmptyTable, BinaryExpression("+", ContentLiteral("world"), inner));
    ContentThen("Hello ", HelperBlock(outerBody), 1, c, EmptyTable, outer);
    var template := H.Program([H.ContentStatement("Hello "), HelperBlock(outerBody)]);
    var render := CompileRenderFunction(template, Some("render"), 0, c, EmptyTable);
    assert render.result == Success(RenderFunction(Some("render"), VariableName(1),
                                                   Some(BinaryExpression("+", ContentLiteral("Hello "), outer))));
    NoResolverNoImports(template, o);
    var imports := CreateHelperImports(render.table);
    var declarations := render.result.value.body;
    assert CompileTemplate(template, c) == Success(Program(imports + declarations));
    assert imports + declarations == declarations;
  }

  /** One property of a helper's options object: keyed by the pair's key, valued by a
      member chain on the scope variable for a path and by the literal's value otherwise. */
  ghost predicate PropertyFor(p: Property, pair: H.HashPair, scope: string)
  {
    && p.key == Identifier(pair.key)
    && (pair.value.PathExpression? ==> MemberPath(p.value) == Some([scope] + Split(pair.value.original, '.')))
    && (!pair.value.PathExpression? ==> p.value.Literal? && p.value.value == LiteralValue(pair.value))
  }

  /** The options object has one property per hash pair, in the pairs' order. */
  lemma {:induction false} PairPropertiesMeaning(pairs: seq<H.HashPair>, depth: int)
    ensures |PairProperties(pairs, depth)| == |pairs|
    ensures forall i :: 0 <= i < |pairs| ==>
              PropertyFor(PairProperties(pairs, depth)[i], pairs[i], VariableName(depth))
    decreases |pairs|
  {
    if |pairs| > 0 {
      var init := pairs[..|pairs| - 1];
      var last := pairs[|pairs| - 1];
      PairPropertiesMeaning(init, depth);
      if last.value.PathExpression? {
        ScopedMemberPath(VariableName(depth), last.value.original);
      }
      var r := PairProperties(pairs, depth);
      forall i | 0 <= i < |pairs|
        ensures PropertyFor(r[i], pairs[i], VariableName(depth))
      {
        if i < |pairs| - 1 {
          assert r[i] == PairProperties(init, depth)[i];
          assert pairs[i] == init[i];
        }
      }
    }
  }

  /** A generic helper call: the helper's name called with its options object and, when
      the block has a non-empty body, a second object whose `fn` is the body's render
      function, which takes the next scope's variable. */
  lemma HelperCallShape(b: H.Statement, helperName: string, depth: int, c: Config, t: HelperTable)
    requires b.MustacheStatement? || b.BlockStatement?
    ensures var r := CompileHelperCall(b, helperName, depth, c, t).result;
            var hasBody := H.ProgramOf(b).Some? && |H.ProgramOf(b).value.body| > 0;
            && (!hasBody ==> r.Success?)
            && (r.Success? ==>
                  && r.value.Some? && r.value.value.CallExpression?
                  && r.value.value.callee == Identifier(helperName)
                  && |r.value.value.arguments| == (if hasBody then 2 else 1)
                  && r.value.value.arguments[0] == ObjectExpression(HashProperties(b.hash, depth))
                  && (hasBody ==>
                        && r.value.value.arguments[1].ObjectExpression?
                        && |r.value.value.arguments[1].properties| == 1
                        && r.value.value.arguments[1].properties[0].key == Identifier("fn")
                        && IsRenderFunction(r.value.value.arguments[1].properties[0].value, None,
                                            VariableName(depth + 1))
                        && CompileRenderFunction(H.ProgramOf(b).value, None, depth, c, t).result
                           == Success(r.value.value.arguments[1].properties[0].value)))
  {
  }

  /** A render function compiles its body one scope deeper than where it stands: it
      succeeds exactly when that body does, and its one statement returns the body's fold. */
  lemma RenderFunctionBody(program: H.Program, functionName: Option<string>, depth: int,
                           c: Config, t: HelperTable)
    ensures var r := CompileRenderFunction(program, functionName, depth, c, t).result;
            var argument := CompileConcat(program.body, depth + 1, c, t).result;
            && (r.Success? <==> argument.Success?)
            && (r.Success? ==> r.value.body[0].functionBody == BlockStatement([ReturnStatement(argument.value)]))
  {
  }

  /* ---------------------------------------------------------------------------------
     The finished module
     --------------------------------------------------------------------------------- */

  /** `import { name } from source;` for a helper the resolver answers truthily. */
  predicate IsHelperImport(n: Node, resolver: string -> Value)
  {
    && n.ImportDeclaration? && |n.specifiers| == 1 && n.specifiers[0].local.Identifier?
    && var name := n.specifiers[0].local.name;
       Truthy(resolver(name)) && n == HelperImport(name, resolver(name))
  }

  /** The render function's declaration: named `render`, taking `data1`. */
  predicate IsRenderDeclaration(n: Node)
  {
    n.FunctionDeclaration? && n.id == Some(Identifier("render")) && n.params == [Identifier(VariableName(1))]
  }

  /** No string occurs twice. */
  predicate Distinct(s: seq<string>)
  {
    forall i, j :: 0 <= i < j < |s| ==> s[i] != s[j]
  }

  /** Filtering keeps distinct names distinct. */
  lemma {:induction false} ResolvedNamesDistinct(names: seq<string>, t: HelperTable)
    requires Distinct(names)
    ensures Distinct(ResolvedNames(names, t))
    decreases |names|
  {
    if |names| > 0 {
      var tail := names[1..];
      assert Distinct(tail) by {
        forall i, j | 0 <= i < j < |tail| ensures tail[i] != tail[j] {
          assert tail[i] == names[i + 1] && tail[j] == names[j + 1];
        }
      }
      ResolvedNamesDistinct(tail, t);
      ResolvedNamesAreResolved(tail, t);
      var rest := ResolvedNames(tail, t);
      assert names[0] !in tail by {
        forall k | 0 <= k < |tail| ensures tail[k] != names[0] {
          assert tail[k] == names[k + 1];
        }
      }
      var r := ResolvedNames(names, t);
      if Resolved(t, names[0]) {
        assert r == [names[0]] + rest;
        forall i, j | 0 <= i < j < |r| ensures r[i] != r[j] {
          assert r[j] == rest[j - 1];
          if i > 0 {
            assert r[i] == rest[i - 1];
          } else {
            assert rest[j - 1] in rest;
          }
        }
      } else {
        assert r == rest;
      }
    }
  }

  /** The table a whole template leaves behind keeps its keys distinct and holds only
      the resolver's answers; when the template compiles, its keys are exactly the
      helpers the template calls. */
  lemma RenderTable(program: H.Program, c: Config)
    ensures var table := CompileRenderFunction(program, Some("render"), 0, c, EmptyTable).table;
            table.Valid() && FromResolver(table, c.helperResolver)
    ensures var render := CompileRenderFunction(program, Some("render"), 0, c, EmptyTable);
            render.result.Success? ==> render.table.sources.Keys == BodyHelpers(program.body)
  {
    assert EmptyTable.Valid() by {
      assert (set n | n in EmptyTable.names) == {};
    }
    assert FromResolver(EmptyTable, c.helperResolver);
    RenderFunctionGrows(program, Some("render"), 0, c, EmptyTable);
    RenderFunctionRecords(program, Some("render"), 0, c, EmptyTable);
  }

  /** The imports of such a table: each one a truthy answer of the resolver, each name
      once. */
  lemma HelperImportsShape(table: HelperTable, resolver: string -> Value)
    requires table.Valid() && FromResolver(table, resolver)
    ensures var imports := CreateHelperImports(table);
            && (forall i :: 0 <= i < |imports| ==> IsHelperImport(imports[i], resolver))
            && (forall i, j :: 0 <= i < j < |imports| ==>
                  imports[i].specifiers[0].local.name != imports[j].specifiers[0].local.name)
  {
    var names := ResolvedNames(table.names, table);
    ResolvedNamesDistinct(table.names, table);
    var imports := CreateHelperImports(table);
    forall i | 0 <= i < |imports|
      ensures IsHelperImport(imports[i], resolver)
      ensures imports[i].specifiers[0].local.name == names[i]
    {
      assert table.sources[names[i]] == resolver(names[i]);
    }
  }

  /** The module `Program` returns: one import per helper the resolver answered truthily,
      each name once, followed by the render function, exported when asked for. */
  lemma TemplateShape(program: H.Program, c: Config)
    ensures var r := CompileTemplate(program, c);
            r.Success? ==>
              && r.value.Program? && |r.value.body| >= 1
              && var body := r.value.body;
                 var k := |body| - 1;
                 && (forall i :: 0 <= i < k ==> IsHelperImport(body[i], c.helperResolver))
                 && (forall i, j :: 0 <= i < j < k ==>
                       body[i].specifiers[0].local.name != body[j].specifiers[0].local.name)
                 && (c.exportRender ==> body[k].ExportNamedDeclaration? && IsRenderDeclaration(body[k].declaration))
                 && (!c.exportRender ==> IsRenderDeclaration(body[k]))
  {
    var render := CompileRenderFunction(program, Some("render"), 0, c, EmptyTable);
    if render.result.Success? {
      RenderTable(program, c);
      HelperImportsShape(render.table, c.helperResolver);
      var imports := CreateHelperImports(render.table);
      var body := CompileTemplate(program, c).value.body;
      assert |body| == |imports| + 1;
      assert forall i :: 0 <= i < |imports| ==> body[i] == imports[i];
    }
  }

  /** The module in full: the last declaration is the render function returning the
      template's body folded at depth 1, and before it come the imports of the truthy
      entries, one per name, in the order the names were first recorded. */
  lemma TemplateBody(program: H.Program, c: Config)
    ensures var r := CompileTemplate(program, c);
            var fold := CompileConcat(program.body, 1, c, EmptyTable).result;
            && (r.Success? <==> fold.Success?)
            && (r.Success? ==>
                  var k := |r.value.body| - 1;
                  var d := if c.exportRender then r.value.body[k].declaration else r.value.body[k];
                  && d.FunctionDeclaration?
                  && d.functionBody == BlockStatement([ReturnStatement(fold.value)]))
    ensures var r := CompileTemplate(program, c);
            var table := CompileRenderFunction(program, Some("render"), 0, c, EmptyTable).table;
            r.Success? ==>
              var names := ResolvedNames(table.names, table);
              && |r.value.body| == |names| + 1
              && forall i :: 0 <= i < |names| ==>
                   r.value.body[i] == HelperImport(names[i], c.helperResolver(names[i]))
  {
    RenderFunctionBody(program, Some("render"), 0, c, EmptyTable);
    RenderTable(program, c);
  }

  /** For a table of resolver answers with distinct keys, the imports name exactly the
      keys the resolver answers truthily for, each from its answer. */
  lemma TableImports(table: HelperTable, resolver: string -> Value)
    requires table.Valid() && FromResolver(table, resolver)
    ensures forall n :: HelperImport(n, resolver(n)) in CreateHelperImports(table)
                        <==> n in table.sources && Truthy(resolver(n))
  {
    var names := ResolvedNames(table.names, table);
    ResolvedNamesAreResolved(table.names, table);
    var imports := CreateHelperImports(table);
    forall n ensures HelperImport(n, resolver(n)) in imports <==> n in table.sources && Truthy(resolver(n))
    {
      if HelperImport(n, resolver(n)) in imports {
        var i :| 0 <= i < |imports| && imports[i] == HelperImport(n, resolver(n));
        assert names[i] == n;
        assert names[i] in names;
      }
      if n in table.sources && Truthy(resolver(n)) {
        assert n in table.names;
        assert n in names;
        var i :| 0 <= i < |names| && names[i] == n;
        assert imports[i] == HelperImport(n, resolver(n));
      }
    }
  }

  /** The imports are complete as well as sound: a module that compiles imports a helper
      from the resolver's answer exactly when the template calls that helper and the
      answer is truthy. */
  lemma TemplateImports(program: H.Program, c: Config)
    ensures var r := CompileTemplate(program, c);
            r.Success? ==>
              forall n :: HelperImport(n, c.helperResolver(n)) in r.value.body
                          <==> n in BodyHelpers(program.body) && Truthy(c.helperResolver(n))
  {
    var render := CompileRenderFunction(program, Some("render"), 0, c, EmptyTable);
    if render.result.Success? {
      RenderTable(program, c);
      TableImports(render.table, c.helperResolver);
      var imports := CreateHelperImports(render.table);
      var body := CompileTemplate(program, c).value.body;
      var k := |body| - 1;
      assert body == imports + [body[k]];
      assert !body[k].ImportDeclaration?;
      forall n ensures HelperImport(n, c.helperResolver(n)) in body <==> HelperImport(n, c.helperResolver(n)) in imports
      {
      }
    }
  }

  lemma NoImportWithoutResolver(n: Node, o: Options)
    requires o.helperResolver.None?
    ensures !IsHelperImport(n, Configure(o).helperResolver)
  {
  }

  /** Without a resolver no helper is imported: the module is the render function alone. */
  lemma NoResolverNoImports(program: H.Program, o: Options)
    requires o.helperResolver.None?
    ensures var r := CompileTemplate(program, Configure(o));
            r.Success? ==> |r.value.body| == 1
  {
    TemplateShape(program, Configure(o));
    var r := CompileTemplate(program, Configure(o));
    if r.Success? {
      NoImportWithoutResolver(r.value.body[0], o);
    }
  }

  /* ---------------------------------------------------------------------------------
     Scope variables and the helper table
     --------------------------------------------------------------------------------- */

  /** Different scope depths have different variables, so no scope shadows another. */
  lemma VariableNameInjective(i: int, j: int)
    requires VariableName(i) == VariableName(j)
    ensures i == j
  {
    assert IntToString(i) == VariableName(i)[4..];
    assert IntToString(j) == VariableName(j)[4..];
    IntToStringInjective(i, j);
  }

  /** Recording the same helper twice with the same resolver changes nothing the second
      time. */
  lemma UseHelperIdempotent(t: HelperTable, name: string, resolver: string -> Value)
    ensures UseHelper(UseHelper(t, name, resolver), name, resolver) == UseHelper(t, name, resolver)
  {
    var u := UseHelper(t, name, resolver);
    if !Resolved(u, name) {
      assert u.sources[name := resolver(name)] == u.sources;
    }
  }

  /** After the lookup, a helper is imported exactly when it was already or the resolver
      answers truthily for it. */
  lemma UseHelperResolves(t: HelperTable, name: string, resolver: string -> Value)
    ensures Resolved(UseHelper(t, name, resolver), name) <==> Resolved(t, name) || Truthy(resolver(name))
  {
  }

  /** The lookup as written keeps a helper named like a property of `Object.prototype`
      from ever being resolved, so its import is lost even when the resolver knows it;
      the intended lookup imports it. */
  lemma ObjectPrototypeHelperLost(name: string, resolver: string -> Value)
    requires name in ObjectPrototypeNames && Truthy(resolver(name))
    ensures CreateHelperImports(UseHelperAsWritten(EmptyTable, name, resolver)) == []
    ensures CreateHelperImports(UseHelper(EmptyTable, name, resolver)) == [HelperImport(name, resolver(name))]
  {
    var u := UseHelper(EmptyTable, name, resolver);
    assert u.names == [name];
    assert ResolvedNames(u.names, u) == [name];
  }

  /** The concrete case: a template using a helper called `toString`. */
  lemma ToStringHelperLost()
    ensures var resolver := (n: string) => Str("./helpers.js");
            && CreateHelperImports(UseHelperAsWritten(EmptyTable, "toString", resolver)) == []
            && |CreateHelperImports(UseHelper(EmptyTable, "toString", resolver))| == 1
  {
    var resolver := (n: string) => Str("./helpers.js");
    assert Truthy(resolver("toString"));
    ObjectPrototypeHelperLost("toString", resolver);
  }
}
