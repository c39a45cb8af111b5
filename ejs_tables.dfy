/** How compilation treats the helper usage table: it only ever grows, keeps its keys
    distinct, never replaces a truthy answer, and holds nothing but the resolver's
    answers. */
module EjsTables {
  import opened Wrappers
  import opened Estree
  import opened EjsBuilders
  import opened EjsCompile
  import H = HandlebarsAst

  /** `before` grows into `after`: recorded names keep their place and truthy answers are
      never replaced. */
  ghost predicate Extends(before: HelperTable, after: HelperTable)
  {
    && |before.names| <= |after.names| && after.names[..|before.names|] == before.names
    && (forall n :: Resolved(before, n) ==> Resolved(after, n) && after.sources[n] == before.sources[n])
  }

  /** Every entry of the table is the resolver's answer for its name. */
  ghost predicate FromResolver(t: HelperTable, resolver: string -> Value)
  {
    forall n :: n in t.sources ==> t.sources[n] == resolver(n)
  }

  /** What a compilation step may do to the table. */
  ghost predicate Grows(before: HelperTable, after: HelperTable, resolver: string -> Value)
  {
    && (before.Valid() ==> after.Valid())
    && Extends(before, after)
    && (FromResolver(before, resolver) ==> FromResolver(after, resolver))
  }

  lemma GrowsReflexive(t: HelperTable, resolver: string -> Value)
    ensures Grows(t, t, resolver)
  {
    assert t.names[..|t.names|] == t.names;
  }

  lemma GrowsTransitive(a: HelperTable, b: HelperTable, c: HelperTable, resolver: string -> Value)
    requires Grows(a, b, resolver) && Grows(b, c, resolver)
    ensures Grows(a, c, resolver)
  {
    assert c.names[..|a.names|] == c.names[..|b.names|][..|a.names|];
  }

  /** Recording one helper is a step of growth. */
  lemma UseHelperGrows(t: HelperTable, name: string, resolver: string -> Value)
    ensures Grows(t, UseHelper(t, name, resolver), resolver)
  {
    var u := UseHelper(t, name, resolver);
    if Resolved(t, name) {
      GrowsReflexive(t, resolver);
    } else {
      assert u.names[..|t.names|] == t.names;
    }
  }

  lemma {:induction false} StatementGrows(st: H.Statement, depth: int, c: Config, t: HelperTable)
    ensures Grows(t, CompileStatement(st, depth, c, t).table, c.helperResolver)
    decreases H.StatementSize(st), 3
  {
    match st
    case MustacheStatement(_, _, _, _) => MustacheGrows(st, depth, c, t);
    case BlockStatement(_, _, _, _, _) => BlockGrows(st, depth, c, t);
    case _ => GrowsReflexive(t, c.helperResolver);
  }

  lemma {:induction false} MustacheGrows(m: H.Statement, depth: int, c: Config, t: HelperTable)
    requires m.MustacheStatement?
    ensures Grows(t, CompileMustache(m, depth, c, t).table, c.helperResolver)
    decreases H.StatementSize(m), 2
  {
    if m.hash.Some? {
      BlockGrows(m, depth, c, t);
    } else {
      GrowsReflexive(t, c.helperResolver);
    }
  }

  lemma {:induction false} BlockGrows(b: H.Statement, depth: int, c: Config, t: HelperTable)
    requires b.MustacheStatement? || b.BlockStatement?
    ensures Grows(t, CompileBlock(b, depth, c, t).table, c.helperResolver)
    decreases H.StatementSize(b), 1
  {
    if b.path.PathExpression? {
      var helperName := HeadName(b.path.parts);
      var t1 := UseHelper(t, helperName, c.helperResolver);
      UseHelperGrows(t, helperName, c.helperResolver);
      if helperName == "if" {
        IfGrows(b, depth, c, t1);
      } else if helperName == "unless" {
        UnlessGrows(b, depth, c, t1);
      } else {
        HelperCallGrows(b, helperName, depth, c, t1);
      }
      GrowsTransitive(t, t1, CompileBlock(b, depth, c, t).table, c.helperResolver);
    } else {
      GrowsReflexive(t, c.helperResolver);
    }
  }

  lemma {:induction false} IfGrows(b: H.Statement, depth: int, c: Config, t: HelperTable)
    requires b.MustacheStatement? || b.BlockStatement?
    ensures Grows(t, CompileIf(b, depth, c, t).table, c.helperResolver)
    decreases H.StatementSize(b), 0
  {
    if |b.params| == 0 || H.ProgramOf(b).None? {
      GrowsReflexive(t, c.helperResolver);
    } else {
      var program := H.ProgramOf(b).value;
      assert H.BodySize(program.body) < H.StatementSize(b);
      var consequent := CompileConcat(program.body, depth, c, t);
      ConcatGrows(program.body, depth, c, t);
      if consequent.result.Success? && H.InverseOf(b).Some? {
        var inverse := H.InverseOf(b).value;
        assert H.BodySize(inverse.body) < H.StatementSize(b);
        ConcatGrows(inverse.body, depth, c, consequent.table);
        GrowsTransitive(t, consequent.table, CompileIf(b, depth, c, t).table, c.helperResolver);
      }
    }
  }

  lemma {:induction false} UnlessGrows(b: H.Statement, depth: int, c: Config, t: HelperTable)
    requires b.MustacheStatement? || b.BlockStatement?
    ensures Grows(t, CompileUnless(b, depth, c, t).table, c.helperResolver)
    decreases H.StatementSize(b), 0
  {
    if |b.params| == 0 {
      GrowsReflexive(t, c.helperResolver);
    } else {
      var t1 := t;
      if H.InverseOf(b).Some? {
        var inverse := H.InverseOf(b).value;
        assert H.BodySize(inverse.body) < H.StatementSize(b);
        ConcatGrows(inverse.body, depth, c, t);
        t1 := CompileConcat(inverse.body, depth, c, t).table;
      } else {
        GrowsReflexive(t, c.helperResolver);
      }
      var s := CompileUnless(b, depth, c, t);
      if s.table != t1 {
        var program := H.ProgramOf(b).value;
        assert H.BodySize(program.body) < H.StatementSize(b);
        ConcatGrows(program.body, depth, c, t1);
        GrowsTransitive(t, t1, s.table, c.helperResolver);
      }
    }
  }

  lemma {:induction false} HelperCallGrows(b: H.Statement, helperName: string, depth: int, c: Config,
                                           t: HelperTable)
    requires b.MustacheStatement? || b.BlockStatement?
    ensures Grows(t, CompileHelperCall(b, helperName, depth, c, t).table, c.helperResolver)
    decreases H.StatementSize(b), 0
  {
    var program := H.ProgramOf(b);
    if program.Some? && |program.value.body| > 0 {
      assert H.BodySize(program.value.body) < H.StatementSize(b);
      RenderFunctionGrows(program.value, None, depth, c, t);
    } else {
      GrowsReflexive(t, c.helperResolver);
    }
  }

  lemma {:induction false} BodyGrows(body: seq<H.Statement>, depth: int, c: Config, t: HelperTable)
    ensures Grows(t, CompileBody(body, depth, c, t).table, c.helperResolver)
    decreases H.BodySize(body), 4
  {
    if |body| == 0 {
      GrowsReflexive(t, c.helperResolver);
    } else {
      H.StatementWithinBody(body, 0);
      var head := CompileStatement(body[0], depth, c, t);
      StatementGrows(body[0], depth, c, t);
      if head.result.Success? {
        BodyGrows(body[1..], depth, c, head.table);
        GrowsTransitive(t, head.table, CompileBody(body, depth, c, t).table, c.helperResolver);
      }
    }
  }

  lemma {:induction false} ConcatGrows(body: seq<H.Statement>, depth: int, c: Config, t: HelperTable)
    ensures Grows(t, CompileConcat(body, depth, c, t).table, c.helperResolver)
    decreases H.BodySize(body), 5
  {
    BodyGrows(body, depth, c, t);
  }

  lemma {:induction false} RenderFunctionGrows(program: H.Program, functionName: Option<string>, depth: int,
                                               c: Config, t: HelperTable)
    ensures Grows(t, CompileRenderFunction(program, functionName, depth, c, t).table, c.helperResolver)
    decreases H.BodySize(program.body), 6
  {
    ConcatGrows(program.body, depth + 1, c, t);
  }

  /* The code a rule emits does not depend on the table it starts from: the table only
     decides which imports `Program` puts in front. */

  lemma {:induction false} StatementIndependent(st: H.Statement, depth: int, c: Config,
                                                t1: HelperTable, t2: HelperTable)
    ensures CompileStatement(st, depth, c, t1).result == CompileStatement(st, depth, c, t2).result
    decreases H.StatementSize(st), 3
  {
    match st
    case MustacheStatement(_, _, _, _) => MustacheIndependent(st, depth, c, t1, t2);
    case BlockStatement(_, _, _, _, _) => BlockIndependent(st, depth, c, t1, t2);
    case _ =>
  }

  lemma {:induction false} MustacheIndependent(m: H.Statement, depth: int, c: Config,
                                               t1: HelperTable, t2: HelperTable)
    requires m.MustacheStatement?
    ensures CompileMustache(m, depth, c, t1).result == CompileMustache(m, depth, c, t2).result
    decreases H.StatementSize(m), 2
  {
    if m.hash.Some? {
      BlockIndependent(m, depth, c, t1, t2);
    }
  }

  lemma {:induction false} BlockIndependent(b: H.Statement, depth: int, c: Config,
                                            t1: HelperTable, t2: HelperTable)
    requires b.MustacheStatement? || b.BlockStatement?
    ensures CompileBlock(b, depth, c, t1).result == CompileBlock(b, depth, c, t2).result
    decreases H.StatementSize(b), 1
  {
    if b.path.PathExpression? {
      var helperName := HeadName(b.path.parts);
      var u1 := UseHelper(t1, helperName, c.helperResolver);
      var u2 := UseHelper(t2, helperName, c.helperResolver);
      if helperName == "if" {
        IfIndependent(b, depth, c, u1, u2);
      } else if helperName == "unless" {
        UnlessIndependent(b, depth, c, u1, u2);
      } else {
        HelperCallIndependent(b, helperName, depth, c, u1, u2);
      }
    }
  }

  lemma {:induction false} IfIndependent(b: H.Statement, depth: int, c: Config,
                                         t1: HelperTable, t2: HelperTable)
    requires b.MustacheStatement? || b.BlockStatement?
    ensures CompileIf(b, depth, c, t1).result == CompileIf(b, depth, c, t2).result
    decreases H.StatementSize(b), 0
  {
    if |b.params| > 0 && H.ProgramOf(b).Some? {
      var program := H.ProgramOf(b).value;
      assert H.BodySize(program.body) < H.StatementSize(b);
      ConcatIndependent(program.body, depth, c, t1, t2);
      if H.InverseOf(b).Some? {
        var inverse := H.InverseOf(b).value;
        assert H.BodySize(inverse.body) < H.StatementSize(b);
        ConcatIndependent(inverse.body, depth, c, CompileConcat(program.body, depth, c, t1).table,
                          CompileConcat(program.body, depth, c, t2).table);
      }
    }
  }

  lemma {:induction false} UnlessIndependent(b: H.Statement, depth: int, c: Config,
                                             t1: HelperTable, t2: HelperTable)
    requires b.MustacheStatement? || b.BlockStatement?
    ensures CompileUnless(b, depth, c, t1).result == CompileUnless(b, depth, c, t2).result
    decreases H.StatementSize(b), 0
  {
    if |b.params| > 0 {
      var u1, u2 := t1, t2;
      if H.InverseOf(b).Some? {
        var inverse := H.InverseOf(b).value;
        assert H.BodySize(inverse.body) < H.StatementSize(b);
        ConcatIndependent(inverse.body, depth, c, t1, t2);
        u1 := CompileConcat(inverse.body, depth, c, t1).table;
        u2 := CompileConcat(inverse.body, depth, c, t2).table;
      }
      if H.ProgramOf(b).Some? {
        var program := H.ProgramOf(b).value;
        assert H.BodySize(program.body) < H.StatementSize(b);
        ConcatIndependent(program.body, depth, c, u1, u2);
      }
    }
  }

  lemma {:induction false} HelperCallIndependent(b: H.Statement, helperName: string, depth: int, c: Config,
                                                 t1: HelperTable, t2: HelperTable)
    requires b.MustacheStatement? || b.BlockStatement?
    ensures CompileHelperCall(b, helperName, depth, c, t1).result
         == CompileHelperCall(b, helperName, depth, c, t2).result
    decreases H.StatementSize(b), 0
  {
    var program := H.ProgramOf(b);
    if program.Some? && |program.value.body| > 0 {
      assert H.BodySize(program.value.body) < H.StatementSize(b);
      RenderFunctionIndependent(program.value, None, depth, c, t1, t2);
    }
  }

  lemma {:induction false} BodyIndependent(body: seq<H.Statement>, depth: int, c: Config,
                                           t1: HelperTable, t2: HelperTable)
    ensures CompileBody(body, depth, c, t1).result == CompileBody(body, depth, c, t2).result
    decreases H.BodySize(body), 4
  {
    if |body| > 0 {
      H.StatementWithinBody(body, 0);
      StatementIndependent(body[0], depth, c, t1, t2);
      BodyIndependent(body[1..], depth, c, CompileStatement(body[0], depth, c, t1).table,
                      CompileStatement(body[0], depth, c, t2).table);
    }
  }

  lemma {:induction false} ConcatIndependent(body: seq<H.Statement>, depth: int, c: Config,
                                             t1: HelperTable, t2: HelperTable)
    ensures CompileConcat(body, depth, c, t1).result == CompileConcat(body, depth, c, t2).result
    decreases H.BodySize(body), 5
  {
    BodyIndependent(body, depth, c, t1, t2);
  }

  lemma {:induction false} RenderFunctionIndependent(program: H.Program, functionName: Option<string>,
                                                     depth: int, c: Config, t1: HelperTable, t2: HelperTable)
    ensures CompileRenderFunction(program, functionName, depth, c, t1).result
         == CompileRenderFunction(program, functionName, depth, c, t2).result
    decreases H.BodySize(program.body), 6
  {
    ConcatIndependent(program.body, depth + 1, c, t1, t2);
  }

  /* Which names the table records: the head of every block and of every hashed
     mustache, looking into both bodies of `if` and `unless` and into the body of any
     other helper, exactly as far as compilation descends. */

  ghost function StatementHelpers(st: H.Statement): set<string>
    decreases H.StatementSize(st), 1
  {
    match st
    case MustacheStatement(_, _, hash, _) => if hash.Some? then BlockHelpers(st) else {}
    case BlockStatement(_, _, _, _, _) => BlockHelpers(st)
    case _ => {}
  }

  ghost function BlockHelpers(b: H.Statement): set<string>
    requires b.MustacheStatement? || b.BlockStatement?
    decreases H.StatementSize(b), 0
  {
    match b.path
    case PathExpression(_, parts, _) =>
      var helperName := HeadName(parts);
      if helperName == "if" || helperName == "unless" then
        {helperName} + OptionalBodyHelpers(H.ProgramOf(b)) + OptionalBodyHelpers(H.InverseOf(b))
      else {helperName} + OptionalBodyHelpers(H.ProgramOf(b))
    case _ => {}
  }

  ghost function OptionalBodyHelpers(p: Option<H.Program>): set<string>
    decreases H.OptionalBodySize(p), 3
  {
    match p
    case None => {}
    case Some(program) => BodyHelpers(program.body)
  }

  ghost function BodyHelpers(body: seq<H.Statement>): set<string>
    decreases H.BodySize(body), 2
  {
    if |body| == 0 then {} else StatementHelpers(body[0]) + BodyHelpers(body[1..])
  }

  /* A rule that succeeds adds to the table's keys exactly the names above. */

  lemma {:induction false} StatementRecords(st: H.Statement, depth: int, c: Config, t: HelperTable)
    ensures var s := CompileStatement(st, depth, c, t);
            s.result.Success? ==> s.table.sources.Keys == t.sources.Keys + StatementHelpers(st)
    decreases H.StatementSize(st), 3
  {
    match st
    case MustacheStatement(_, _, _, _) => MustacheRecords(st, depth, c, t);
    case BlockStatement(_, _, _, _, _) => BlockRecords(st, depth, c, t);
    case _ =>
  }

  lemma {:induction false} MustacheRecords(m: H.Statement, depth: int, c: Config, t: HelperTable)
    requires m.MustacheStatement?
    ensures var s := CompileMustache(m, depth, c, t);
            s.result.Success? ==> s.table.sources.Keys == t.sources.Keys + StatementHelpers(m)
    decreases H.StatementSize(m), 2
  {
    if m.hash.Some? {
      BlockRecords(m, depth, c, t);
    }
  }

  lemma {:induction false} BlockRecords(b: H.Statement, depth: int, c: Config, t: HelperTable)
    requires b.MustacheStatement? || b.BlockStatement?
    ensures var s := CompileBlock(b, depth, c, t);
            s.result.Success? ==> s.table.sources.Keys == t.sources.Keys + BlockHelpers(b)
    decreases H.StatementSize(b), 1
  {
    if b.path.PathExpression? {
      var helperName := HeadName(b.path.parts);
      var t1 := UseHelper(t, helperName, c.helperResolver);
      assert t1.sources.Keys == t.sources.Keys + {helperName};
      if helperName == "if" {
        IfRecords(b, depth, c, t1);
      } else if helperName == "unless" {
        UnlessRecords(b, depth, c, t1);
      } else {
        HelperCallRecords(b, helperName, depth, c, t1);
      }
    }
  }

  lemma {:induction false} IfRecords(b: H.Statement, depth: int, c: Config, t: HelperTable)
    requires b.MustacheStatement? || b.BlockStatement?
    ensures var s := CompileIf(b, depth, c, t);
            s.result.Success? ==>
              s.table.sources.Keys
              == t.sources.Keys + OptionalBodyHelpers(H.ProgramOf(b)) + OptionalBodyHelpers(H.InverseOf(b))
    decreases H.StatementSize(b), 0
  {
    if |b.params| > 0 && H.ProgramOf(b).Some? {
      var program := H.ProgramOf(b).value;
      assert H.BodySize(program.body) < H.StatementSize(b);
      var consequent := CompileConcat(program.body, depth, c, t);
      ConcatRecords(program.body, depth, c, t);
      if consequent.result.Success? && H.InverseOf(b).Some? {
        var inverse := H.InverseOf(b).value;
        assert H.BodySize(inverse.body) < H.StatementSize(b);
        ConcatRecords(inverse.body, depth, c, consequent.table);
      }
    }
  }

  lemma {:induction false} UnlessRecords(b: H.Statement, depth: int, c: Config, t: HelperTable)
    requires b.MustacheStatement? || b.BlockStatement?
    ensures var s := CompileUnless(b, depth, c, t);
            s.result.Success? ==>
              s.table.sources.Keys
              == t.sources.Keys + OptionalBodyHelpers(H.ProgramOf(b)) + OptionalBodyHelpers(H.InverseOf(b))
    decreases H.StatementSize(b), 0
  {
    if |b.params| > 0 {
      var t1 := t;
      if H.InverseOf(b).Some? {
        var inverse := H.InverseOf(b).value;
        assert H.BodySize(inverse.body) < H.StatementSize(b);
        ConcatRecords(inverse.body, depth, c, t);
        t1 := CompileConcat(inverse.body, depth, c, t).table;
      }
      if H.ProgramOf(b).Some? {
        var program := H.ProgramOf(b).value;
        assert H.BodySize(program.body) < H.StatementSize(b);
        ConcatRecords(program.body, depth, c, t1);
      }
    }
  }

  lemma {:induction false} HelperCallRecords(b: H.Statement, helperName: string, depth: int, c: Config,
                                             t: HelperTable)
    requires b.MustacheStatement? || b.BlockStatement?
    ensures var s := CompileHelperCall(b, helperName, depth, c, t);
            s.result.Success? ==> s.table.sources.Keys == t.sources.Keys + OptionalBodyHelpers(H.ProgramOf(b))
    decreases H.StatementSize(b), 0
  {
    var program := H.ProgramOf(b);
    if program.Some? && |program.value.body| > 0 {
      assert H.BodySize(program.value.body) < H.StatementSize(b);
      RenderFunctionRecords(program.value, None, depth, c, t);
    }
  }

  lemma {:induction false} BodyRecords(body: seq<H.Statement>, depth: int, c: Config, t: HelperTable)
    ensures var s := CompileBody(body, depth, c, t);
            s.result.Success? ==> s.table.sources.Keys == t.sources.Keys + BodyHelpers(body)
    decreases H.BodySize(body), 4
  {
    if |body| > 0 {
      H.StatementWithinBody(body, 0);
      var head := CompileStatement(body[0], depth, c, t);
      StatementRecords(body[0], depth, c, t);
      if head.result.Success? {
        BodyRecords(body[1..], depth, c, head.table);
      }
    }
  }

  lemma {:induction false} ConcatRecords(body: seq<H.Statement>, depth: int, c: Config, t: HelperTable)
    ensures var s := CompileConcat(body, depth, c, t);
            s.result.Success? ==> s.table.sources.Keys == t.sources.Keys + BodyHelpers(body)
    decreases H.BodySize(body), 5
  {
    BodyRecords(body, depth, c, t);
  }

  lemma {:induction false} RenderFunctionRecords(program: H.Program, functionName: Option<string>, depth: int,
                                                 c: Config, t: HelperTable)
    ensures var s := CompileRenderFunction(program, functionName, depth, c, t);
            s.result.Success? ==> s.table.sources.Keys == t.sources.Keys + BodyHelpers(program.body)
    decreases H.BodySize(program.body), 6
  {
    ConcatRecords(program.body, depth + 1, c, t);
  }
}
