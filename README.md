# handlebars-to-ecmascript: the template compiler, in Dafny

handlebars-to-ecmascript turns a parsed Handlebars template into an ESTree program: an
ECMAScript module that exports, or just declares, a `render(data1)` function and imports the
helpers the template calls. This project models the compiler at the heart of it,
`lib/ejs-visitor.js`, and proves what it promises about the code it emits.

The model has these parts:

- `wrappers.dfy`: `Option` and `Result`.
- `text.dfy`: the two built-in string operations the compiler uses. `Split` is `split('.')`. `IntToString` is how an integer prints inside a template literal.
- `handlebars_ast.dfy`: the Handlebars template tree, with a size measure used for termination.
- `estree.dfy`: the ESTree nodes that are emitted, and JavaScript values with their truthiness.
- `ejs_builders.dfy`: the module's free functions:
  - `concatExpressions`;
  - `staticMemberExpression`;
  - `createHelperImports`;
  - the helper table `_usedHelpers` with its lookup.
- `ejs_compile.dfy`: every visitor rule as a function. Each takes the scope depth and the helper table, and returns its result together with the new table. A TypeError that the JavaScript would throw becomes a `Failure`.
- `ejs_visitor.dfy`: the class `EcmaScriptVisitor`.
  - Its `depth` and `usedHelpers` fields are updated in place, as in the source.
  - Each method is proved to return exactly what its rule in `ejs_compile.dfy` computes.
  - On success, each method below `Program` leaves `depth` as it found it and leaves the table the rule describes. `Program` itself resets `depth` to 0 and the table to empty, and on success leaves depth 0 and the table of the whole template's render function.
  - `ConcatStatements` is the `map`/`filter` over a body, written as a loop. `HashOptions` is the `forEach` over the hash pairs, also a loop.
- `ejs_tables.dfy`: three facts about the helper table, each a family of lemmas, one per rule.
  - Compilation only grows the table. Its keys stay distinct, a truthy answer is never replaced, and every entry is the resolver's answer for its key.
  - The emitted code never depends on the table. The table only decides the imports.
  - A rule that succeeds adds exactly the helpers it calls to the table's keys (`BodyHelpers` and its companions).
- `ejs_properties.dfy`: the promises about the output:
  - how a body becomes a `+` chain, and that comments and unsupported statements are dropped;
  - that `unless` is `if` with its branches swapped;
  - the shape of interpolations and of helper calls;
  - the shape of the finished module;
  - that no import is emitted without a resolver;
  - the Object.prototype finding below.

Two points of the lookup may be unexpected; the model does what the code does.
- One might expect the resolver to be asked once per helper name. The code asks again whenever the recorded answer is falsy, and the model does the same (`UseHelper`). Only a truthy answer is never asked for again.
- One might expect only genuine helper calls to be looked up. The code looks the name up before the `if`/`unless` dispatch, so the resolver is also asked about `if` and `unless` (`EjsCompile.CompileBlock`).

## Model

| member | source | states |
|---|---|---|
| Text.SplitJoin | lib/ejs-visitor.js:36 | no piece of `split('.')` contains a dot, and joining the pieces with dots gives back the string |
| Text.SplitUnique | lib/ejs-visitor.js:36 | any dot-free pieces joined with dots split back into exactly those pieces |
| Text.SplitAfterHead | lib/ejs-visitor.js:149 | prefixing `scope + '.'` to a path with a dot-free scope adds exactly one piece, the scope, in front of the path's pieces |
| Text.NatToStringValue | lib/ejs-visitor.js:79 | the decimal text of a depth reads back as that number |
| Text.IntToStringInjective | lib/ejs-visitor.js:79 | distinct integers print as distinct text |
| EjsBuilders.ConcatExpressions | lib/ejs-visitor.js:9-23 | no operands give nothing; one operand is returned itself; two or more give a `+` node |
| EjsProperties.ConcatOperands | lib/ejs-visitor.js:9-23 | reading the left-leaning `+` chain back gives the operands in their original order |
| EjsBuilders.CreateExpressionPath | lib/ejs-visitor.js:26-35 | the nested member chain read from its innermost object gives the identifiers in order |
| EjsBuilders.StaticMemberPath | lib/ejs-visitor.js:25-37 | for at least two segments the chain is rooted at the first segment, walks the split segments in order, and joins back to the dotted string |
| EjsBuilders.ScopedMemberPath | lib/ejs-visitor.js:149 | `staticMemberExpression(scope + '.' + path)` is the chain of the scope variable followed by the pieces of the path |
| EjsBuilders.UseHelper | lib/ejs-visitor.js:218-220 | the resolver is asked exactly when the name has no truthy entry; a truthy entry is kept; a new name is appended to the key order and an existing one keeps its place; distinct keys stay distinct |
| EjsProperties.UseHelperResolves | lib/ejs-visitor.js:218-220 | after the lookup a name has a truthy entry if and only if it already had one or the resolver answers truthily |
| EjsProperties.UseHelperIdempotent | lib/ejs-visitor.js:218-220 | looking the same helper up twice with the same resolver changes nothing the second time |
| EjsBuilders.UseHelperAsWritten | lib/ejs-visitor.js:218-219 | the lookup on a plain object: a name inherited from `Object.prototype` and not yet recorded leaves the table unchanged |
| EjsBuilders.CreateHelperImports | lib/ejs-visitor.js:39-62 | one `import { name } from source` per truthy entry, in key order, each sourced from that entry |
| EjsBuilders.ResolvedNamesAreResolved | lib/ejs-visitor.js:40-41 | a name is kept by the filter if and only if it is a key whose entry is truthy |
| EjsBuilders.ResolvedNamesAppend | lib/ejs-visitor.js:40-41 | filtering keeps the order in which the helpers were first recorded |
| EjsProperties.ResolvedNamesDistinct | lib/ejs-visitor.js:40-41 | no helper is imported twice |
| EjsProperties.HelperImportsShape | lib/ejs-visitor.js:39-62 | for a table of resolver answers with distinct keys, every import names a helper the resolver answers truthily for, imports it from that answer, and names it once |
| EjsCompile.Configure | lib/ejs-visitor.js:66-72 | `escapeFn` defaults to `escape` when it is missing or empty; `export` is copied; a resolver the caller supplies is kept; without one no helper resolves truthily |
| EjsCompile.VariableName | lib/ejs-visitor.js:78-80 | a scope variable contains no dot, so it is always the single root of a member chain |
| EjsProperties.VariableNameInjective | lib/ejs-visitor.js:78-80 | different depths have different variables |
| EjsProperties.FirstScopeVariable | lib/ejs-visitor.js:78-80 | depth 1 has the variable `data1` |
| EjsCompile.ContentLiteral | lib/ejs-visitor.js:198-203 | content becomes a string literal of exactly its text |
| EjsCompile.PairProperties | lib/ejs-visitor.js:231-256 | the options object has one property per hash pair |
| EjsProperties.PairPropertiesMeaning | lib/ejs-visitor.js:231-256 | property i is keyed by pair i's key; its value is the member chain `data{depth}.{original}` for a path and a literal of the pair's value otherwise |
| EjsCompile.CompileRenderFunction | lib/ejs-visitor.js:82-112 | a successful render function is a program holding one declaration with the given name (none for `fn`) and the single parameter `data{depth + 1}` |
| EjsProperties.StatementShape | lib/ejs-visitor.js:198-210 | a compiled statement yields a node if and only if it is content, a mustache or a block; comments, partials and decorator blocks yield nothing; the node is never a `+` node |
| EjsProperties.BlockShape | lib/ejs-visitor.js:215-274 | a compiled block has a path head; `if` and `unless` give a conditional, and every other name gives a call whose callee is the helper's name |
| EjsProperties.BodyOperands | lib/ejs-visitor.js:74-76 | a compiled body has exactly one operand per contributing statement, and none of them is a `+` node |
| EjsProperties.BodyOrder | lib/ejs-visitor.js:74-76 | a compiled body has one operand per contributing statement, and operand i is the node the i-th contributing statement compiles to |
| EjsProperties.ConcatFlattens | lib/ejs-visitor.js:74-76 | a body folds to nothing if and only if no statement contributes; otherwise operand i of the `+` chain, read back, is the node of the i-th contributing statement |
| EjsProperties.NonContributingElided | lib/ejs-visitor.js:74-76 | dropping comments, partials and decorator blocks from a body changes neither its result nor the helper table |
| EjsProperties.UnlessIsSwappedIf | lib/ejs-visitor.js:161-193 | `unless` compiles if and only if `if` does; both have the same test, and the consequent and alternate trade places |
| EjsProperties.IfTest | lib/ejs-visitor.js:161-174 | no condition parameter is a TypeError; an `if` reached from a hashed mustache has no body and fails; the test is `data{depth}` followed by the pieces of the condition's text |
| EjsProperties.IfBranches | lib/ejs-visitor.js:161-174 | a compiled `if` has a body; its consequent is the body folded in the current scope, and its alternate is the inverse folded there, or `''` without an inverse |
| EjsProperties.MustacheInterpolation | lib/ejs-visitor.js:139-151 | a mustache without a hash leaves the table alone; it compiles if and only if its head is a path; the result calls the escape function when escaped and `String` otherwise, on the chain from `data{depth - path.depth}` through the pieces of the first part |
| EjsProperties.ScopedWorld | lib/ejs-visitor.js:25-37 | `data1.world` is the member expression of `world` on `data1` |
| EjsProperties.ParentScopeLookup | lib/ejs-visitor.js:139-151 | `{{../../world}}` three scopes deep compiles to `escape(data1.world)` |
| EjsProperties.InnerWorld | lib/ejs-visitor.js:139-151 | `{{{../../world}}}` three scopes deep compiles to `String(data1.world)` |
| EjsProperties.NestedHelperScopes | lib/ejs-visitor.js:82-112 | `Hello {{#helper}}world{{#helper}} from {{{../../world}}}{{/helper}}{{/helper}}` compiles to `render(data1)` whose nested `fn` functions take `data2` and `data3`, the innermost returning `' from ' + String(data1.world)`, with no imports |
| EjsProperties.HelperCallShape | lib/ejs-visitor.js:227-273 | the call's callee is the helper name; its first argument holds the hash properties; a second `{fn: render}` argument, with a render function taking `data{depth + 1}` that is exactly the render function of the block's body, is there if and only if the block has a non-empty body; without one the call always compiles |
| EjsProperties.RenderFunctionBody | lib/ejs-visitor.js:82-112 | a render function succeeds exactly when its body, compiled at `depth + 1`, does, and its one statement returns that body's fold |
| EjsProperties.RenderTable | lib/ejs-visitor.js:117-120 | after a whole template, starting from an empty table, the table's keys are distinct and its entries are the resolver's answers; when the template compiles, the keys are exactly the helpers it calls |
| EjsProperties.TemplateShape | lib/ejs-visitor.js:117-133 | the module is the helper imports followed by the render declaration `render(data1)`, wrapped in an export when asked for; each import is a truthy resolver answer and no name is imported twice |
| EjsProperties.TemplateBody | lib/ejs-visitor.js:117-133 | the module compiles exactly when the template's body, folded at depth 1, does; its last declaration, unwrapped from the export when asked for, is the function returning that fold; before it come exactly the imports of the truthy entries, in the order their names were first recorded (lines 40-61), each from the resolver's answer |
| EjsProperties.TemplateImports | lib/ejs-visitor.js:117-133 | a compiled module imports a helper from the resolver's answer if and only if the template calls that helper and the answer is truthy |
| EjsProperties.NoImportWithoutResolver | lib/ejs-visitor.js:71 | the default resolver `() => false` makes no node a helper import |
| EjsProperties.NoResolverNoImports | lib/ejs-visitor.js:130 | without a resolver the module is the render declaration alone |
| EjsProperties.ObjectPrototypeHelperLost | lib/ejs-visitor.js:119 | for a helper named like a property of `Object.prototype` that the resolver knows, the lookup as written yields no import and the intended lookup yields exactly that import |
| EjsProperties.ToStringHelperLost | lib/ejs-visitor.js:218-219 | a helper called `toString` loses its import under the lookup as written |
| EjsTables.UseHelperGrows | lib/ejs-visitor.js:218-220 | one lookup keeps the keys distinct, keeps the key order, keeps every truthy entry and stores only the resolver's answer |
| EjsTables.GrowsTransitive | lib/ejs-visitor.js:218-220 | two steps of table growth compose into one |
| EjsTables.StatementGrows | lib/ejs-visitor.js:215-220 | compiling any statement, however deeply nested, only grows the table in that way |
| EjsTables.MustacheGrows | lib/ejs-visitor.js:139-142 | as above, for a mustache |
| EjsTables.BlockGrows | lib/ejs-visitor.js:215-225 | as above, for a block, through the lookup and then the chosen rule |
| EjsTables.IfGrows | lib/ejs-visitor.js:161-174 | as above, for `if` |
| EjsTables.UnlessGrows | lib/ejs-visitor.js:180-193 | as above, for `unless` |
| EjsTables.HelperCallGrows | lib/ejs-visitor.js:258-273 | as above, for a generic helper call |
| EjsTables.BodyGrows | lib/ejs-visitor.js:74-76 | as above, for a body, statement after statement |
| EjsTables.ConcatGrows | lib/ejs-visitor.js:74-76 | as above, for a folded body |
| EjsTables.RenderFunctionGrows | lib/ejs-visitor.js:82-112 | as above, for a render function |
| EjsTables.StatementIndependent | lib/ejs-visitor.js:215-220 | the node a statement compiles to, or its error, is the same whatever table compilation starts from |
| EjsTables.MustacheIndependent | lib/ejs-visitor.js:139-151 | as above, for a mustache |
| EjsTables.BlockIndependent | lib/ejs-visitor.js:215-225 | as above, for a block |
| EjsTables.IfIndependent | lib/ejs-visitor.js:161-174 | as above, for `if` |
| EjsTables.UnlessIndependent | lib/ejs-visitor.js:180-193 | as above, for `unless` |
| EjsTables.HelperCallIndependent | lib/ejs-visitor.js:227-273 | as above, for a generic helper call |
| EjsTables.BodyIndependent | lib/ejs-visitor.js:74-76 | as above, for the operands of a body |
| EjsTables.ConcatIndependent | lib/ejs-visitor.js:74-76 | as above, for a folded body |
| EjsTables.RenderFunctionIndependent | lib/ejs-visitor.js:82-112 | as above, for a render function |
| EjsTables.StatementRecords | lib/ejs-visitor.js:215-220 | a statement that compiles adds exactly the helpers it calls, nested ones included, to the table's keys |
| EjsTables.MustacheRecords | lib/ejs-visitor.js:139-142 | as above, for a mustache: its head when it has a hash, nothing otherwise |
| EjsTables.BlockRecords | lib/ejs-visitor.js:215-225 | as above, for a block: its head, then what the chosen rule adds |
| EjsTables.IfRecords | lib/ejs-visitor.js:161-174 | as above, for `if`: the helpers of the body and of the inverse |
| EjsTables.UnlessRecords | lib/ejs-visitor.js:180-193 | as above, for `unless`: the helpers of the inverse and of the body |
| EjsTables.HelperCallRecords | lib/ejs-visitor.js:258-273 | as above, for a generic call: the helpers of its body only |
| EjsTables.BodyRecords | lib/ejs-visitor.js:74-76 | as above, for a body: the helpers of all its statements |
| EjsTables.ConcatRecords | lib/ejs-visitor.js:74-76 | as above, for a folded body |
| EjsTables.RenderFunctionRecords | lib/ejs-visitor.js:82-112 | as above, for a render function |
| EjsVisitor.EcmaScriptVisitor.constructor | lib/ejs-visitor.js:66-72 | the options are the caller's with their defaults filled in; the fields start at depth 0 and an empty table (see "Left out") |
| EjsVisitor.EcmaScriptVisitor.GetVariableName | lib/ejs-visitor.js:78-80 | the variable of the scope `offset` levels from the current depth |
| EjsVisitor.EcmaScriptVisitor.Program | lib/ejs-visitor.js:117-133 | resets depth and table, then returns exactly the module `EjsCompile.CompileTemplate` describes; on success depth is 0 again and the table is the one the template's render function leaves |
| EjsVisitor.EcmaScriptVisitor.CreateRenderFunction | lib/ejs-visitor.js:82-112 | returns the render function of the rule; on success depth is back to its entry value and the table is the rule's |
| EjsVisitor.EcmaScriptVisitor.ConcatStatements | lib/ejs-visitor.js:74-76 | accepting the statements one by one and folding the present results gives the rule's result and table, with depth unchanged |
| EjsVisitor.EcmaScriptVisitor.Accept | lib/ejs-visitor.js:198-210 | dispatch on the statement kind gives the rule's result; comments, partials and decorator blocks give nothing |
| EjsVisitor.EcmaScriptVisitor.MustacheStatement | lib/ejs-visitor.js:139-151 | a hashed mustache goes to `BlockStatement`; otherwise the interpolation of the rule, with depth unchanged |
| EjsVisitor.EcmaScriptVisitor.IfStatement | lib/ejs-visitor.js:161-174 | the rule's conditional, with depth unchanged and the body's then the inverse's helpers recorded |
| EjsVisitor.EcmaScriptVisitor.UnlessStatement | lib/ejs-visitor.js:180-193 | the rule's conditional, with depth unchanged and the inverse's then the body's helpers recorded |
| EjsVisitor.EcmaScriptVisitor.BlockStatement | lib/ejs-visitor.js:215-225 | records the helper in the table, then dispatches to `if`, `unless` or the generic call, with the rule's result |
| EjsVisitor.EcmaScriptVisitor.HelperCall | lib/ejs-visitor.js:227-273 | the rule's helper call, with the `fn` render function built one scope deeper and depth restored |
| EjsVisitor.EcmaScriptVisitor.HashOptions | lib/ejs-visitor.js:227-257 | the loop over the hash pairs builds exactly the rule's properties, in order |
| EjsVisitor.ToEcmaScript | lib/ejs-visitor.js:5-7 | a fresh visitor per call, so the module depends only on the template and the options |

## Left out

- `index.js` is not part of this model. It calls the external Handlebars parser and the escodegen printer. The model starts from the parsed tree and ends at the ESTree.
- The base `Visitor.accept` is replaced by a `match` on the statement kind. The entry point calls `Program` directly.
- Inline decorators (`{{* d}}`) are not in the template datatype. The source's `Decorator` returns the debug string `'{{ DIRECTIVE undefined }}'`, not a node. That string is truthy, so the filter at line 75 keeps it as a `+` operand, and the source emits a malformed tree for such a template. The model does not represent that case.
- The literal, `Hash` and `HashPair` visitors also return debug strings. The model does not reach them: hash pairs are read directly.
- `SubExpression` and `PathExpression` warn and return `undefined`. The model does not reach them either: the parts it uses are read directly from the statements.
- The `console.warn` calls of the unimplemented statements are not modelled. Those statements yield nothing.
- `esprima.parse` of `${helperName}()` is modelled as a call whose callee is `Identifier(helperName)`. A helper name that is not a JavaScript identifier would parse differently or throw. That is not modelled.
- `JSON.stringify` for a literal's `raw` text is kept symbolic (`JsonOf(value)`). Number and string formatting are not modelled.
- A number literal's `original`, when it is a condition, is carried as the parser's text. The number-to-string conversion is not modelled.
- `Object.keys` lists integer-like keys first. The import order is modelled as insertion order. A helper whose name is an array index is unusual and is not modelled.
- The helper resolver is a caller-supplied callback. It is modelled as a pure function from name to value, so a resolver with side effects or varying answers is not covered.
- The constructor writes its defaults back into the caller's options object. The model reads a configuration record instead.
- EjsVisitor.EcmaScriptVisitor.CreateRenderFunction: after a TypeError inside the body, nothing is promised about `depth` or the table. In the source the exception skips `_depth--`, and the visitor is abandoned.
- The same holds for every other method of `EjsVisitor.EcmaScriptVisitor`: the state is promised on success only.
- EjsProperties.UnlessIsSwappedIf: when both conditionals fail it does not say they report the same error. `unless` compiles the inverse first, so the first TypeError can differ.
- EjsVisitor.EcmaScriptVisitor.constructor: the source constructor leaves `_depth` and `_usedHelpers` undefined until `Program` sets them. A visitor used before `Program` would name its scope `dataNaN` or throw at line 218. The model starts both fields at 0 and the empty table, and every entry point goes through `Program`.
- EjsCompile.HeadName: for a path without parts (`{{#this}}`, `{{this x=1}}`) the source passes `undefined` itself to the resolver at line 219. The model passes the text `"undefined"`. The table key, the callee and the member chain are the same text in both.
- EjsCompile.CompileBlock and EjsVisitor.EcmaScriptVisitor.BlockStatement use the corrected lookup `UseHelper`, not the lookup as written. For the twelve names in `ObjectPrototypeNames` the model's module therefore imports helpers that the source leaves out. See "Findings".
- The tests that evaluate the generated code depend on JavaScript's runtime behaviour, which is not modelled.

## Findings

| source | as written | input that shows it | evidently intended | confidence | as-written member | corrected member |
|---|---|---|---|---|---|---|
| lib/ejs-visitor.js:119 | `_usedHelpers` is a plain `{}`, so `!this._usedHelpers[helperName]` (line 218) reads properties inherited from `Object.prototype`. For `toString`, `constructor`, `valueOf` and the like the function found there is truthy, so the resolver is never asked and `Object.keys` never lists the name | `{{#toString}}x{{/toString}}` with a resolver that answers `'./helpers.js'` gives a call of `toString` and no import | the resolver is asked for every helper without a truthy entry of its own, and the helper is imported | not executed | EjsBuilders.UseHelperAsWritten, EjsProperties.ToStringHelperLost | EjsBuilders.UseHelper |
