/** The free functions of the visitor file: the `+` fold, the member-chain builder, the
    helper usage table and the import declarations synthesised from it. */
module EjsBuilders {
  import opened Wrappers
  import opened Text
  import opened Estree

  /** `concatExpressions`: nothing for no operands, the operand itself for one, and
      otherwise a `+` node whose right operand is the last one and whose left operand is
      the fold of the others. */
  function ConcatExpressions(statements: seq<Node>): (r: Option<Node>)
    ensures r.None? <==> |statements| == 0
    ensures |statements| == 1 ==> r == Some(statements[0])
    ensures |statements| >= 2 ==> IsConcatenation(r.value)
    decreases |statements|
  {
    if |statements| == 0 then None
    else if |statements| == 1 then Some(statements[0])
    else
      var left := ConcatExpressions(statements[..|statements| - 1]);
      Some(BinaryExpression("+", left.value, statements[|statements| - 1]))
  }

  /** `createExpression`: consumes the identifiers from the end, nesting member accesses
      so that the first identifier ends up as the innermost object. */
  function CreateExpression(parts: seq<string>): (r: Node)
    requires |parts| >= 2
    ensures r.MemberExpression?
    decreases |parts|
  {
    var identifier := parts[|parts| - 1];
    var rest := parts[..|parts| - 1];
    MemberExpression(if |rest| == 1 then Identifier(rest[0]) else CreateExpression(rest),
                     Identifier(identifier))
  }

  /** Reading the chain back from its innermost object gives the identifiers in order. */
  lemma {:induction false} CreateExpressionPath(parts: seq<string>)
    requires |parts| >= 2
    ensures MemberPath(CreateExpression(parts)) == Some(parts)
    decreases |parts|
  {
    var rest := parts[..|parts| - 1];
    assert rest + [parts[|parts| - 1]] == parts;
    if |rest| == 1 {
      assert [rest[0]] == rest;
    } else {
      CreateExpressionPath(rest);
    }
  }

  /** `staticMemberExpression`: the member chain of a dotted string. The source recurses
      without end on a string with no dot, hence the precondition. */
  function StaticMemberExpression(members: string): (r: Node)
    requires |Split(members, '.')| >= 2
    ensures r.MemberExpression?
  {
    CreateExpression(Split(members, '.'))
  }

  /** The call shape `staticMemberExpression(scope + '.' + path)` used for every
      variable reference: a chain rooted at the scope variable, walking the dot-separated
      pieces of `path`. */
  function ScopedMember(scope: string, path: string): (r: Node)
    requires '.' !in scope
    ensures r.MemberExpression?
  {
    SplitAfterHead(scope, '.', path);
    StaticMemberExpression(scope + "." + path)
  }

  /** The chain of a dotted string walks its pieces, and joining them back with dots
      gives the string. */
  lemma StaticMemberPath(members: string)
    requires |Split(members, '.')| >= 2
    ensures MemberPath(StaticMemberExpression(members)) == Some(Split(members, '.'))
    ensures Join(MemberPath(StaticMemberExpression(members)).value, '.') == members
  {
    CreateExpressionPath(Split(members, '.'));
    SplitJoin(members, '.');
  }

  /** A variable reference is rooted at the scope variable and then walks the pieces of
      the path. */
  lemma ScopedMemberPath(scope: string, path: string)
    requires '.' !in scope
    ensures MemberPath(ScopedMember(scope, path)) == Some([scope] + Split(path, '.'))
  {
    SplitAfterHead(scope, '.', path);
    StaticMemberPath(scope + "." + path);
  }

  /** The helper usage table `_usedHelpers`: a dictionary from helper name to the
      resolver's answer, with its keys in insertion order. */
  datatype HelperTable = HelperTable(names: seq<string>, sources: map<string, Value>)
  {
    predicate Valid()
    {
      && (forall i, j :: 0 <= i < j < |names| ==> names[i] != names[j])
      && sources.Keys == set n | n in names
    }
  }

  const EmptyTable := HelperTable([], map[])

  /** `_usedHelpers[name]` is truthy, reading only the table's own entries. */
  predicate Resolved(t: HelperTable, name: string)
  {
    name in t.sources && Truthy(t.sources[name])
  }

  /** The assignment `_usedHelpers[name] = source`: a new key goes last, an existing key
      keeps its place. */
  function Assign(t: HelperTable, name: string, source: Value): HelperTable
  {
    HelperTable(if name in t.sources then t.names else t.names + [name],
                t.sources[name := source])
  }

  /** The lookup at the head of `BlockStatement`: the resolver is asked unless the name
      already holds a truthy answer, so a truthy answer is kept and a falsy one is asked
      again. */
  function UseHelper(t: HelperTable, name: string, resolver: string -> Value): (r: HelperTable)
    ensures t.Valid() ==> r.Valid()
    ensures Resolved(t, name) ==> r == t
    ensures !Resolved(t, name) ==> r.sources == t.sources[name := resolver(name)]
    ensures name in r.sources
    ensures r.names == t.names || (name !in t.sources && r.names == t.names + [name])
  {
    if Resolved(t, name) then t else Assign(t, name, resolver(name))
  }

  /** Names whose lookup on a plain JavaScript object `{}` finds a truthy property
      inherited from `Object.prototype`. */
  const ObjectPrototypeNames: set<string> :=
    {"constructor", "hasOwnProperty", "isPrototypeOf", "propertyIsEnumerable",
     "toLocaleString", "toString", "valueOf", "__proto__", "__defineGetter__",
     "__defineSetter__", "__lookupGetter__", "__lookupSetter__"}

  /** The lookup as the source writes it, on an object literal: an inherited property
      counts as a truthy entry, so these names never reach the resolver. */
  function UseHelperAsWritten(t: HelperTable, name: string, resolver: string -> Value): (r: HelperTable)
    ensures name in ObjectPrototypeNames && name !in t.sources ==> r == t
  {
    if Resolved(t, name) || (name !in t.sources && name in ObjectPrototypeNames) then t
    else Assign(t, name, resolver(name))
  }

  /** The names of the table's truthy entries, in insertion order. */
  function ResolvedNames(names: seq<string>, t: HelperTable): (r: seq<string>)
    ensures |r| <= |names|
    decreases |names|
  {
    if |names| == 0 then []
    else (if Resolved(t, names[0]) then [names[0]] else []) + ResolvedNames(names[1..], t)
  }

  /** `import { name } from source;` */
  function HelperImport(name: string, source: Value): Node
  {
    ImportDeclaration([ImportSpecifier(Identifier(name), Identifier(name))], Literal(source, NoRaw))
  }

  /** `createHelperImports`: one import per truthy entry, in key order. */
  function CreateHelperImports(t: HelperTable): (r: seq<Node>)
    ensures |r| == |ResolvedNames(t.names, t)|
    ensures forall i :: 0 <= i < |r| ==>
              var name := ResolvedNames(t.names, t)[i];
              Resolved(t, name) && r[i] == HelperImport(name, t.sources[name])
  {
    var names := ResolvedNames(t.names, t);
    ResolvedNamesAreResolved(t.names, t);
    forall i | 0 <= i < |names| ensures names[i] in t.sources {
      assert names[i] in names;
    }
    seq(|names|, i requires 0 <= i < |names| => HelperImport(names[i], t.sources[names[i]]))
  }

  lemma {:induction false} ResolvedNamesAreResolved(names: seq<string>, t: HelperTable)
    ensures forall n :: n in ResolvedNames(names, t) <==> n in names && Resolved(t, n)
    decreases |names|
  {
    if |names| > 0 {
      ResolvedNamesAreResolved(names[1..], t);
      assert names == [names[0]] + names[1..];
    }
  }

  /** Filtering distributes over concatenation, so the imports keep the relative order
      in which the helpers were first recorded. */
  lemma {:induction false} ResolvedNamesAppend(a: seq<string>, b: seq<string>, t: HelperTable)
    ensures ResolvedNames(a + b, t) == ResolvedNames(a, t) + ResolvedNames(b, t)
    decreases |a|
  {
    if |a| > 0 {
      assert (a + b)[1..] == a[1..] + b;
      ResolvedNamesAppend(a[1..], b, t);
    } else {
      assert a + b == b;
    }
  }
}
