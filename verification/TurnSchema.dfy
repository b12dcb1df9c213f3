/** Merging the argument schemas of all tools and the output schema into one turn schema. */
module TurnSchema {
  import opened Prelude
  import opened JsonSchema
  import opened SchemaRename

  datatype SchemaError = DefsNotAnObject | NothingPermitted

  /** A schema with its definitions moved out under new names. */
  datatype Namespaced = Namespaced(schema: Json, definitions: map<string, Json>)

  predicate DefsOk(schema: Json)
  {
    schema.Obj? && DEFS in schema.fields ==> schema.fields[DEFS].Obj? || schema.fields[DEFS].Null?
  }

  function Body(schema: Json): Json
    requires schema.Obj?
  {
    Obj(schema.fields - {DEFS})
  }

  function NewNames(names: set<string>, namespace: string): set<string>
  {
    set name | name in names :: Name(namespace, name)
  }

  /** The definitions of `schema` under their new names. */
  function RenamedDefinitions(schema: Json, namespace: string): map<string, Json>
  {
    var defs := Definitions(schema);
    map q | q in NewNames(defs.Keys, namespace) :: Rewrite(defs.Keys, namespace, defs[q[|namespace| + 2..]])
  }

  /** `_namespace_schema_defs`. */
  function NamespaceSchemaDefs(schema: Json, namespace: string): (r: Result<Namespaced, SchemaError>)
    requires schema.Obj?
    ensures r.Ok? <==> DefsOk(schema)
    ensures r.Err? ==> r.error == DefsNotAnObject
    ensures r.Ok? ==> r.value.schema.Obj? && r.value.schema.fields.Keys == schema.fields.Keys - {DEFS}
    ensures r.Ok? ==> r.value.definitions.Keys == NewNames(Definitions(schema).Keys, namespace)
  {
    if DEFS !in schema.fields || schema.fields[DEFS].Null? then Ok(Namespaced(Body(schema), map[]))
    else if !schema.fields[DEFS].Obj? then Err(DefsNotAnObject)
    else Ok(Namespaced(Rewrite(Definitions(schema).Keys, namespace, Body(schema)),
                       RenamedDefinitions(schema, namespace)))
  }

  lemma RenamedAt(schema: Json, namespace: string, name: string)
    requires name in Definitions(schema)
    ensures Name(namespace, name) in RenamedDefinitions(schema, namespace)
    ensures RenamedDefinitions(schema, namespace)[Name(namespace, name)]
            == Rewrite(Definitions(schema).Keys, namespace, Definitions(schema)[name])
  {
    assert Name(namespace, name)[|namespace| + 2..] == name;
  }

  lemma {:induction false} RewriteNothing(namespace: string, j: Json)
    ensures Rewrite({}, namespace, j) == j
  {
    match j
    case Obj(m) =>
      forall k | k in m ensures Rewrite({}, namespace, m[k]) == m[k] {
        RewriteNothing(namespace, m[k]);
      }
      assert Rewrite({}, namespace, j).fields == m;
    case Arr(items) =>
      forall i | 0 <= i < |items| ensures Rewrite({}, namespace, items[i]) == items[i] {
        RewriteNothing(namespace, items[i]);
      }
      assert Rewrite({}, namespace, j).items == items;
    case _ =>
  }

  /** The definitions move out under their new names, and the body and every definition refer to
      them by these; it fails exactly when `$defs` is neither an object nor null. */
  lemma NamespacedParts(schema: Json, namespace: string)
    requires schema.Obj?
    ensures NamespaceSchemaDefs(schema, namespace) == Err(DefsNotAnObject) <==> !DefsOk(schema)
    ensures DefsOk(schema) ==>
              var r := NamespaceSchemaDefs(schema, namespace);
              var defs := Definitions(schema);
              && r.Ok? && r.value.schema == Rewrite(defs.Keys, namespace, Body(schema))
              && r.value.definitions.Keys == NewNames(defs.Keys, namespace)
              && forall name :: name in defs ==>
                   && Name(namespace, name) in r.value.definitions
                   && r.value.definitions[Name(namespace, name)] == Rewrite(defs.Keys, namespace, defs[name])
  {
    if DefsOk(schema) {
      var defs := Definitions(schema);
      if defs == map[] {
        assert defs.Keys == {};
        RewriteNothing(namespace, Body(schema));
      }
      hide Rewrite;
      forall name | name in defs
        ensures && Name(namespace, name) in RenamedDefinitions(schema, namespace)
                && RenamedDefinitions(schema, namespace)[Name(namespace, name)]
                   == Rewrite(defs.Keys, namespace, defs[name])
      {
        RenamedAt(schema, namespace, name);
      }
      hide RenamedDefinitions;
    }
  }

  /** Every reference of the schema and of its definitions is local and resolved. */
  ghost predicate SelfContained(schema: Json)
    requires schema.Obj?
  {
    && Scoped(Definitions(schema).Keys, Body(schema))
    && forall d :: d in Definitions(schema) ==> Scoped(Definitions(schema).Keys, Definitions(schema)[d])
  }

  /** A schema moved into a document that holds its renamed definitions keeps every verdict. */
  lemma NamespacedKeepsMeaning(other: Assertions, fuel: nat, schema: Json, namespace: string,
                               merged: Json, v: Json)
    requires schema.Obj? && DefsOk(schema) && Plain(namespace) && SelfContained(schema)
    requires forall q :: q in RenamedDefinitions(schema, namespace) ==>
               q in Definitions(merged) && Definitions(merged)[q] == RenamedDefinitions(schema, namespace)[q]
    ensures Validate(other, fuel, merged, NamespaceSchemaDefs(schema, namespace).value.schema, v)
            == Validate(other, fuel, schema, schema, v)
  {
    hide Validate, Scoped, Rewrite, RenamedDefinitions;
    var moved := Merge(other, schema, merged, namespace);
    forall name | name in Definitions(schema)
      ensures Name(namespace, name) in Definitions(merged)
      ensures Definitions(merged)[Name(namespace, name)] == Rewrite(moved.Names(), namespace, Definitions(schema)[name])
    {
      RenamedAt(schema, namespace, name);
    }
    moved.Preserves(fuel, Body(schema), v);
    if Definitions(schema) == map[] {
      assert moved.Names() == {};
      RewriteNothing(namespace, Body(schema));
    }
    assert moved.Image(Body(schema)) == NamespaceSchemaDefs(schema, namespace).value.schema;
    DefsConstrainNothing(other, fuel, schema, schema.fields, v);
  }

  // ----- names never collide -----

  function Digit(d: nat): char
    requires d < 10
  {
    ['0', '1', '2', '3', '4', '5', '6', '7', '8', '9'][d]
  }

  function Decimal(n: nat): (s: string)
    ensures s != [] && '_' !in s
  {
    if n < 10 then [Digit(n)] else Decimal(n / 10) + [Digit(n % 10)]
  }

  lemma {:induction false} DecimalInjective(m: nat, n: nat)
    requires Decimal(m) == Decimal(n)
    ensures m == n
  {
    assert Decimal(m)[|Decimal(m)| - 1] == Digit(m % 10);
    assert Decimal(n)[|Decimal(n)| - 1] == Digit(n % 10);
    if m >= 10 && n >= 10 {
      assert Decimal(m)[..|Decimal(m)| - 1] == Decimal(m / 10);
      assert Decimal(n)[..|Decimal(n)| - 1] == Decimal(n / 10);
      DecimalInjective(m / 10, n / 10);
    }
  }

  const OUTPUT := "output"

  function ToolNamespace(i: nat): string { "tool_" + Decimal(i) }

  lemma NamespacesArePlain(i: nat)
    ensures Plain(ToolNamespace(i)) && Plain(OUTPUT)
  {
    DecimalIsPlain(i);
  }

  lemma {:induction false} DecimalIsPlain(n: nat)
    ensures Plain(Decimal(n))
  {
    if n < 10 {
    } else {
      DecimalIsPlain(n / 10);
    }
  }

  /** The first underscore ends the number. */
  lemma NumberEndsAtUnderscore(d: string, a: string, e: string, b: string)
    requires '_' !in d && '_' !in e && d + "__" + a == e + "__" + b
    ensures d == e && a == b
  {
    var x, y := d + "__" + a, e + "__" + b;
    assert x[|d|] == '_' && forall k :: 0 <= k < |d| ==> x[k] == d[k];
    assert y[|e|] == '_' && forall k :: 0 <= k < |e| ==> y[k] == e[k];
    assert |d| == |e|;
    assert x[|d| + 2..] == a && y[|d| + 2..] == b;
  }

  /** Renamed definitions of different tools, and of a tool and the output, are different names. */
  lemma NamesNeverCollide(i: nat, a: string, j: nat, b: string)
    ensures Name(ToolNamespace(i), a) == Name(ToolNamespace(j), b) ==> i == j && a == b
    ensures Name(ToolNamespace(i), a) != Name(OUTPUT, b)
  {
    var x, y := Name(ToolNamespace(i), a), Name(ToolNamespace(j), b);
    assert x[0] == 't' && Name(OUTPUT, b)[0] == 'o';
    assert x[5..] == Decimal(i) + "__" + a && y[5..] == Decimal(j) + "__" + b;
    if x == y {
      NumberEndsAtUnderscore(Decimal(i), a, Decimal(j), b);
      DecimalInjective(i, j);
    }
  }

  // ----- the turn schema -----

  datatype Tool = Tool(name: string, schema: Json)

  datatype Output = PlainText | Structured(schema: Json)

  /** What `_turn_schema` merges: the tools, the output type and whether the turn may be final. */
  datatype Turn = Turn(tools: seq<Tool>, output: Output, allowFinal: bool)

  const MIN_PLAIN_TEXT_LENGTH := 256.0
  const MAX_PLAIN_TEXT_LENGTH := 3500.0

  function PlainTextSchema(): Json
  {
    Obj(map["type" := Str("string"), "minLength" := Num(MIN_PLAIN_TEXT_LENGTH),
            "maxLength" := Num(MAX_PLAIN_TEXT_LENGTH)])
  }

  function ToolBranch(name: string, arguments: Json): (b: Json)
    ensures b.Obj? && DEFS !in b.fields
  {
    Record(ToolProperties(name, arguments), [Str("kind"), Str("name"), Str("arguments")])
  }

  function FinalBranch(output: Json): (b: Json)
    ensures b.Obj? && DEFS !in b.fields
  {
    Record(map["kind" := Constant("final"), "output" := output], [Str("kind"), Str("output")])
  }

  /** Schemas arrive as JSON objects. */
  predicate Typed(t: Turn)
  {
    (forall i :: 0 <= i < |t.tools| ==> t.tools[i].schema.Obj?) && (t.output.Structured? ==> t.output.schema.Obj?)
  }

  /** The first `k` tools have definitions that can be moved. */
  predicate ToolsOk(tools: seq<Tool>, k: nat)
  {
    k <= |tools| && forall i :: 0 <= i < k ==> tools[i].schema.Obj? && DefsOk(tools[i].schema)
  }

  /** No schema has a `$defs` that is not an object. */
  predicate Mergeable(t: Turn)
  {
    Typed(t) && ToolsOk(t.tools, |t.tools|) && (t.allowFinal && t.output.Structured? ==> DefsOk(t.output.schema))
  }

  function Part(tools: seq<Tool>, i: nat): Namespaced
    requires i < |tools| && tools[i].schema.Obj? && DefsOk(tools[i].schema)
  {
    NamespaceSchemaDefs(tools[i].schema, ToolNamespace(i)).value
  }

  function FinalPart(t: Turn): Namespaced
    requires Mergeable(t) && t.allowFinal
  {
    if t.output.PlainText? then Namespaced(PlainTextSchema(), map[])
    else NamespaceSchemaDefs(t.output.schema, OUTPUT).value
  }

  function ToolDefs(tools: seq<Tool>, k: nat): map<string, Json>
    requires ToolsOk(tools, k)
  {
    if k == 0 then map[] else ToolDefs(tools, k - 1) + Part(tools, k - 1).definitions
  }

  function RootDefs(t: Turn): map<string, Json>
    requires Mergeable(t)
  {
    ToolDefs(t.tools, |t.tools|) + if t.allowFinal then FinalPart(t).definitions else map[]
  }

  function ToolBranches(tools: seq<Tool>, k: nat): (bs: seq<Json>)
    requires ToolsOk(tools, k)
    ensures |bs| == k && forall i :: 0 <= i < k ==> bs[i] == ToolBranch(tools[i].name, Part(tools, i).schema)
  {
    if k == 0 then [] else ToolBranches(tools, k - 1) + [ToolBranch(tools[k - 1].name, Part(tools, k - 1).schema)]
  }

  function Branches(t: Turn): seq<Json>
    requires Mergeable(t)
  {
    ToolBranches(t.tools, |t.tools|) + if t.allowFinal then [FinalBranch(FinalPart(t).schema)] else []
  }

  function Assemble(branches: seq<Json>, defs: map<string, Json>): (schema: Json)
    requires branches != [] && branches[0].Obj? && DEFS !in branches[0].fields
    ensures Definitions(schema) == defs
  {
    var base := if |branches| == 1 then branches[0] else Obj(map["oneOf" := Arr(branches)]);
    if defs == map[] then base else Obj(base.fields[DEFS := Obj(defs)])
  }

  /** Some branch exists. */
  predicate Permits(t: Turn) { t.tools != [] || t.allowFinal }

  function Merged(t: Turn): (schema: Json)
    requires Mergeable(t) && Permits(t)
    ensures Definitions(schema) == RootDefs(t)
  {
    Assemble(Branches(t), RootDefs(t))
  }

  /** The loop over the tools: one branch for each, and all their renamed definitions. */
  method MoveTools(tools: seq<Tool>) returns (r: Result<(seq<Json>, map<string, Json>), SchemaError>)
    requires forall i :: 0 <= i < |tools| ==> tools[i].schema.Obj?
    ensures r.Ok? <==> ToolsOk(tools, |tools|)
    ensures r.Ok? ==> r.value == (ToolBranches(tools, |tools|), ToolDefs(tools, |tools|))
    ensures r.Err? ==> r.error == DefsNotAnObject
  {
    hide DefsOk, NamespaceSchemaDefs, ToolBranch, ToolNamespace;
    var branches: seq<Json>, rootDefs: map<string, Json> := [], map[];
    for index := 0 to |tools|
      invariant ToolsOk(tools, index)
      invariant branches == ToolBranches(tools, index) && rootDefs == ToolDefs(tools, index)
    {
      var part := NamespaceSchemaDefs(tools[index].schema, ToolNamespace(index));
      if part.Err? {
        return Err(part.error);
      }
      rootDefs := rootDefs + part.value.definitions;
      branches := branches + [ToolBranch(tools[index].name, part.value.schema)];
    }
    return Ok((branches, rootDefs));
  }

  /** `_turn_schema`. */
  method BuildTurnSchema(t: Turn) returns (r: Result<Json, SchemaError>)
    requires Typed(t)
    ensures r.Ok? <==> Mergeable(t) && Permits(t)
    ensures r.Ok? ==> r.value == Merged(t)
    ensures r.Err? ==> r.error == if Mergeable(t) then NothingPermitted else DefsNotAnObject
  {
    hide DefsOk, NamespaceSchemaDefs, ToolBranch, FinalBranch, Assemble, ToolNamespace, PlainTextSchema, ToolsOk;
    var moved := MoveTools(t.tools);
    if moved.Err? {
      return Err(moved.error);
    }
    var (branches, rootDefs) := moved.value;
    if t.allowFinal {
      var part := if t.output.PlainText? then Ok(Namespaced(PlainTextSchema(), map[]))
                  else NamespaceSchemaDefs(t.output.schema, OUTPUT);
      if part.Err? {
        return Err(part.error);
      }
      rootDefs := rootDefs + part.value.definitions;
      branches := branches + [FinalBranch(part.value.schema)];
    }
    if branches == [] {
      return Err(NothingPermitted);
    }
    assert branches == Branches(t) && rootDefs == RootDefs(t);
    return Ok(Assemble(branches, rootDefs));
  }

  // ----- what the turn schema accepts -----

  lemma PartDefinitions(schema: Json, namespace: string)
    requires schema.Obj? && DefsOk(schema)
    ensures NamespaceSchemaDefs(schema, namespace).value.definitions == RenamedDefinitions(schema, namespace)
  {
    hide Rewrite;
  }

  lemma RenamedFrom(schema: Json, namespace: string, q: string) returns (name: string)
    requires q in RenamedDefinitions(schema, namespace)
    ensures q == Name(namespace, name)
  {
    hide Rewrite;
    name :| name in Definitions(schema) && q == Name(namespace, name);
  }

  /** Later tools do not overwrite the definitions of earlier ones. */
  lemma {:induction false} ToolDefsHold(tools: seq<Tool>, k: nat, i: nat, q: string)
    requires ToolsOk(tools, k) && i < k && q in Part(tools, i).definitions
    ensures q in ToolDefs(tools, k) && ToolDefs(tools, k)[q] == Part(tools, i).definitions[q]
  {
    if i < k - 1 {
      hide NamespaceSchemaDefs, RenamedDefinitions;
      ToolDefsHold(tools, k - 1, i, q);
      PartDefinitions(tools[i].schema, ToolNamespace(i));
      PartDefinitions(tools[k - 1].schema, ToolNamespace(k - 1));
      var a := RenamedFrom(tools[i].schema, ToolNamespace(i), q);
      if q in Part(tools, k - 1).definitions {
        var b := RenamedFrom(tools[k - 1].schema, ToolNamespace(k - 1), q);
        NamesNeverCollide(i, a, k - 1, b);
      }
    }
  }

  /** The root holds the renamed definitions of every tool. */
  lemma RootHoldsTool(t: Turn, i: nat, q: string)
    requires Mergeable(t) && i < |t.tools| && q in RenamedDefinitions(t.tools[i].schema, ToolNamespace(i))
    ensures q in RootDefs(t) && RootDefs(t)[q] == RenamedDefinitions(t.tools[i].schema, ToolNamespace(i))[q]
  {
    hide NamespaceSchemaDefs, RenamedDefinitions;
    PartDefinitions(t.tools[i].schema, ToolNamespace(i));
    ToolDefsHold(t.tools, |t.tools|, i, q);
    if t.allowFinal && q in FinalPart(t).definitions {
      PartDefinitions(t.output.schema, OUTPUT);
      var a := RenamedFrom(t.tools[i].schema, ToolNamespace(i), q);
      var b := RenamedFrom(t.output.schema, OUTPUT, q);
      NamesNeverCollide(i, a, i, b);
    }
  }

  /** The schemas of all tools and of the output refer to their own definitions only. */
  ghost predicate Separate(t: Turn)
  {
    && Mergeable(t) && Permits(t)
    && (forall i :: 0 <= i < |t.tools| ==> SelfContained(t.tools[i].schema))
    && (t.output.Structured? ==> SelfContained(t.output.schema))
  }

  /** A tool's arguments mean in the turn schema what they mean in the tool's own schema. */
  lemma ArgumentsKeepMeaning(other: Assertions, fuel: nat, t: Turn, i: nat, v: Json)
    requires Separate(t) && i < |t.tools|
    ensures Validate(other, fuel, Merged(t), Part(t.tools, i).schema, v)
            == Validate(other, fuel, t.tools[i].schema, t.tools[i].schema, v)
  {
    hide Validate, RenamedDefinitions, SelfContained, Merged, NamespaceSchemaDefs;
    forall q | q in RenamedDefinitions(t.tools[i].schema, ToolNamespace(i))
      ensures q in RootDefs(t) && RootDefs(t)[q] == RenamedDefinitions(t.tools[i].schema, ToolNamespace(i))[q]
    {
      RootHoldsTool(t, i, q);
    }
    NamespacesArePlain(i);
    NamespacedKeepsMeaning(other, fuel, t.tools[i].schema, ToolNamespace(i), Merged(t), v);
  }

  /** The verdict on a final output, by the output's own schema. */
  ghost function OutputVerdict(other: Assertions, fuel: nat, output: Output, v: Json): Verdict
  {
    match output
    case PlainText => Validate(other, fuel, PlainTextSchema(), PlainTextSchema(), v)
    case Structured(schema) => Validate(other, fuel, schema, schema, v)
  }

  predicate PlainTextFits(v: Json)
  {
    v.Str? && MIN_PLAIN_TEXT_LENGTH <= |v.text| as real <= MAX_PLAIN_TEXT_LENGTH
  }

  /** Plain text is a string of 256 to 3500 characters. */
  lemma PlainTextMeaning(other: Assertions, fuel: nat, root: Json, v: Json)
    ensures Validate(other, fuel, root, PlainTextSchema(), v) == if PlainTextFits(v) then Accept else Reject
  {
    hide All, Validate, Keyword;
    var p := PlainTextSchema();
    var vs := Verdicts(other, fuel, root, p, v);
    ValidateIsAll(other, fuel, root, p, v);
    PlainTextKeywords(other, fuel, root, v);
    ThreeDecide(vs, "type", "minLength", "maxLength");
  }

  lemma PlainTextKeywords(other: Assertions, fuel: nat, root: Json, v: Json)
    ensures var vs := Verdicts(other, fuel, root, PlainTextSchema(), v);
            && vs["type"] == (if v.Str? then Accept else Reject)
            && vs["minLength"] == (if v.Str? ==> |v.text| as real >= MIN_PLAIN_TEXT_LENGTH then Accept else Reject)
            && vs["maxLength"] == (if v.Str? ==> |v.text| as real <= MAX_PLAIN_TEXT_LENGTH then Accept else Reject)
  {
    hide Keyword;
    AssertionKeyword(other, fuel, root, PlainTextSchema(), "type", v);
    AssertionKeyword(other, fuel, root, PlainTextSchema(), "minLength", v);
    AssertionKeyword(other, fuel, root, PlainTextSchema(), "maxLength", v);
  }

  lemma OutputKeepsMeaning(other: Assertions, fuel: nat, t: Turn, v: Json)
    requires Separate(t) && t.allowFinal
    ensures Validate(other, fuel, Merged(t), FinalPart(t).schema, v) == OutputVerdict(other, fuel, t.output, v)
  {
    hide Validate, RenamedDefinitions, SelfContained, Merged, NamespaceSchemaDefs, PlainTextSchema;
    if t.output.PlainText? {
      PlainTextMeaning(other, fuel, Merged(t), v);
      PlainTextMeaning(other, fuel, PlainTextSchema(), v);
    } else {
      PartDefinitions(t.output.schema, OUTPUT);
      NamespacesArePlain(0);
      NamespacedKeepsMeaning(other, fuel, t.output.schema, OUTPUT, Merged(t), v);
    }
  }

  /** `turn` calls the tool `name`. */
  predicate Calls(turn: Json, name: string)
  {
    && turn.Obj? && turn.fields.Keys == {"kind", "name", "arguments"}
    && turn.fields["kind"] == Str("tool_call") && turn.fields["name"] == Str(name)
  }

  predicate Finishes(turn: Json)
  {
    turn.Obj? && turn.fields.Keys == {"kind", "output"} && turn.fields["kind"] == Str("final")
  }

  lemma ToolBranchMeaning(other: Assertions, fuel: nat, root: Json, name: string, arguments: Json, turn: Json)
    ensures Validate(other, fuel, root, ToolBranch(name, arguments), turn) ==
            if Calls(turn, name) then Validate(other, fuel, root, arguments, turn.fields["arguments"]) else Reject
  {
    hide Validate, All, Constant, Record;
    var props := ToolProperties(name, arguments);
    RecordMeaning(other, fuel, root, props, [Str("kind"), Str("name"), Str("arguments")], turn);
    if turn.Obj? && turn.fields.Keys == props.Keys {
      ToolVerdicts(other, fuel, root, name, arguments, turn);
      hide ToolProperties, PropertyVerdicts;
      var vs := PropertyVerdicts(other, fuel, root, props, turn);
      ThreeDecide(vs, "kind", "name", "arguments");
    }
  }

  function ToolProperties(name: string, arguments: Json): (props: map<string, Json>)
    ensures props.Keys == {"kind", "name", "arguments"}
  {
    map["kind" := Constant("tool_call"), "name" := Constant(name), "arguments" := arguments]
  }

  lemma ToolVerdicts(other: Assertions, fuel: nat, root: Json, name: string, arguments: Json, turn: Json)
    requires turn.Obj? && turn.fields.Keys == {"kind", "name", "arguments"}
    ensures var vs := PropertyVerdicts(other, fuel, root, ToolProperties(name, arguments), turn);
            && vs["kind"] == (if turn.fields["kind"] == Str("tool_call") then Accept else Reject)
            && vs["name"] == (if turn.fields["name"] == Str(name) then Accept else Reject)
            && vs["arguments"] == Validate(other, fuel, root, arguments, turn.fields["arguments"])
  {
    hide Validate, Constant;
    ConstantMeaning(other, fuel, root, "tool_call", turn.fields["kind"]);
    ConstantMeaning(other, fuel, root, name, turn.fields["name"]);
  }

  /** Two definite verdicts and a third one. */
  lemma ThreeDecide<K>(vs: map<K, Verdict>, a: K, b: K, c: K)
    requires vs.Keys == {a, b, c} && vs[a] != Stuck && vs[b] != Stuck
    ensures All(vs.Values) == if vs[a] == Accept && vs[b] == Accept then vs[c] else Reject
  {
    OneKeywordDecides(vs, a);
    OneKeywordDecides(vs, b);
    OneKeywordDecides(vs, c);
  }

  lemma FinalBranchMeaning(other: Assertions, fuel: nat, root: Json, output: Json, turn: Json)
    ensures Validate(other, fuel, root, FinalBranch(output), turn) ==
            if Finishes(turn) then Validate(other, fuel, root, output, turn.fields["output"]) else Reject
  {
    hide Validate, All, Constant;
    var props := map["kind" := Constant("final"), "output" := output];
    assert props.Keys == {"kind", "output"};
    RecordMeaning(other, fuel, root, props, [Str("kind"), Str("output")], turn);
    if turn.Obj? && turn.fields.Keys == props.Keys {
      var vs := PropertyVerdicts(other, fuel, root, props, turn);
      ConstantMeaning(other, fuel, root, "final", turn.fields["kind"]);
      OneKeywordDecides(vs, "kind");
      OneKeywordDecides(vs, "output");
    }
  }

  /** The verdict of each branch of the turn schema. */
  ghost function BranchVerdicts(other: Assertions, fuel: nat, t: Turn, turn: Json): (vs: seq<Verdict>)
    requires Mergeable(t) && Permits(t)
    ensures |vs| == |Branches(t)|
  {
    seq(|Branches(t)|, i requires 0 <= i < |Branches(t)| => Validate(other, fuel, Merged(t), Branches(t)[i], turn))
  }

  lemma OneDecides(vs: seq<Verdict>, i: nat)
    requires i < |vs| && forall j :: 0 <= j < |vs| && j != i ==> vs[j] == Reject
    ensures One(vs) == vs[i]
  {
  }

  lemma OneOfMeaning(other: Assertions, fuel: nat, root: Json, branches: seq<Json>, v: Json)
    ensures Validate(other, fuel, root, Obj(map["oneOf" := Arr(branches)]), v) ==
            One(seq(|branches|, i requires 0 <= i < |branches| => Validate(other, fuel, root, branches[i], v)))
  {
    assert RoleOf("oneOf") == Listed;
    hide One, All, Validate, RoleOf;
    var s := Obj(map["oneOf" := Arr(branches)]);
    ValidateIsAll(other, fuel, root, s, v);
    OneKeywordDecides(Verdicts(other, fuel, root, s, v), "oneOf");
    assert s.fields["oneOf"] == Arr(branches);
    assert ListedVerdicts(other, fuel, root, s, "oneOf", v)
        == seq(|branches|, i requires 0 <= i < |branches| => Validate(other, fuel, root, branches[i], v));
  }

  /** The turn schema accepts what exactly one branch accepts. */
  lemma MergedIsOneOf(other: Assertions, fuel: nat, t: Turn, turn: Json)
    requires Mergeable(t) && Permits(t)
    ensures Validate(other, fuel, Merged(t), Merged(t), turn) == One(BranchVerdicts(other, fuel, t, turn))
  {
    hide Validate, One, RootDefs, Part, FinalPart, ToolBranch, FinalBranch;
    var bs, m := Branches(t), Merged(t);
    var vs := BranchVerdicts(other, fuel, t, turn);
    var base := if |bs| == 1 then bs[0] else Obj(map["oneOf" := Arr(bs)]);
    DefsConstrainNothing(other, fuel, m, m.fields, turn);
    assert Obj(m.fields - {DEFS}) == base;
    if |bs| == 1 {
      OneDecides(vs, 0);
    } else {
      OneOfMeaning(other, fuel, m, bs, turn);
      assert vs == seq(|bs|, i requires 0 <= i < |bs| => Validate(other, fuel, m, bs[i], turn));
    }
  }

  lemma BranchVerdictAt(other: Assertions, fuel: nat, t: Turn, turn: Json, i: nat)
    requires Separate(t) && i < |Branches(t)|
    ensures BranchVerdicts(other, fuel, t, turn)[i] ==
            if i < |t.tools| then
              if Calls(turn, t.tools[i].name)
              then Validate(other, fuel, t.tools[i].schema, t.tools[i].schema, turn.fields["arguments"]) else Reject
            else if Finishes(turn) then OutputVerdict(other, fuel, t.output, turn.fields["output"]) else Reject
  {
    hide Validate, Merged, SelfContained, ToolBranch, FinalBranch, Part, FinalPart, OutputVerdict;
    if i < |t.tools| {
      ToolBranchMeaning(other, fuel, Merged(t), t.tools[i].name, Part(t.tools, i).schema, turn);
      if Calls(turn, t.tools[i].name) {
        ArgumentsKeepMeaning(other, fuel, t, i, turn.fields["arguments"]);
      }
    } else {
      FinalBranchMeaning(other, fuel, Merged(t), FinalPart(t).schema, turn);
      if Finishes(turn) {
        OutputKeepsMeaning(other, fuel, t, turn.fields["output"]);
      }
    }
  }

  predicate DistinctNames(t: Turn)
  {
    forall i, j :: 0 <= i < j < |t.tools| ==> t.tools[i].name != t.tools[j].name
  }

  /** With distinct tool names at most one branch does not reject a turn. */
  lemma AtMostOneBranch(other: Assertions, fuel: nat, t: Turn, turn: Json, i: nat, j: nat)
    requires Separate(t) && DistinctNames(t) && i < j < |Branches(t)|
    ensures BranchVerdicts(other, fuel, t, turn)[i] == Reject || BranchVerdicts(other, fuel, t, turn)[j] == Reject
  {
    hide Validate, BranchVerdicts, OutputVerdict, Separate;
    BranchVerdictAt(other, fuel, t, turn, i);
    BranchVerdictAt(other, fuel, t, turn, j);
  }

  /** The merged schema means the union of its parts: a tool call is judged by that tool's own
      schema, a final turn by the output's own schema, and everything else is rejected. */
  lemma TurnMeaning(other: Assertions, fuel: nat, t: Turn, turn: Json)
    requires Separate(t) && DistinctNames(t)
    ensures var verdict := Validate(other, fuel, Merged(t), Merged(t), turn);
            && (forall i :: 0 <= i < |t.tools| && Calls(turn, t.tools[i].name) ==>
                  verdict == Validate(other, fuel, t.tools[i].schema, t.tools[i].schema, turn.fields["arguments"]))
            && (t.allowFinal && Finishes(turn) ==>
                  verdict == OutputVerdict(other, fuel, t.output, turn.fields["output"]))
            && ((forall i :: 0 <= i < |t.tools| ==> !Calls(turn, t.tools[i].name)) && !(t.allowFinal && Finishes(turn))
                ==>
                  verdict == Reject)
  {
    hide Validate, BranchVerdicts, OutputVerdict, One;
    var vs := BranchVerdicts(other, fuel, t, turn);
    MergedIsOneOf(other, fuel, t, turn);
    forall i | 0 <= i < |vs| && Chosen(t, turn, i) ensures One(vs) == vs[i] {
      OnlyBranch(other, fuel, t, turn, i);
    }
    forall i | 0 <= i < |vs| ensures !Chosen(t, turn, i) ==> vs[i] == Reject {
      BranchVerdictAt(other, fuel, t, turn, i);
    }
    if forall i :: 0 <= i < |vs| ==> !Chosen(t, turn, i) {
      OneDecides(vs, 0);
    }
    forall i | 0 <= i < |t.tools| && Calls(turn, t.tools[i].name)
      ensures One(vs) == Validate(other, fuel, t.tools[i].schema, t.tools[i].schema, turn.fields["arguments"])
    {
      assert Chosen(t, turn, i);
      BranchVerdictAt(other, fuel, t, turn, i);
    }
    if t.allowFinal && Finishes(turn) {
      assert Chosen(t, turn, |t.tools|);
      BranchVerdictAt(other, fuel, t, turn, |t.tools|);
    }
  }

  /** The turn has the outer shape that branch `i` asks for. */
  predicate Chosen(t: Turn, turn: Json, i: nat)
  {
    if i < |t.tools| then Calls(turn, t.tools[i].name) else Finishes(turn)
  }

  lemma OnlyBranch(other: Assertions, fuel: nat, t: Turn, turn: Json, i: nat)
    requires Separate(t) && DistinctNames(t) && i < |Branches(t)| && Chosen(t, turn, i)
    ensures One(BranchVerdicts(other, fuel, t, turn)) == BranchVerdicts(other, fuel, t, turn)[i]
  {
    hide Validate, BranchVerdicts, OutputVerdict, One;
    var vs := BranchVerdicts(other, fuel, t, turn);
    forall j | 0 <= j < |vs| && j != i ensures vs[j] == Reject {
      BranchVerdictAt(other, fuel, t, turn, j);
    }
    OneDecides(vs, i);
  }

  /** Two tools of one name: a call that both would accept is rejected. */
  lemma SharedNameRejects(other: Assertions, fuel: nat, t: Turn, turn: Json, i: nat, j: nat)
    requires Separate(t) && i < j < |t.tools| && t.tools[i].name == t.tools[j].name && Calls(turn, t.tools[i].name)
    requires Validate(other, fuel, t.tools[i].schema, t.tools[i].schema, turn.fields["arguments"]) == Accept
    requires Validate(other, fuel, t.tools[j].schema, t.tools[j].schema, turn.fields["arguments"]) == Accept
    ensures Validate(other, fuel, Merged(t), Merged(t), turn) == Reject
  {
    hide Validate, BranchVerdicts, OutputVerdict;
    MergedIsOneOf(other, fuel, t, turn);
    BranchVerdictAt(other, fuel, t, turn, i);
    BranchVerdictAt(other, fuel, t, turn, j);
  }

  // ----- data that looks like a reference -----

  function ConstSchema(value: Json): Json { Obj(map["const" := value]) }

  lemma ConstSchemaMeaning(other: Assertions, fuel: nat, root: Json, value: Json, v: Json)
    ensures Validate(other, fuel, root, ConstSchema(value), v) == if v == value then Accept else Reject
  {
    hide All, Validate, Keyword;
    AssertionKeyword(other, fuel, root, ConstSchema(value), "const", v);
    ValidateIsAll(other, fuel, root, ConstSchema(value), v);
    OneKeywordDecides(Verdicts(other, fuel, root, ConstSchema(value), v), "const");
  }

  /** A tool whose arguments are one constant. */
  function ConstTool(name: string, defs: map<string, Json>, value: Json): Tool
  {
    Tool(name, Obj(map[DEFS := Obj(defs), "const" := value]))
  }

  function CallOf(name: string, arguments: Json): Json
  {
    Obj(map["kind" := Str("tool_call"), "name" := Str(name), "arguments" := arguments])
  }

  /** A turn that offers this tool only. */
  function ConstTurn(name: string, defs: map<string, Json>, value: Json): (t: Turn)
    ensures Mergeable(t) && Permits(t) && t.tools == [ConstTool(name, defs, value)] && !t.allowFinal
  {
    Turn([ConstTool(name, defs, value)], PlainText, false)
  }

  /** The turn schema accepts the renamed constant. */
  lemma ConstTurnMeaning(other: Assertions, fuel: nat, name: string, defs: map<string, Json>, value: Json, v: Json)
    ensures var m := Merged(ConstTurn(name, defs, value));
            Validate(other, fuel, m, m, CallOf(name, v)) ==
            if v == Rewrite(defs.Keys, ToolNamespace(0), value) then Accept else Reject
  {
    hide Validate, Rewrite, Merged, ConstTurn, Mergeable, NamespaceSchemaDefs, CallOf;
    var t := ConstTurn(name, defs, value);
    ConstPart(name, defs, value);
    OneToolMeaning(other, fuel, t, v);
    ConstSchemaMeaning(other, fuel, Merged(t), Rewrite(defs.Keys, ToolNamespace(0), value), v);
  }

  /** The tool's own schema accepts the constant. */
  lemma ConstToolOwn(other: Assertions, fuel: nat, name: string, defs: map<string, Json>, value: Json, v: Json)
    ensures var schema := ConstTool(name, defs, value).schema;
            Validate(other, fuel, schema, schema, v) == if v == value then Accept else Reject
  {
    hide Validate;
    var schema := ConstTool(name, defs, value).schema;
    assert schema.fields - {DEFS} == ConstSchema(value).fields;
    DefsConstrainNothing(other, fuel, schema, schema.fields, v);
    ConstSchemaMeaning(other, fuel, schema, value, v);
  }

  /** With a single tool the turn schema judges a call by the moved arguments schema. */
  lemma OneToolMeaning(other: Assertions, fuel: nat, t: Turn, v: Json)
    requires |t.tools| == 1 && !t.allowFinal && Mergeable(t)
    ensures Validate(other, fuel, Merged(t), Merged(t), CallOf(t.tools[0].name, v))
            == Validate(other, fuel, Merged(t), Part(t.tools, 0).schema, v)
  {
    hide Validate, One, RootDefs, Part, ToolBranch, Merged;
    var call := CallOf(t.tools[0].name, v);
    MergedIsOneOf(other, fuel, t, call);
    ToolBranchMeaning(other, fuel, Merged(t), t.tools[0].name, Part(t.tools, 0).schema, call);
    OneDecides(BranchVerdicts(other, fuel, t, call), 0);
  }

  lemma ConstPart(name: string, defs: map<string, Json>, value: Json)
    ensures Part([ConstTool(name, defs, value)], 0).schema == ConstSchema(Rewrite(defs.Keys, ToolNamespace(0), value))
  {
    hide Rewrite, RenamedDefinitions;
    var tool := ConstTool(name, defs, value);
    assert Definitions(tool.schema) == defs;
    assert tool.schema.fields - {DEFS} == ConstSchema(value).fields;
    RewriteShape(defs.Keys, ToolNamespace(0), ConstSchema(value));
    assert Rewrite(defs.Keys, ToolNamespace(0), ConstSchema(value)).fields
        == ConstSchema(Rewrite(defs.Keys, ToolNamespace(0), value)).fields;
  }

  /** The renaming walks into constants too: a constant keeps its meaning in the turn schema exactly
      when it mentions none of the tool's definitions. */
  lemma ConstKeptIffUnmentioned(other: Assertions, fuel: nat, name: string, defs: map<string, Json>, value: Json)
    ensures var schema, m := ConstTool(name, defs, value).schema, Merged(ConstTurn(name, defs, value));
            (forall v :: Validate(other, fuel, m, m, CallOf(name, v)) == Validate(other, fuel, schema, schema, v))
            <==> !Mentions(defs.Keys, value)
  {
    hide Validate, Rewrite, Merged, Mentions, ConstTurn, ConstTool, Mergeable, CallOf;
    var schema, m := ConstTool(name, defs, value).schema, Merged(ConstTurn(name, defs, value));
    UntouchedIffUnmentioned(defs.Keys, ToolNamespace(0), value);
    ConstTurnMeaning(other, fuel, name, defs, value, value);
    ConstToolOwn(other, fuel, name, defs, value, value);
    if !Mentions(defs.Keys, value) {
      forall v ensures Validate(other, fuel, m, m, CallOf(name, v)) == Validate(other, fuel, schema, schema, v) {
        ConstTurnMeaning(other, fuel, name, defs, value, v);
        ConstToolOwn(other, fuel, name, defs, value, v);
      }
    }
  }

  /** A constant that looks like a reference: the tool's own schema accepts arguments with which the
      turn schema rejects the call. */
  lemma ReferenceLikeConstantIsRejected(other: Assertions, fuel: nat, name: string, x: string)
    ensures var value, defs := Obj(map["$ref" := Str(Ref(x))]), map[x := Bool(true)];
            var schema, m := ConstTool(name, defs, value).schema, Merged(ConstTurn(name, defs, value));
            && Validate(other, fuel, schema, schema, value) == Accept
            && Validate(other, fuel, m, m, CallOf(name, value)) == Reject
  {
    hide Validate, Rewrite, Merged, ConstTurn, ConstTool, Mergeable, CallOf;
    var value, defs := Obj(map["$ref" := Str(Ref(x))]), map[x := Bool(true)];
    RefHasPrefix(x);
    assert "$ref" in value.fields && MentionsAt(defs.Keys, value, "$ref");
    UntouchedIffUnmentioned(defs.Keys, ToolNamespace(0), value);
    ConstTurnMeaning(other, fuel, name, defs, value, value);
    ConstToolOwn(other, fuel, name, defs, value, value);
  }
}
