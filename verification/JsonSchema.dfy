/** JSON values and the meaning of JSON Schema documents (draft 2020-12). */
module JsonSchema {
  import opened Prelude

  datatype Json =
    | Null
    | Bool(flag: bool)
    | Num(number: real)
    | Str(text: string)
    | Arr(items: seq<Json>)
    | Obj(fields: map<string, Json>)

  /** `Stuck`: a reference does not resolve, a keyword is malformed, or references recurse deeper
      than the given fuel. A definite verdict does not change when fuel is added. */
  datatype Verdict = Accept | Reject | Stuck

  function All(vs: set<Verdict>): Verdict
  {
    if Reject in vs then Reject else if Stuck in vs then Stuck else Accept
  }

  function Any(vs: set<Verdict>): Verdict
  {
    if Accept in vs then Accept else if Stuck in vs then Stuck else Reject
  }

  function Not(v: Verdict): Verdict
  {
    match v case Accept => Reject case Reject => Accept case Stuck => Stuck
  }

  /** Exactly one accepts. */
  ghost function One(vs: seq<Verdict>): Verdict
  {
    if exists i, j :: 0 <= i < j < |vs| && vs[i] == Accept && vs[j] == Accept then Reject
    else if Stuck in vs then Stuck
    else if Accept in vs then Accept
    else Reject
  }

  const DEFS := "$defs"
  const REF_PREFIX := "#/$defs/"

  /** The reference to the root definition `name`. */
  function Ref(name: string): string { REF_PREFIX + name }

  /** A name that stands for itself in a JSON Pointer of a URI fragment. */
  predicate Plain(name: string) { '/' !in name && '~' !in name && '%' !in name }

  function Definitions(root: Json): map<string, Json>
  {
    if root.Obj? && DEFS in root.fields && root.fields[DEFS].Obj? then root.fields[DEFS].fields else map[]
  }

  /** The root definition a reference of the form `#/$defs/name` designates. */
  function Resolve(root: Json, ref: string): Option<Json>
  {
    if REF_PREFIX <= ref && Plain(ref[|REF_PREFIX|..]) && ref[|REF_PREFIX|..] in Definitions(root)
    then Some(Definitions(root)[ref[|REF_PREFIX|..]]) else None
  }

  predicate HasType(name: string, v: Json)
  {
    match name
    case "null" => v.Null?
    case "boolean" => v.Bool?
    case "number" => v.Num?
    case "integer" => v.Num? && v.number.Floor as real == v.number
    case "string" => v.Str?
    case "array" => v.Arr?
    case "object" => v.Obj?
    case _ => false
  }

  /** Assertion keywords look at their own value and the instance only; those not spelled out here
      are given by `other`. */
  predicate Asserts(other: Assertions, keyword: string, value: Json, v: Json)
  {
    if keyword == "type" then
      match value
      case Str(name) => HasType(name, v)
      case Arr(names) => exists i :: 0 <= i < |names| && names[i].Str? && HasType(names[i].text, v)
      case _ => false
    else if keyword == "const" then v == value
    else if keyword == "enum" then value.Arr? && v in value.items
    else if keyword == "required" then
      v.Obj? && value.Arr? ==>
        forall i :: 0 <= i < |value.items| && value.items[i].Str? ==> value.items[i].text in v.fields
    else if keyword == "minLength" then v.Str? && value.Num? ==> |v.text| as real >= value.number
    else if keyword == "maxLength" then v.Str? && value.Num? ==> |v.text| as real <= value.number
    else other(keyword, value, v)
  }

  // ----- keywords -----

  /** How a keyword uses its value. */
  datatype Role =
    | Reference   // a string that designates a schema
    | Keyed       // an object of schemas
    | Uniform     // one schema for several instances
    | Listed      // an array of schemas
    | Negation    // a schema that must reject
    | Containment // a schema that enough elements must meet
    | Condition   // a schema that chooses between two others
    | Passive     // read by other keywords or not at all
    | Assertion   // plain data

  function RoleOf(k: string): Role
  {
    if k == "$ref" then Reference
    else if k == "properties" || k == "patternProperties" || k == "dependentSchemas" then Keyed
    else if k == "additionalProperties" || k == "propertyNames" || k == "items" then Uniform
    else if k == "prefixItems" || k == "allOf" || k == "anyOf" || k == "oneOf" then Listed
    else if k == "not" then Negation
    else if k == "contains" then Containment
    else if k == "if" then Condition
    else if k == DEFS || k == "then" || k == "else" || k == "minContains" || k == "maxContains" then Passive
    else Assertion
  }

  type Assertions = (string, Json, Json) -> bool

  /** The regular expression `pattern` matches `name`: the assertion keyword of that name. */
  predicate Matches(other: Assertions, pattern: string, name: string)
  {
    other("pattern", Str(pattern), Str(name))
  }

  function Keys(m: map<string, Json>, k: string): set<string>
  {
    if k in m && m[k].Obj? then m[k].fields.Keys else {}
  }

  /** `properties` or `patternProperties` covers the name `p`. */
  ghost predicate Covered(other: Assertions, m: map<string, Json>, p: string)
  {
    p in Keys(m, "properties") || exists q :: q in Keys(m, "patternProperties") && Matches(other, q, p)
  }

  function PrefixLength(m: map<string, Json>): nat
  {
    if "prefixItems" in m && m["prefixItems"].Arr? then |m["prefixItems"].items| else 0
  }

  /** The parts of `v` that the schema under `q` of a keyed keyword applies to. */
  function Targets(other: Assertions, k: string, q: string, v: Json): set<Json>
  {
    if !v.Obj? then {}
    else if k == "properties" then if q in v.fields then {v.fields[q]} else {}
    else if k == "dependentSchemas" then if q in v.fields then {v} else {}
    else set p | p in v.fields && Matches(other, q, p) :: v.fields[p]
  }

  /** The parts of `v` that a uniform keyword applies to, given its neighbours `m`. */
  ghost function Instances(other: Assertions, m: map<string, Json>, k: string, v: Json): set<Json>
  {
    if k == "items" then
      if v.Arr? then set i | PrefixLength(m) <= i < |v.items| :: v.items[i] else {}
    else if !v.Obj? then {}
    else if k == "propertyNames" then set p | p in v.fields :: Str(p)
    else set p | p in v.fields && !Covered(other, m, p) :: v.fields[p]
  }

  /** How many of `n` listed schemas apply, and to which instance the one at `i`. */
  function Applied(k: string, n: nat, v: Json): nat
  {
    if k != "prefixItems" then n else if v.Arr? then Min(n, |v.items|) else 0
  }

  function Instance(k: string, n: nat, v: Json, i: nat): Json
    requires i < Applied(k, n, v)
  {
    if k == "prefixItems" then v.items[i] else v
  }

  ghost function Combine(k: string, vs: seq<Verdict>): Verdict
  {
    if k == "anyOf" then Any(set i | 0 <= i < |vs| :: vs[i])
    else if k == "oneOf" then One(vs)
    else All(set i | 0 <= i < |vs| :: vs[i])
  }

  function Count(vs: seq<Verdict>, x: Verdict): nat
  {
    if vs == [] then 0 else Count(vs[..|vs| - 1], x) + if vs[|vs| - 1] == x then 1 else 0
  }

  /** `minContains` and `maxContains`. */
  function Least(m: map<string, Json>): real
  {
    if "minContains" in m && m["minContains"].Num? then m["minContains"].number else 1.0
  }

  function Most(m: map<string, Json>): Option<real>
  {
    if "maxContains" in m && m["maxContains"].Num? then Some(m["maxContains"].number) else None
  }

  /** At least `least` and at most `most` accept; what is stuck may still go either way. */
  function Enough(vs: seq<Verdict>, least: real, most: Option<real>): Verdict
  {
    var sure := Count(vs, Accept) as real;
    var possible := sure + Count(vs, Stuck) as real;
    if possible < least || (most.Some? && sure > most.value) then Reject
    else if sure >= least && (most.None? || possible <= most.value) then Accept
    else Stuck
  }

  // ----- validation -----

  /** The verdict of `schema` inside the document `root` on `v`, following references `fuel` deep. */
  ghost function Validate(other: Assertions, fuel: nat, root: Json, schema: Json, v: Json): Verdict
    decreases fuel, schema, 2
  {
    match schema
    case Bool(flag) => if flag then Accept else Reject
    case Obj(m) => All((map k | k in m :: Keyword(other, fuel, root, schema, k, v)).Values)
    case _ => Stuck
  }

  ghost function Keyword(other: Assertions, fuel: nat, root: Json, schema: Json, k: string, v: Json): Verdict
    requires schema.Obj? && k in schema.fields
    decreases fuel, schema, 1
  {
    var value := schema.fields[k];
    match RoleOf(k)
    case Reference =>
      if !value.Str? || Resolve(root, value.text).None? || fuel == 0 then Stuck
      else Validate(other, fuel - 1, root, Resolve(root, value.text).value, v)
    case Keyed => if !value.Obj? then Stuck else All(KeyedVerdicts(other, fuel, root, schema, k, v).Values)
    case Uniform => All(UniformVerdicts(other, fuel, root, schema, k, v).Values)
    case Listed => if !value.Arr? then Stuck else Combine(k, ListedVerdicts(other, fuel, root, schema, k, v))
    case Negation => Not(Validate(other, fuel, root, value, v))
    case Containment =>
      if !v.Arr? then Accept
      else Enough(ElementVerdicts(other, fuel, root, schema, k, v), Least(schema.fields), Most(schema.fields))
    case Condition =>
      (match Validate(other, fuel, root, value, v)
       case Accept => Branch(other, fuel, root, schema, "then", v)
       case Reject => Branch(other, fuel, root, schema, "else", v)
       case Stuck => Stuck)
    case Passive => Accept
    case Assertion => if Asserts(other, k, value, v) then Accept else Reject
  }

  ghost function KeyedVerdicts(other: Assertions, fuel: nat, root: Json, schema: Json, k: string, v: Json)
    : map<(string, Json), Verdict>
    requires schema.Obj? && k in schema.fields && schema.fields[k].Obj?
    decreases fuel, schema, 0
  {
    var value := schema.fields[k];
    map q, w | q in value.fields && w in Targets(other, k, q, v) ::
      (q, w) := Validate(other, fuel, root, value.fields[q], w)
  }

  ghost function UniformVerdicts(other: Assertions, fuel: nat, root: Json, schema: Json, k: string, v: Json)
    : map<Json, Verdict>
    requires schema.Obj? && k in schema.fields
    decreases fuel, schema, 0
  {
    map w | w in Instances(other, schema.fields, k, v) :: Validate(other, fuel, root, schema.fields[k], w)
  }

  ghost function ListedVerdicts(other: Assertions, fuel: nat, root: Json, schema: Json, k: string, v: Json)
    : seq<Verdict>
    requires schema.Obj? && k in schema.fields && schema.fields[k].Arr?
    decreases fuel, schema, 0
  {
    var items := schema.fields[k].items;
    seq(Applied(k, |items|, v), i requires 0 <= i < Applied(k, |items|, v) =>
      Validate(other, fuel, root, items[i], Instance(k, |items|, v, i)))
  }

  ghost function ElementVerdicts(other: Assertions, fuel: nat, root: Json, schema: Json, k: string, v: Json)
    : seq<Verdict>
    requires schema.Obj? && k in schema.fields && v.Arr?
    decreases fuel, schema, 0
  {
    seq(|v.items|, i requires 0 <= i < |v.items| => Validate(other, fuel, root, schema.fields[k], v.items[i]))
  }

  ghost function Branch(other: Assertions, fuel: nat, root: Json, schema: Json, k: string, v: Json): Verdict
    requires schema.Obj?
    decreases fuel, schema, 0
  {
    if k in schema.fields then Validate(other, fuel, root, schema.fields[k], v) else Accept
  }

  // ----- facts about the meaning -----

  /** The verdicts of the keywords of an object schema. */
  ghost function Verdicts(other: Assertions, fuel: nat, root: Json, schema: Json, v: Json): (vs: map<string, Verdict>)
    requires schema.Obj?
    ensures vs.Keys == schema.fields.Keys
  {
    map k | k in schema.fields :: Keyword(other, fuel, root, schema, k, v)
  }

  lemma ValidateIsAll(other: Assertions, fuel: nat, root: Json, schema: Json, v: Json)
    requires schema.Obj?
    ensures Validate(other, fuel, root, schema, v) == All(Verdicts(other, fuel, root, schema, v).Values)
  {
    hide Keyword;
  }

  lemma AssertionKeyword(other: Assertions, fuel: nat, root: Json, schema: Json, k: string, v: Json)
    requires schema.Obj? && k in schema.fields && RoleOf(k) == Assertion
    ensures Keyword(other, fuel, root, schema, k, v) ==
            if Asserts(other, k, schema.fields[k], v) then Accept else Reject
  {
    hide RoleOf, Validate, Asserts;
  }

  lemma ReferenceKeyword(other: Assertions, fuel: nat, root: Json, schema: Json, k: string, v: Json)
    requires schema.Obj? && k in schema.fields && RoleOf(k) == Reference
    ensures var value := schema.fields[k];
            && k == "$ref"
            && Keyword(other, fuel, root, schema, k, v) ==
               if !value.Str? || Resolve(root, value.text).None? || fuel == 0 then Stuck
               else Validate(other, fuel - 1, root, Resolve(root, value.text).value, v)
  {
    assert k == "$ref";
    hide RoleOf, Validate, Resolve;
  }

  /** One rejecting keyword rejects; if all but one accept, that one decides. */
  lemma OneKeywordDecides<K>(vs: map<K, Verdict>, k: K)
    requires k in vs
    ensures vs[k] == Reject ==> All(vs.Values) == Reject
    ensures (forall j :: j in vs && j != k ==> vs[j] == Accept) ==> All(vs.Values) == vs[k]
  {
    assert vs[k] in vs.Values;
  }

  lemma AcceptingKeyAddsNothing<K>(vs: map<K, Verdict>, k: K)
    requires k in vs && vs[k] == Accept
    ensures All(vs.Values) == All((vs - {k}).Values)
  {
    var vs' := vs - {k};
    assert forall j :: j in vs' ==> vs'[j] == vs[j];
    forall x | x in vs.Values && x != Accept ensures x in vs'.Values {
      var j :| j in vs && vs[j] == x;
      assert vs'[j] == x;
    }
  }

  /** What the keywords of `m` read of their neighbours. */
  ghost predicate SameNeighbours(other: Assertions, m: map<string, Json>, m': map<string, Json>)
  {
    && (forall p :: Covered(other, m', p) <==> Covered(other, m, p))
    && PrefixLength(m') == PrefixLength(m) && Least(m') == Least(m) && Most(m') == Most(m)
  }

  lemma SameInstances(other: Assertions, m: map<string, Json>, m': map<string, Json>, k: string, v: Json)
    requires SameNeighbours(other, m, m')
    ensures Instances(other, m', k, v) == Instances(other, m, k, v)
  {
    hide Covered, PrefixLength;
  }

  /** `$defs` constrains nothing. */
  lemma DefsConstrainNothing(other: Assertions, fuel: nat, root: Json, m: map<string, Json>, v: Json)
    ensures Validate(other, fuel, root, Obj(m), v) == Validate(other, fuel, root, Obj(m - {DEFS}), v)
  {
    if DEFS in m {
      hide Keyword, Validate, All;
      var a, b := Verdicts(other, fuel, root, Obj(m), v), Verdicts(other, fuel, root, Obj(m - {DEFS}), v);
      ValidateIsAll(other, fuel, root, Obj(m), v);
      ValidateIsAll(other, fuel, root, Obj(m - {DEFS}), v);
      DefsKeyword(other, fuel, root, m, v);
      AcceptingKeyAddsNothing(a, DEFS);
      forall k | k in b ensures b[k] == a[k] {
        KeywordIgnoresDefs(other, fuel, root, m, k, v);
      }
      assert b == a - {DEFS};
    } else {
      assert m - {DEFS} == m;
    }
  }

  lemma NeighboursWithoutDefs(other: Assertions, m: map<string, Json>)
    ensures SameNeighbours(other, m, m - {DEFS})
    ensures SameAt(m, m - {DEFS}, "then") && SameAt(m, m - {DEFS}, "else")
  {
    var m' := m - {DEFS};
    assert Keys(m', "properties") == Keys(m, "properties");
    assert Keys(m', "patternProperties") == Keys(m, "patternProperties");
  }

  lemma KeywordIgnoresDefs(other: Assertions, fuel: nat, root: Json, m: map<string, Json>, k: string, v: Json)
    requires k in m - {DEFS}
    ensures Keyword(other, fuel, root, Obj(m - {DEFS}), k, v) == Keyword(other, fuel, root, Obj(m), k, v)
  {
    hide Keyword;
    NeighboursWithoutDefs(other, m);
    KeywordOfAlike(other, fuel, root, m, m - {DEFS}, k, v);
  }

  predicate SameAt(m: map<string, Json>, m': map<string, Json>, k: string)
  {
    (k in m' <==> k in m) && (k in m ==> m'[k] == m[k])
  }

  /** A keyword depends on its own value and on what it reads of its neighbours. */
  lemma KeywordOfAlike(other: Assertions, fuel: nat, root: Json, m: map<string, Json>, m': map<string, Json>, k: string,
                       v: Json)
    requires k in m && SameAt(m, m', k) && SameAt(m, m', "then") && SameAt(m, m', "else")
    requires SameNeighbours(other, m, m')
    ensures Keyword(other, fuel, root, Obj(m'), k, v) == Keyword(other, fuel, root, Obj(m), k, v)
  {
    hide Keyword, RoleOf, SameNeighbours;
    if RoleOf(k).Keyed? || RoleOf(k).Uniform? || RoleOf(k).Listed? {
      TableOfAlike(other, fuel, root, m, m', k, v);
    } else {
      OtherOfAlike(other, fuel, root, m, m', k, v);
    }
  }

  lemma TableOfAlike(other: Assertions, fuel: nat, root: Json, m: map<string, Json>, m': map<string, Json>, k: string,
                     v: Json)
    requires k in m && SameAt(m, m', k) && SameAt(m, m', "then") && SameAt(m, m', "else")
    requires SameNeighbours(other, m, m')
    requires RoleOf(k).Keyed? || RoleOf(k).Uniform? || RoleOf(k).Listed?
    ensures Keyword(other, fuel, root, Obj(m'), k, v) == Keyword(other, fuel, root, Obj(m), k, v)
  {
    hide Validate, Resolve, Asserts, RoleOf, Combine, All, Enough, Least, Most, PrefixLength, Covered;
    hide KeyedVerdicts, UniformVerdicts, ListedVerdicts, ElementVerdicts, Branch;
    match RoleOf(k)
    case Keyed =>
      if m[k].Obj? {
        KeyedOfAlike(other, fuel, root, m, m', k, v);
      }
    case Uniform => UniformOfAlike(other, fuel, root, m, m', k, v);
    case Listed =>
      if m[k].Arr? {
        ListedOfAlike(other, fuel, root, m, m', k, v);
      }
  }

  lemma OtherOfAlike(other: Assertions, fuel: nat, root: Json, m: map<string, Json>, m': map<string, Json>, k: string,
                     v: Json)
    requires k in m && SameAt(m, m', k) && SameAt(m, m', "then") && SameAt(m, m', "else")
    requires SameNeighbours(other, m, m')
    requires !RoleOf(k).Keyed? && !RoleOf(k).Uniform? && !RoleOf(k).Listed?
    ensures Keyword(other, fuel, root, Obj(m'), k, v) == Keyword(other, fuel, root, Obj(m), k, v)
  {
    hide Validate, Resolve, Asserts, RoleOf, Combine, All, Enough, Least, Most, PrefixLength, Covered;
    hide KeyedVerdicts, UniformVerdicts, ListedVerdicts, ElementVerdicts, Branch;
    if RoleOf(k).Containment? && v.Arr? {
      ElementsOfAlike(other, fuel, root, m, m', k, v);
    }
    BranchOfAlike(other, fuel, root, m, m', "then", v);
    BranchOfAlike(other, fuel, root, m, m', "else", v);
  }

  lemma BranchOfAlike(other: Assertions, fuel: nat, root: Json, m: map<string, Json>, m': map<string, Json>, k: string,
                      v: Json)
    requires SameAt(m, m', k)
    ensures Branch(other, fuel, root, Obj(m'), k, v) == Branch(other, fuel, root, Obj(m), k, v)
  {
    hide Validate;
  }

  lemma KeyedOfAlike(other: Assertions, fuel: nat, root: Json, m: map<string, Json>, m': map<string, Json>, k: string,
                     v: Json)
    requires k in m && SameAt(m, m', k) && m[k].Obj?
    ensures KeyedVerdicts(other, fuel, root, Obj(m'), k, v) == KeyedVerdicts(other, fuel, root, Obj(m), k, v)
  {
    hide Validate, Targets;
  }

  lemma UniformOfAlike(other: Assertions, fuel: nat, root: Json, m: map<string, Json>, m': map<string, Json>, k: string,
                       v: Json)
    requires k in m && SameAt(m, m', k) && SameNeighbours(other, m, m')
    ensures UniformVerdicts(other, fuel, root, Obj(m'), k, v) == UniformVerdicts(other, fuel, root, Obj(m), k, v)
  {
    SameInstances(other, m, m', k, v);
    hide Validate, Instances, SameNeighbours;
  }

  lemma ListedOfAlike(other: Assertions, fuel: nat, root: Json, m: map<string, Json>, m': map<string, Json>, k: string,
                      v: Json)
    requires k in m && SameAt(m, m', k) && m[k].Arr?
    ensures ListedVerdicts(other, fuel, root, Obj(m'), k, v) == ListedVerdicts(other, fuel, root, Obj(m), k, v)
  {
    hide Validate, Applied, Instance;
  }

  lemma ElementsOfAlike(other: Assertions, fuel: nat, root: Json, m: map<string, Json>, m': map<string, Json>,
                        k: string, v: Json)
    requires k in m && SameAt(m, m', k) && v.Arr?
    ensures ElementVerdicts(other, fuel, root, Obj(m'), k, v) == ElementVerdicts(other, fuel, root, Obj(m), k, v)
  {
    hide Validate;
  }

  lemma DefsKeyword(other: Assertions, fuel: nat, root: Json, m: map<string, Json>, v: Json)
    requires DEFS in m
    ensures Keyword(other, fuel, root, Obj(m), DEFS, v) == Accept
  {
    hide Validate;
    assert RoleOf(DEFS) == Passive;
  }

  /** The object schema with exactly the given properties, all required. */
  function Record(props: map<string, Json>, required: seq<Json>): Json
  {
    Obj(map["type" := Str("object"), "properties" := Obj(props), "required" := Arr(required),
            "additionalProperties" := Bool(false)])
  }

  predicate Lists(required: seq<Json>, names: set<string>)
  {
    && (forall i :: 0 <= i < |required| ==> required[i].Str? && required[i].text in names)
    && (forall n :: n in names ==> Str(n) in required)
  }

  /** A closed record accepts objects with exactly its properties, each accepted by its schema. */
  lemma RecordMeaning(other: Assertions, fuel: nat, root: Json, props: map<string, Json>, required: seq<Json>, v: Json)
    requires Lists(required, props.Keys)
    ensures Validate(other, fuel, root, Record(props, required), v) ==
            if v.Obj? && v.fields.Keys == props.Keys then All(PropertyVerdicts(other, fuel, root, props, v).Values)
            else Reject
  {
    hide Keyword, PropertyVerdicts, Validate, All;
    var vs := Verdicts(other, fuel, root, Record(props, required), v);
    ValidateIsAll(other, fuel, root, Record(props, required), v);
    TypeKeyword(other, fuel, root, props, required, v);
    if !v.Obj? {
      OneKeywordDecides(vs, "type");
    } else {
      PropertiesKeyword(other, fuel, root, props, required, v);
      RequiredKeyword(other, fuel, root, props, required, v);
      AdditionalKeyword(other, fuel, root, props, required, v);
      if !(props.Keys <= v.fields.Keys) {
        OneKeywordDecides(vs, "required");
      } else if !(v.fields.Keys <= props.Keys) {
        OneKeywordDecides(vs, "additionalProperties");
      } else {
        assert forall k :: k in vs && k != "properties" ==>
                 k == "type" || k == "required" || k == "additionalProperties";
        OneKeywordDecides(vs, "properties");
      }
    }
  }

  ghost function PropertyVerdicts(other: Assertions, fuel: nat, root: Json, props: map<string, Json>, v: Json)
    : (vs: map<string, Verdict>)
    requires v.Obj?
    ensures vs.Keys == props.Keys * v.fields.Keys
  {
    map p | p in props && p in v.fields :: Validate(other, fuel, root, props[p], v.fields[p])
  }

  lemma TypeKeyword(other: Assertions, fuel: nat, root: Json, props: map<string, Json>, required: seq<Json>, v: Json)
    ensures Keyword(other, fuel, root, Record(props, required), "type", v) == if v.Obj? then Accept else Reject
  {
    hide Keyword;
    AssertionKeyword(other, fuel, root, Record(props, required), "type", v);
  }

  lemma PropertiesKeyword(other: Assertions, fuel: nat, root: Json, props: map<string, Json>, required: seq<Json>,
                          v: Json)
    requires v.Obj?
    ensures Keyword(other, fuel, root, Record(props, required), "properties", v)
            == All(PropertyVerdicts(other, fuel, root, props, v).Values)
  {
    assert RoleOf("properties") == Keyed;
    hide Validate, RoleOf;
    var r := Record(props, required);
    var a, b := KeyedVerdicts(other, fuel, root, r, "properties", v), PropertyVerdicts(other, fuel, root, props, v);
    forall q, w | (q, w) in a ensures q in b && b[q] == a[(q, w)] {
    }
    forall q | q in b ensures (q, v.fields[q]) in a && a[(q, v.fields[q])] == b[q] {
      assert v.fields[q] in Targets(other, "properties", q, v);
    }
    SameValues(a, b, v.fields);
  }

  /** Two tables with the same verdicts, one of them keyed by name and instance. */
  lemma SameValues<K, L>(a: map<(K, L), Verdict>, b: map<K, Verdict>, fields: map<K, L>)
    requires forall q, w :: (q, w) in a ==> q in b && b[q] == a[(q, w)]
    requires forall q :: q in b ==> q in fields && (q, fields[q]) in a && a[(q, fields[q])] == b[q]
    ensures a.Values == b.Values
  {
    forall x | x in a.Values ensures x in b.Values {
      var key :| key in a && a[key] == x;
      assert (key.0, key.1) == key;
      assert b[key.0] == x;
    }
    forall x | x in b.Values ensures x in a.Values {
      var q :| q in b && b[q] == x;
      assert a[(q, fields[q])] == x;
    }
  }

  lemma RequiredKeyword(other: Assertions, fuel: nat, root: Json, props: map<string, Json>, required: seq<Json>,
                        v: Json)
    requires Lists(required, props.Keys) && v.Obj?
    ensures Keyword(other, fuel, root, Record(props, required), "required", v) ==
            if props.Keys <= v.fields.Keys then Accept else Reject
  {
    hide Keyword;
    AssertionKeyword(other, fuel, root, Record(props, required), "required", v);
    if n :| n in props.Keys && n !in v.fields {
      assert Str(n) in required;
      var i :| 0 <= i < |required| && required[i] == Str(n);
    }
  }

  lemma AdditionalKeyword(other: Assertions, fuel: nat, root: Json, props: map<string, Json>, required: seq<Json>,
                          v: Json)
    requires v.Obj?
    ensures Keyword(other, fuel, root, Record(props, required), "additionalProperties", v) ==
            if v.fields.Keys <= props.Keys then Accept else Reject
  {
    var r := Record(props, required);
    assert RoleOf("additionalProperties") == Uniform;
    assert Keys(r.fields, "properties") == props.Keys && Keys(r.fields, "patternProperties") == {};
    hide RoleOf;
    var vs := UniformVerdicts(other, fuel, root, r, "additionalProperties", v);
    if p :| p in v.fields.Keys && p !in props.Keys {
      var w := v.fields[p];
      assert w in Instances(other, r.fields, "additionalProperties", v);
      assert Validate(other, fuel, root, Bool(false), w) == Reject && r.fields["additionalProperties"] == Bool(false);
      assert w in vs && vs[w] == Reject;
      OneKeywordDecides(vs, w);
    } else {
      assert Instances(other, r.fields, "additionalProperties", v) == {};
      assert vs.Values == {};
    }
  }

  /** A string constant. */
  function Constant(text: string): Json { Obj(map["type" := Str("string"), "const" := Str(text)]) }

  lemma ConstantMeaning(other: Assertions, fuel: nat, root: Json, text: string, v: Json)
    ensures Validate(other, fuel, root, Constant(text), v) == if v == Str(text) then Accept else Reject
  {
    hide Keyword, Validate, All;
    var vs := Verdicts(other, fuel, root, Constant(text), v);
    ValidateIsAll(other, fuel, root, Constant(text), v);
    ConstantKeywords(other, fuel, root, text, v);
    OneKeywordDecides(vs, "const");
  }

  lemma ConstantKeywords(other: Assertions, fuel: nat, root: Json, text: string, v: Json)
    ensures Keyword(other, fuel, root, Constant(text), "type", v) == if v.Str? then Accept else Reject
    ensures Keyword(other, fuel, root, Constant(text), "const", v) == if v == Str(text) then Accept else Reject
  {
    hide Keyword;
    AssertionKeyword(other, fuel, root, Constant(text), "type", v);
    AssertionKeyword(other, fuel, root, Constant(text), "const", v);
  }

  // ----- definite verdicts are stable -----

  /** More fuel only decides what was stuck. */
  predicate Refines(a: Verdict, b: Verdict) { a == Stuck || a == b }

  lemma {:induction false} MoreFuel(other: Assertions, fuel: nat, root: Json, schema: Json, v: Json)
    ensures Refines(Validate(other, fuel, root, schema, v), Validate(other, fuel + 1, root, schema, v))
    decreases fuel, schema, 2
  {
    if !schema.Obj? {
    } else {
      hide Keyword, Validate, All;
      var vs, vs' := Verdicts(other, fuel, root, schema, v), Verdicts(other, fuel + 1, root, schema, v);
      ValidateIsAll(other, fuel, root, schema, v);
      ValidateIsAll(other, fuel + 1, root, schema, v);
      forall k | k in vs ensures Refines(vs[k], vs'[k]) {
        MoreFuelKeyword(other, fuel, root, schema, k, v);
      }
      ValuesRefine(vs, vs');
    }
  }

  lemma ValuesRefine<K>(vs: map<K, Verdict>, vs': map<K, Verdict>)
    requires vs.Keys == vs'.Keys && forall k :: k in vs ==> Refines(vs[k], vs'[k])
    ensures Refines(All(vs.Values), All(vs'.Values))
  {
  }

  lemma {:induction false} MoreFuelKeyword(other: Assertions, fuel: nat, root: Json, schema: Json, k: string, v: Json)
    requires schema.Obj? && k in schema.fields
    ensures Refines(Keyword(other, fuel, root, schema, k, v), Keyword(other, fuel + 1, root, schema, k, v))
    decreases fuel, schema, 1
  {
    hide Validate, Resolve, RoleOf, KeyedVerdicts, UniformVerdicts, ListedVerdicts, ElementVerdicts, Branch;
    hide All, Combine, Enough, Least, Most, Asserts;
    var value := schema.fields[k];
    match RoleOf(k)
    case Reference =>
      if value.Str? && Resolve(root, value.text).Some? && fuel > 0 {
        MoreFuel(other, fuel - 1, root, Resolve(root, value.text).value, v);
      }
    case Keyed =>
      if value.Obj? {
        MoreFuelKeyed(other, fuel, root, schema, k, v);
      }
    case Uniform => MoreFuelUniform(other, fuel, root, schema, k, v);
    case Listed =>
      if value.Arr? {
        MoreFuelListed(other, fuel, root, schema, k, v);
      }
    case Negation => MoreFuel(other, fuel, root, value, v);
    case Containment =>
      if v.Arr? {
        MoreFuelElements(other, fuel, root, schema, k, v);
      }
    case Condition =>
      MoreFuel(other, fuel, root, value, v);
      MoreFuelBranch(other, fuel, root, schema, "then", v);
      MoreFuelBranch(other, fuel, root, schema, "else", v);
    case Passive =>
    case Assertion =>
  }

  lemma {:induction false} MoreFuelKeyed(other: Assertions, fuel: nat, root: Json, schema: Json, k: string, v: Json)
    requires schema.Obj? && k in schema.fields && schema.fields[k].Obj?
    ensures Refines(All(KeyedVerdicts(other, fuel, root, schema, k, v).Values),
                    All(KeyedVerdicts(other, fuel + 1, root, schema, k, v).Values))
    decreases fuel, schema, 0
  {
    hide Validate, All, Targets;
    var vs, vs' := KeyedVerdicts(other, fuel, root, schema, k, v), KeyedVerdicts(other, fuel + 1, root, schema, k, v);
    forall key | key in vs ensures key in vs' && Refines(vs[key], vs'[key]) {
      assert (key.0, key.1) == key;
      MoreFuel(other, fuel, root, schema.fields[k].fields[key.0], key.1);
    }
    assert vs.Keys == vs'.Keys;
    ValuesRefine(vs, vs');
  }

  lemma {:induction false} MoreFuelUniform(other: Assertions, fuel: nat, root: Json, schema: Json, k: string, v: Json)
    requires schema.Obj? && k in schema.fields
    ensures Refines(All(UniformVerdicts(other, fuel, root, schema, k, v).Values),
                    All(UniformVerdicts(other, fuel + 1, root, schema, k, v).Values))
    decreases fuel, schema, 0
  {
    hide Validate, All, Instances;
    var vs := UniformVerdicts(other, fuel, root, schema, k, v);
    var vs' := UniformVerdicts(other, fuel + 1, root, schema, k, v);
    forall w | w in vs ensures Refines(vs[w], vs'[w]) {
      MoreFuel(other, fuel, root, schema.fields[k], w);
    }
    ValuesRefine(vs, vs');
  }

  lemma {:induction false} MoreFuelListed(other: Assertions, fuel: nat, root: Json, schema: Json, k: string, v: Json)
    requires schema.Obj? && k in schema.fields && schema.fields[k].Arr?
    ensures Refines(Combine(k, ListedVerdicts(other, fuel, root, schema, k, v)),
                    Combine(k, ListedVerdicts(other, fuel + 1, root, schema, k, v)))
    decreases fuel, schema, 0
  {
    hide Validate, Applied, Instance;
    var vs, vs' := ListedVerdicts(other, fuel, root, schema, k, v), ListedVerdicts(other, fuel + 1, root, schema, k, v);
    var items := schema.fields[k].items;
    forall i | 0 <= i < |vs| ensures Refines(vs[i], vs'[i]) {
      ListedInBounds(k, |items|, v);
      MoreFuel(other, fuel, root, items[i], Instance(k, |items|, v, i));
    }
    BranchesRefine(vs, vs');
  }

  lemma ListedInBounds(k: string, n: nat, v: Json)
    ensures Applied(k, n, v) <= n
  {
  }

  lemma {:induction false} MoreFuelElements(other: Assertions, fuel: nat, root: Json, schema: Json, k: string, v: Json)
    requires schema.Obj? && k in schema.fields && v.Arr?
    ensures var least, most := Least(schema.fields), Most(schema.fields);
            Refines(Enough(ElementVerdicts(other, fuel, root, schema, k, v), least, most),
                    Enough(ElementVerdicts(other, fuel + 1, root, schema, k, v), least, most))
    decreases fuel, schema, 0
  {
    hide Validate, Least, Most;
    var vs := ElementVerdicts(other, fuel, root, schema, k, v);
    var vs' := ElementVerdicts(other, fuel + 1, root, schema, k, v);
    forall i | 0 <= i < |vs| ensures Refines(vs[i], vs'[i]) {
      MoreFuel(other, fuel, root, schema.fields[k], v.items[i]);
    }
    CountsRefine(vs, vs');
  }

  lemma {:induction false} MoreFuelBranch(other: Assertions, fuel: nat, root: Json, schema: Json, k: string, v: Json)
    requires schema.Obj?
    ensures Refines(Branch(other, fuel, root, schema, k, v), Branch(other, fuel + 1, root, schema, k, v))
    decreases fuel, schema, 0
  {
    hide Validate;
    if k !in schema.fields {
    } else {
      MoreFuel(other, fuel, root, schema.fields[k], v);
    }
  }

  /** What accepts keeps accepting, and what may accept becomes no more. */
  lemma {:induction false} CountsRefine(vs: seq<Verdict>, vs': seq<Verdict>)
    requires |vs| == |vs'| && forall i :: 0 <= i < |vs| ==> Refines(vs[i], vs'[i])
    ensures Count(vs, Accept) <= Count(vs', Accept)
    ensures Count(vs', Accept) + Count(vs', Stuck) <= Count(vs, Accept) + Count(vs, Stuck)
  {
    if vs == [] {
    } else {
      CountsRefine(vs[..|vs| - 1], vs'[..|vs'| - 1]);
    }
  }

  lemma BranchesRefine(vs: seq<Verdict>, vs': seq<Verdict>)
    requires |vs| == |vs'| && forall i :: 0 <= i < |vs| ==> Refines(vs[i], vs'[i])
    ensures Refines(All(set i | 0 <= i < |vs| :: vs[i]), All(set i | 0 <= i < |vs'| :: vs'[i]))
    ensures Refines(Any(set i | 0 <= i < |vs| :: vs[i]), Any(set i | 0 <= i < |vs'| :: vs'[i]))
    ensures Refines(One(vs), One(vs'))
  {
    if One(vs) != Stuck {
      if i, j :| 0 <= i < j < |vs| && vs[i] == Accept && vs[j] == Accept {
        assert vs'[i] == Accept && vs'[j] == Accept;
      } else {
        assert vs == vs';
      }
    }
  }
}
