/** Renaming the definitions of a schema, and why that keeps its meaning. */
module SchemaRename {
  import opened Prelude
  import opened JsonSchema

  // ----- renaming definitions -----

  function Name(namespace: string, name: string): string { namespace + "__" + name }

  /** `refs.get(ref, ref)` for the references to the definitions `names`. */
  function Renamed(names: set<string>, namespace: string, ref: string): string
  {
    if REF_PREFIX <= ref && ref[|REF_PREFIX|..] in names then Ref(Name(namespace, ref[|REF_PREFIX|..])) else ref
  }

  /** The nested function `rewrite` of `_namespace_schema_defs`. */
  function Rewrite(names: set<string>, namespace: string, j: Json): (r: Json)
  {
    match j
    case Obj(m) =>
      Obj(map k | k in m ::
        if k == "$ref" && m[k].Str? then Str(Renamed(names, namespace, m[k].text)) else Rewrite(names, namespace, m[k]))
    case Arr(items) =>
      Arr(seq(|items|, i requires 0 <= i < |items| => Rewrite(names, namespace, items[i])))
    case _ => j
  }

  predicate Designates(names: set<string>, ref: string)
  {
    REF_PREFIX <= ref && ref[|REF_PREFIX|..] in names
  }

  /** Somewhere inside `j` an object has a `$ref` text that designates one of `names`. */
  predicate Mentions(names: set<string>, j: Json)
    decreases j, 1
  {
    match j
    case Obj(m) => exists k :: k in m && MentionsAt(names, j, k)
    case Arr(items) => exists i :: 0 <= i < |items| && Mentions(names, items[i])
    case _ => false
  }

  predicate MentionsAt(names: set<string>, j: Json, k: string)
    requires j.Obj? && k in j.fields
    decreases j, 0
  {
    if k == "$ref" && j.fields[k].Str? then Designates(names, j.fields[k].text) else Mentions(names, j.fields[k])
  }

  /** A schema whose references all have the form `#/$defs/name` for a name of `names`, and whose
      data mentions none of them. */
  ghost predicate Scoped(names: set<string>, schema: Json)
    decreases schema, 1
  {
    schema.Obj? ==> forall k :: k in schema.fields ==> ScopedKeyword(names, schema, k)
  }

  ghost predicate ScopedKeyword(names: set<string>, schema: Json, k: string)
    requires schema.Obj? && k in schema.fields
    decreases schema, 0
  {
    var value := schema.fields[k];
    match RoleOf(k)
    case Reference => value.Str? ==> exists name :: name in names && Plain(name) && value.text == Ref(name)
    case Keyed => value.Obj? ==> forall q :: q in value.fields ==> Scoped(names, value.fields[q])
    case Listed => value.Arr? ==> forall i :: 0 <= i < |value.items| ==> Scoped(names, value.items[i])
    case Condition =>
      && Scoped(names, value)
      && ("then" in schema.fields ==> Scoped(names, schema.fields["then"]))
      && ("else" in schema.fields ==> Scoped(names, schema.fields["else"]))
    case Passive => true
    case Assertion => !Mentions(names, value)
    case _ => Scoped(names, value)
  }

  /** `merged` holds the renamed definitions `defs`. */
  ghost predicate Holds(merged: Json, namespace: string, defs: map<string, Json>)
  {
    forall name :: name in defs ==>
      Name(namespace, name) in Definitions(merged) &&
      Definitions(merged)[Name(namespace, name)] == Rewrite(defs.Keys, namespace, defs[name])
  }

  lemma RefHasPrefix(name: string)
    ensures REF_PREFIX <= Ref(name) && Ref(name)[|REF_PREFIX|..] == name
  {
  }

  lemma PlainName(namespace: string, name: string)
    requires Plain(namespace) && Plain(name)
    ensures Plain(Name(namespace, name))
  {
  }

  /** A renamed reference designates the renamed definition. */
  lemma RefPreserved(root: Json, merged: Json, namespace: string, name: string)
    requires Plain(namespace) && Plain(name) && name in Definitions(root) && Holds(merged, namespace, Definitions(root))
    ensures var names := Definitions(root).Keys;
            && Resolve(root, Ref(name)) == Some(Definitions(root)[name])
            && Resolve(merged, Renamed(names, namespace, Ref(name)))
               == Some(Rewrite(names, namespace, Definitions(root)[name]))
  {
    RefHasPrefix(name);
    RefHasPrefix(Name(namespace, name));
    PlainName(namespace, name);
  }

  lemma RewriteShape(names: set<string>, namespace: string, j: Json)
    ensures Rewrite(names, namespace, j).Obj? == j.Obj? && Rewrite(names, namespace, j).Arr? == j.Arr?
    ensures !j.Obj? && !j.Arr? ==> Rewrite(names, namespace, j) == j
    ensures j.Obj? ==> Rewrite(names, namespace, j).fields.Keys == j.fields.Keys
    ensures j.Obj? ==> forall k :: k in j.fields ==>
              Rewrite(names, namespace, j).fields[k] ==
              if k == "$ref" && j.fields[k].Str? then Str(Renamed(names, namespace, j.fields[k].text))
              else Rewrite(names, namespace, j.fields[k])
    ensures j.Arr? ==> |Rewrite(names, namespace, j).items| == |j.items|
    ensures j.Arr? ==> forall i :: 0 <= i < |j.items| ==>
              Rewrite(names, namespace, j).items[i] == Rewrite(names, namespace, j.items[i])
  {
  }

  /** Renaming leaves a value alone exactly when it mentions no renamed definition. */
  lemma {:induction false} UntouchedIffUnmentioned(names: set<string>, namespace: string, j: Json)
    ensures Rewrite(names, namespace, j) == j <==> !Mentions(names, j)
  {
    hide Rewrite, Designates;
    RewriteShape(names, namespace, j);
    var r := Rewrite(names, namespace, j);
    match j
    case Obj(m) =>
      forall k | k in m ensures r.fields[k] == m[k] <==> !MentionsAt(names, j, k) {
        if k == "$ref" && m[k].Str? {
          RenamedIffDesignated(names, namespace, m[k].text);
        } else {
          UntouchedIffUnmentioned(names, namespace, m[k]);
        }
      }
      assert r.fields == m <==> forall k :: k in m ==> r.fields[k] == m[k];
    case Arr(items) =>
      forall i | 0 <= i < |items| ensures r.items[i] == items[i] <==> !Mentions(names, items[i]) {
        UntouchedIffUnmentioned(names, namespace, items[i]);
      }
      assert r.items == items <==> forall i :: 0 <= i < |items| ==> r.items[i] == items[i];
    case _ =>
  }

  lemma RenamedIffDesignated(names: set<string>, namespace: string, ref: string)
    ensures Renamed(names, namespace, ref) == ref <==> !Designates(names, ref)
  {
    if Designates(names, ref) {
      assert |Renamed(names, namespace, ref)| > |ref|;
    }
  }

  /** A schema document and the document into which it is merged under a namespace. */
  datatype Merge = Merge(other: Assertions, root: Json, merged: Json, namespace: string) {

    ghost function Names(): set<string> { Definitions(root).Keys }

    ghost predicate Good()
    {
      && Plain(namespace) && Holds(merged, namespace, Definitions(root))
      && forall d :: d in Definitions(root) ==> Scoped(Names(), Definitions(root)[d])
    }

    ghost predicate InScope(schema: Json) { Good() && Scoped(Names(), schema) }

    ghost function Image(schema: Json): Json { Rewrite(Names(), namespace, schema) }

    ghost predicate Same(fuel: nat, schema: Json, schema': Json, v: Json)
    {
      Validate(other, fuel, merged, schema', v) == Validate(other, fuel, root, schema, v)
    }

    ghost predicate SameKeyword(fuel: nat, schema: Json, schema': Json, k: string, v: Json)
      requires schema.Obj? && schema'.Obj? && k in schema.fields && k in schema'.fields
    {
      Keyword(other, fuel, merged, schema', k, v) == Keyword(other, fuel, root, schema, k, v)
    }

    /** Renaming preserves every verdict, at every recursion depth, recursive definitions included. */
    lemma {:induction false} Preserves(fuel: nat, schema: Json, v: Json)
      requires InScope(schema)
      ensures Same(fuel, schema, Image(schema), v)
      decreases fuel, schema, 3
    {
      if !schema.Obj? {
      } else {
        hide Keyword, Scoped, Good, Rewrite, Names, Validate, All;
        RewriteShape(Names(), namespace, schema);
        var vs, vs' := Verdicts(other, fuel, root, schema, v), Verdicts(other, fuel, merged, Image(schema), v);
        ValidateIsAll(other, fuel, root, schema, v);
        ValidateIsAll(other, fuel, merged, Image(schema), v);
        forall k | k in vs ensures vs'[k] == vs[k] {
          KeywordPreserved(fuel, schema, k, v);
        }
        assert vs' == vs;
      }
    }

    /** A part of a schema, and what has become of it. */
    ghost predicate Parts(part: Json, part': Json)
    {
      (part.Str? && part'.Str?) || (InScope(part) && part' == Image(part))
    }

    lemma {:induction false} PartPreserved(fuel: nat, part: Json, part': Json, v: Json)
      requires Parts(part, part')
      ensures Same(fuel, part, part', v)
      decreases fuel, part, 4
    {
      if part.Str? && part'.Str? {
        NotASchema(fuel, part, part', v);
      } else {
        Preserves(fuel, part, v);
      }
    }

    lemma NotASchema(fuel: nat, s: Json, s': Json, v: Json)
      requires s.Str? && s'.Str?
      ensures Same(fuel, s, s', v)
    {
    }

    lemma {:induction false} KeywordPreserved(fuel: nat, schema: Json, k: string, v: Json)
      requires InScope(schema) && schema.Obj? && k in schema.fields
      ensures Image(schema).Obj? && k in Image(schema).fields && SameKeyword(fuel, schema, Image(schema), k, v)
      decreases fuel, schema, 2
    {
      hide Scoped, Good, Rewrite, Names, RoleOf, Keyword;
      RewriteShape(Names(), namespace, schema);
      if RoleOf(k).Reference? {
        ReferencePreserved(fuel, schema, k, v);
      } else if RoleOf(k).Keyed? || RoleOf(k).Uniform? || RoleOf(k).Listed? {
        TablePreserved(fuel, schema, k, v);
      } else if RoleOf(k).Assertion? {
        AssertionPreserved(fuel, schema, k, v);
      } else {
        OtherPreserved(fuel, schema, k, v);
      }
    }

    lemma {:induction false} TablePreserved(fuel: nat, schema: Json, k: string, v: Json)
      requires InScope(schema) && schema.Obj? && k in schema.fields
      requires RoleOf(k).Keyed? || RoleOf(k).Uniform? || RoleOf(k).Listed?
      ensures Image(schema).Obj? && k in Image(schema).fields && SameKeyword(fuel, schema, Image(schema), k, v)
      decreases fuel, schema, 1
    {
      NeighboursPreserved(schema);
      ValuePreserved(schema, k);
      hide Validate, Scoped, Good, Rewrite, Names, Resolve, RoleOf, Asserts, All, Combine, Enough, Least, Most;
      hide KeyedVerdicts, UniformVerdicts, ListedVerdicts, ElementVerdicts, Branch, Covered, PrefixLength;
      match RoleOf(k)
      case Keyed =>
        if schema.fields[k].Obj? {
          KeyedPreserved(fuel, schema, k, v);
        }
      case Uniform => UniformPreserved(fuel, schema, k, v);
      case Listed =>
        if schema.fields[k].Arr? {
          ListedPreserved(fuel, schema, k, v);
        }
    }

    lemma {:induction false} OtherPreserved(fuel: nat, schema: Json, k: string, v: Json)
      requires InScope(schema) && schema.Obj? && k in schema.fields && !RoleOf(k).Reference?
      requires !RoleOf(k).Keyed? && !RoleOf(k).Uniform? && !RoleOf(k).Listed? && !RoleOf(k).Assertion?
      ensures Image(schema).Obj? && k in Image(schema).fields && SameKeyword(fuel, schema, Image(schema), k, v)
      decreases fuel, schema, 1
    {
      InScopeKeyword(schema, k);
      NeighboursPreserved(schema);
      ValuePreserved(schema, k);
      hide Validate, Scoped, Good, Rewrite, Names, Resolve, RoleOf, Asserts, All, Combine, Enough, Least, Most;
      hide KeyedVerdicts, UniformVerdicts, ListedVerdicts, ElementVerdicts, Branch, Covered, PrefixLength, Mentions;
      var value := schema.fields[k];
      match RoleOf(k)
      case Negation => Preserves(fuel, value, v);
      case Containment =>
        if v.Arr? {
          ElementsPreserved(fuel, schema, k, v);
        }
      case Condition =>
        Preserves(fuel, value, v);
        BranchPreserved(fuel, schema, "then", v);
        BranchPreserved(fuel, schema, "else", v);
      case Passive =>
    }

    lemma AssertionPreserved(fuel: nat, schema: Json, k: string, v: Json)
      requires InScope(schema) && schema.Obj? && k in schema.fields && RoleOf(k).Assertion?
      ensures Image(schema).Obj? && k in Image(schema).fields && SameKeyword(fuel, schema, Image(schema), k, v)
    {
      InScopeKeyword(schema, k);
      ValuePreserved(schema, k);
      hide Scoped, Good, Rewrite, Names, RoleOf, Asserts, Keyword, Mentions;
      AssertionKeyword(other, fuel, root, schema, k, v);
      AssertionKeyword(other, fuel, merged, Image(schema), k, v);
      UntouchedIffUnmentioned(Names(), namespace, schema.fields[k]);
    }

    lemma InScopeKeyword(schema: Json, k: string)
      requires InScope(schema) && schema.Obj? && k in schema.fields
      ensures ScopedKeyword(Names(), schema, k)
    {
    }

    /** Keywords other than `$ref` carry their rewritten value. */
    lemma ValuePreserved(schema: Json, k: string)
      requires schema.Obj? && k in schema.fields && !RoleOf(k).Reference?
      ensures Image(schema).Obj? && k in Image(schema).fields && Image(schema).fields[k] == Image(schema.fields[k])
      ensures Image(schema.fields[k]).Obj? == schema.fields[k].Obj?
      ensures Image(schema.fields[k]).Arr? == schema.fields[k].Arr?
    {
      hide Rewrite, Names;
      RewriteShape(Names(), namespace, schema);
      RewriteShape(Names(), namespace, schema.fields[k]);
    }

    lemma {:induction false} ReferencePreserved(fuel: nat, schema: Json, k: string, v: Json)
      requires InScope(schema) && schema.Obj? && k in schema.fields && RoleOf(k).Reference?
      requires Image(schema).Obj? && k in Image(schema).fields
      ensures SameKeyword(fuel, schema, Image(schema), k, v)
      decreases fuel, schema, 0
    {
      hide Keyword, Scoped, Good, Rewrite, Resolve, RoleOf, Plain, Names, Definitions, InScope;
      ReferenceKeyword(other, fuel, root, schema, k, v);
      RewriteShape(Names(), namespace, schema);
      ReferenceKeyword(other, fuel, merged, Image(schema), k, v);
      if schema.fields[k].Str? {
        var target := ReferenceTarget(schema, k);
        if fuel > 0 {
          Preserves(fuel - 1, target, v);
        }
      } else {
        RewriteShape(Names(), namespace, schema.fields[k]);
      }
    }

    /** The definition that a reference designates, and what the renamed reference designates. */
    lemma ReferenceTarget(schema: Json, k: string) returns (target: Json)
      requires InScope(schema) && schema.Obj? && k in schema.fields && RoleOf(k).Reference? && schema.fields[k].Str?
      requires k == "$ref" && Image(schema).Obj? && k in Image(schema).fields
      ensures InScope(target) && Resolve(root, schema.fields[k].text) == Some(target)
      ensures Image(schema).fields[k].Str? && Resolve(merged, Image(schema).fields[k].text) == Some(Image(target))
    {
      InScopeKeyword(schema, k);
      hide Scoped, Good, Rewrite, Resolve;
      var name :| name in Names() && Plain(name) && schema.fields[k].text == Ref(name);
      RewriteShape(Names(), namespace, schema);
      RefPreservedHere(name);
      target := Definitions(root)[name];
    }

    lemma RefPreservedHere(name: string)
      requires Good() && name in Names() && Plain(name)
      ensures Resolve(root, Ref(name)) == Some(Definitions(root)[name])
      ensures Resolve(merged, Renamed(Names(), namespace, Ref(name))) == Some(Image(Definitions(root)[name]))
      ensures InScope(Definitions(root)[name])
    {
      hide Scoped, Resolve, Rewrite, Holds;
      RefPreserved(root, merged, namespace, name);
    }

    lemma {:induction false} KeyedPreserved(fuel: nat, schema: Json, k: string, v: Json)
      requires InScope(schema) && schema.Obj? && k in schema.fields && RoleOf(k).Keyed? && schema.fields[k].Obj?
      requires Image(schema).Obj? && k in Image(schema).fields && Image(schema).fields[k] == Image(schema.fields[k])
      requires Image(schema.fields[k]).Obj?
      ensures KeyedVerdicts(other, fuel, merged, Image(schema), k, v) == KeyedVerdicts(other, fuel, root, schema, k, v)
      decreases fuel, schema, 0
    {
      InScopeKeyword(schema, k);
      hide Validate, Scoped, Good, Rewrite, Names, RoleOf, Targets;
      var value, value' := schema.fields[k], Image(schema.fields[k]);
      RewriteShape(Names(), namespace, value);
      forall q, w | q in value.fields && w in Targets(other, k, q, v)
        ensures Same(fuel, value.fields[q], value'.fields[q], w)
      {
        PartPreserved(fuel, value.fields[q], value'.fields[q], w);
      }
    }

    lemma {:induction false} UniformPreserved(fuel: nat, schema: Json, k: string, v: Json)
      requires InScope(schema) && schema.Obj? && k in schema.fields && RoleOf(k).Uniform?
      requires Image(schema).Obj? && k in Image(schema).fields
      requires SameNeighbours(other, schema.fields, Image(schema).fields)
      ensures UniformVerdicts(other, fuel, merged, Image(schema), k, v)
              == UniformVerdicts(other, fuel, root, schema, k, v)
      decreases fuel, schema, 0
    {
      InScopeKeyword(schema, k);
      ValuePreserved(schema, k);
      SameInstances(other, schema.fields, Image(schema).fields, k, v);
      hide Validate, Scoped, Good, Rewrite, Names, RoleOf, Instances, SameNeighbours;
      forall w | w in Instances(other, schema.fields, k, v)
        ensures Same(fuel, schema.fields[k], Image(schema).fields[k], w)
      {
        Preserves(fuel, schema.fields[k], w);
      }
    }

    lemma {:induction false} ListedPreserved(fuel: nat, schema: Json, k: string, v: Json)
      requires InScope(schema) && schema.Obj? && k in schema.fields && RoleOf(k).Listed? && schema.fields[k].Arr?
      requires Image(schema).Obj? && k in Image(schema).fields && Image(schema).fields[k] == Image(schema.fields[k])
      requires Image(schema.fields[k]).Arr?
      ensures ListedVerdicts(other, fuel, merged, Image(schema), k, v)
              == ListedVerdicts(other, fuel, root, schema, k, v)
      decreases fuel, schema, 0
    {
      InScopeKeyword(schema, k);
      hide Validate, Scoped, Good, Rewrite, Names, RoleOf, Applied, Instance;
      var items, items' := schema.fields[k].items, Image(schema.fields[k]).items;
      RewriteShape(Names(), namespace, schema.fields[k]);
      ListedInBounds(k, |items|, v);
      forall i | 0 <= i < Applied(k, |items|, v)
        ensures Same(fuel, items[i], items'[i], Instance(k, |items|, v, i))
      {
        Preserves(fuel, items[i], Instance(k, |items|, v, i));
      }
    }

    lemma {:induction false} ElementsPreserved(fuel: nat, schema: Json, k: string, v: Json)
      requires InScope(schema) && schema.Obj? && k in schema.fields && RoleOf(k).Containment? && v.Arr?
      requires Image(schema).Obj? && k in Image(schema).fields
      ensures ElementVerdicts(other, fuel, merged, Image(schema), k, v)
              == ElementVerdicts(other, fuel, root, schema, k, v)
      decreases fuel, schema, 0
    {
      InScopeKeyword(schema, k);
      ValuePreserved(schema, k);
      hide Validate, Scoped, Good, Rewrite, Names, RoleOf;
      forall i | 0 <= i < |v.items| ensures Same(fuel, schema.fields[k], Image(schema).fields[k], v.items[i]) {
        Preserves(fuel, schema.fields[k], v.items[i]);
      }
    }

    lemma {:induction false} BranchPreserved(fuel: nat, schema: Json, k: string, v: Json)
      requires Good() && schema.Obj? && (k in schema.fields ==> k != "$ref" && Scoped(Names(), schema.fields[k]))
      requires Image(schema).Obj?
      ensures Branch(other, fuel, merged, Image(schema), k, v) == Branch(other, fuel, root, schema, k, v)
      decreases fuel, schema, 0
    {
      hide Validate, Scoped, Good, Rewrite, Names;
      RewriteShape(Names(), namespace, schema);
      if k !in schema.fields {
      } else {
        Preserves(fuel, schema.fields[k], v);
      }
    }

    /** Renaming changes nothing that keywords read of their neighbours. */
    lemma NeighboursPreserved(schema: Json)
      requires schema.Obj?
      ensures Image(schema).Obj? && SameNeighbours(other, schema.fields, Image(schema).fields)
    {
      hide Rewrite, Names;
      RewriteShape(Names(), namespace, schema);
      KeysPreserved(schema, "properties");
      KeysPreserved(schema, "patternProperties");
      ShapePreserved(schema, "prefixItems");
      ShapePreserved(schema, "minContains");
      ShapePreserved(schema, "maxContains");
    }

    lemma KeysPreserved(schema: Json, k: string)
      requires schema.Obj? && k != "$ref"
      ensures Image(schema).Obj? && Keys(Image(schema).fields, k) == Keys(schema.fields, k)
    {
      hide Rewrite, Names;
      RewriteShape(Names(), namespace, schema);
      if k in schema.fields {
        RewriteShape(Names(), namespace, schema.fields[k]);
      }
    }

    lemma ShapePreserved(schema: Json, k: string)
      requires schema.Obj? && k != "$ref"
      ensures Image(schema).Obj? && (k in Image(schema).fields <==> k in schema.fields)
      ensures k in schema.fields ==>
                var j, j' := schema.fields[k], Image(schema).fields[k];
                j'.Arr? == j.Arr? && (j.Arr? ==> |j'.items| == |j.items|) && (j.Num? || j'.Num? ==> j' == j)
    {
      hide Rewrite, Names;
      RewriteShape(Names(), namespace, schema);
      if k in schema.fields {
        RewriteShape(Names(), namespace, schema.fields[k]);
      }
    }
  }
}
