/** One model turn of the agent adapter, and runs of turns under a required tool sequence. */
module AgentTurn {
  import opened Prelude
  import opened JsonSchema
  import opened TurnSchema

  /** The arguments of a forced call: an object with one string. */
  function OneText(name: string, text: string): Json { Obj(map[name := Str(text)]) }

  /** JSON text: `loads` fails on malformed text and undoes `dumps` on objects with one string. */
  datatype Codec = Codec(loads: string -> Option<Json>, dumps: Json -> string) {
    ghost predicate RoundTrips() { forall name, text :: loads(dumps(OneText(name, text))) == Some(OneText(name, text)) }
  }

  /** A required tool, and the text it has to be called with, if any. */
  datatype Step = Step(tool: string, text: Option<string>)

  /** A conversation item; a call without a string name is not a tool call. */
  datatype Item = FunctionCall(name: Option<string>, arguments: Json) | Other

  predicate IsCall(item: Item) { item.FunctionCall? && item.name.Some? }

  /** `_required_text_argument`. */
  function TextArgument(arguments: Json): (r: Option<string>)
    ensures r.Some? ==> arguments.Obj? && Str(r.value) in arguments.fields.Values
  {
    if !arguments.Obj? then None
    else if "query" in arguments.fields && arguments.fields["query"].Str? then Some(arguments.fields["query"].text)
    else if "question" in arguments.fields && arguments.fields["question"].Str?
    then Some(arguments.fields["question"].text)
    else None
  }

  /** The call's arguments, parsed if they are text. */
  function Arguments(codec: Codec, raw: Json): Option<Json>
  {
    if raw.Str? then codec.loads(raw.text) else Some(raw)
  }

  /** The item is a call that satisfies the step. */
  predicate Satisfies(codec: Codec, step: Step, item: Item)
  {
    && IsCall(item) && item.name.value == step.tool
    && (step.text.Some? ==>
          Arguments(codec, item.arguments).Some? && TextArgument(Arguments(codec, item.arguments).value) == step.text)
  }

  /** The text stands under `query`, or under `question` where `query` is no string. */
  ghost predicate HasText(arguments: Json, text: string)
  {
    arguments.Obj? &&
    ( || ("query" in arguments.fields && arguments.fields["query"] == Str(text))
      || (!("query" in arguments.fields && arguments.fields["query"].Str?) &&
          "question" in arguments.fields && arguments.fields["question"] == Str(text)))
  }

  /** Which items satisfy a step: calls of its tool that, if it has a text, carry that text in their
      arguments, given as an object or as its JSON text. */
  lemma SatisfiesIff(codec: Codec, step: Step, item: Item)
    ensures Satisfies(codec, step, item) <==>
            && item.FunctionCall? && item.name == Some(step.tool)
            && (step.text.None? ||
                exists arguments :: HasText(arguments, step.text.value) &&
                  (item.arguments == arguments ||
                   (item.arguments.Str? && codec.loads(item.arguments.text) == Some(arguments))))
  {
    if Satisfies(codec, step, item) && step.text.Some? {
      assert HasText(Arguments(codec, item.arguments).value, step.text.value);
    }
  }

  // ----- progress -----

  /** The longest prefix of the required steps that the calls satisfy in order. */
  function Progress(codec: Codec, required: seq<Step>, items: seq<Item>): (p: nat)
    ensures p <= |required|
  {
    if items == [] then 0
    else
      var p := Progress(codec, required, items[..|items| - 1]);
      if p < |required| && Satisfies(codec, required[p], items[|items| - 1]) then p + 1 else p
  }

  /** `at` places the first `|at|` steps at increasing positions of the history. */
  predicate Embeds(codec: Codec, required: seq<Step>, items: seq<Item>, at: seq<nat>)
  {
    && |at| <= |required|
    && (forall i :: 0 <= i < |at| ==> at[i] < |items| && Satisfies(codec, required[i], items[at[i]]))
    && (forall i, j :: 0 <= i < j < |at| ==> at[i] < at[j])
  }

  lemma {:induction false} ProgressEmbeds(codec: Codec, required: seq<Step>, items: seq<Item>) returns (at: seq<nat>)
    ensures Embeds(codec, required, items, at) && |at| == Progress(codec, required, items)
  {
    at := [];
    if items == [] {
    } else {
      at := ProgressEmbeds(codec, required, items[..|items| - 1]);
      if |at| < Progress(codec, required, items) {
        at := at + [|items| - 1];
      }
    }
  }

  /** No embedding is longer than the greedy one. */
  lemma {:induction false} ProgressIsLongest(codec: Codec, required: seq<Step>, items: seq<Item>, at: seq<nat>)
    requires Embeds(codec, required, items, at)
    ensures |at| <= Progress(codec, required, items)
  {
    if at == [] {
    } else {
      assert at[|at| - 1] < |items|;
      var init := items[..|items| - 1];
      if at[|at| - 1] == |items| - 1 {
        ProgressIsLongest(codec, required, init, at[..|at| - 1]);
      } else {
        ProgressIsLongest(codec, required, init, at);
      }
    }
  }

  /** Appending items never lowers progress and raises it by at most their number. */
  lemma {:induction false} ProgressGrows(codec: Codec, required: seq<Step>, items: seq<Item>, more: seq<Item>)
    ensures Progress(codec, required, items) <= Progress(codec, required, items + more)
            <= Progress(codec, required, items) + |more|
  {
    if more == [] {
      assert items + more == items;
    } else {
      var init := more[..|more| - 1];
      ProgressGrows(codec, required, items, init);
      assert (items + more)[..|items + more| - 1] == items + init;
    }
  }

  datatype Input = Text(text: string) | Items(items: seq<Item>)

  function History(input: Input): seq<Item> { if input.Text? then [] else input.items }

  /** `_next_required_step`. */
  method NextRequiredStep(codec: Codec, required: seq<Step>, input: Input) returns (step: Option<Step>)
    ensures step == RequiredStep(codec, required, input)
  {
    var items := History(input);
    var progress := 0;
    for k := 0 to |items|
      invariant progress == Progress(codec, required, items[..k])
    {
      assert items[..k + 1][..k] == items[..k];
      var call := items[k];
      if !IsCall(call) || progress >= |required| {
        continue;
      }
      var step := required[progress];
      if call.name.value != step.tool {
        continue;
      }
      if step.text.Some? {
        var arguments := Arguments(codec, call.arguments);
        if arguments.None? || TextArgument(arguments.value) != step.text {
          continue;
        }
      }
      progress := progress + 1;
    }
    assert items[..|items|] == items;
    return if progress < |required| then Some(required[progress]) else None;
  }

  function RequiredStep(codec: Codec, required: seq<Step>, input: Input): Option<Step>
  {
    var p := Progress(codec, required, History(input));
    if p < |required| then Some(required[p]) else None
  }

  // ----- one turn -----

  datatype Failure =
    | HandoffsUnsupported | StoredPromptUnsupported
    | UnknownTool(tool: string) | UnsupportedChoice
    | ToolUnavailable(tool: string) | NoArguments(tool: string) | CannotBindText(tool: string)
    | Schema(error: SchemaError)
    | NoText | InvalidJson | TurnNotObject | UnknownSelection | ArgumentsNotObject
    | FinalNotText | FinalTooShort | FinalTooLong | InvalidKind

  datatype Choice = Auto | Required | NoTool | Named(tool: string) | Unsupported

  datatype Selection = Selection(tools: seq<Tool>, allowFinal: bool)

  function WithName(tools: seq<Tool>, name: string): (r: seq<Tool>)
    ensures forall t :: t in r <==> t in tools && t.name == name
  {
    if tools == [] then []
    else
      var last := tools[|tools| - 1];
      WithName(tools[..|tools| - 1], name) + if last.name == name then [last] else []
  }

  /** The tools at the given positions. */
  ghost predicate ToolsAt(tools: seq<Tool>, at: seq<nat>, r: seq<Tool>)
  {
    |r| == |at| && forall i :: 0 <= i < |at| ==> at[i] < |tools| && r[i] == tools[at[i]]
  }

  ghost predicate NamedAt(tools: seq<Tool>, name: string, at: seq<nat>)
  {
    Picks(tools, (t: Tool) => t.name == name, at) && ToolsAt(tools, at, WithName(tools, name))
  }

  lemma WithNameMore(tools: seq<Tool>, tool: Tool, name: string)
    ensures WithName(tools + [tool], name) == WithName(tools, name) + if tool.name == name then [tool] else []
  {
    assert (tools + [tool])[..|tools|] == tools;
  }

  lemma ToolsAtMore(tools: seq<Tool>, tool: Tool, at: seq<nat>, r: seq<Tool>)
    requires ToolsAt(tools, at, r)
    ensures ToolsAt(tools + [tool], at, r) && ToolsAt(tools + [tool], at + [|tools|], r + [tool])
  {
  }

  lemma NamedMore(tools: seq<Tool>, tool: Tool, name: string, at: seq<nat>)
    requires NamedAt(tools, name, at)
    ensures NamedAt(tools + [tool], name, if tool.name == name then at + [|tools|] else at)
  {
    hide WithName, Picks, ToolsAt;
    PicksMore(tools, tool, (t: Tool) => t.name == name, at);
    WithNameMore(tools, tool, name);
    ToolsAtMore(tools, tool, at, WithName(tools, name));
    assert WithName(tools, name) + [] == WithName(tools, name);
  }

  lemma NothingNamed(name: string)
    ensures NamedAt([], name, [])
  {
  }

  lemma NamedIsOffered(tools: seq<Tool>, name: string)
    requires WithName(tools, name) != []
    ensures exists t :: t in tools && t.name == name
  {
    assert WithName(tools, name)[0] in tools;
  }

  /** The tools of that name are kept, in order. */
  lemma {:induction false} WithNameAt(tools: seq<Tool>, name: string) returns (at: seq<nat>)
    ensures NamedAt(tools, name, at)
  {
    hide NamedAt;
    if tools == [] {
      at := [];
      NothingNamed(name);
    } else {
      var init, last := tools[..|tools| - 1], tools[|tools| - 1];
      assert init + [last] == tools;
      at := WithNameAt(init, name);
      NamedMore(init, last, name, at);
      at := if last.name == name then at + [|init|] else at;
    }
  }

  /** `_selected_tools`. */
  function SelectedTools(tools: seq<Tool>, choice: Choice): (r: Result<Selection, Failure>)
    ensures r.Err? <==> choice.Unsupported? || (choice.Named? && forall t :: t in tools ==> t.name != choice.tool)
    ensures r.Ok? ==> (r.value.allowFinal <==> choice.Auto? || choice.NoTool?)
    ensures r.Ok? ==> forall t :: t in r.value.tools <==>
              t in tools && !choice.NoTool? && (choice.Named? ==> t.name == choice.tool)
    ensures choice.Auto? || choice.Required? ==> r.Ok? && r.value.tools == tools
  {
    match choice
    case Auto => Ok(Selection(tools, true))
    case Required => Ok(Selection(tools, false))
    case NoTool => Ok(Selection([], true))
    case Named(name) =>
      var selected := WithName(tools, name);
      assert selected != [] ==> selected[0] in selected;
      if selected == [] then Err(UnknownTool(name)) else Ok(Selection(selected, false))
    case Unsupported => Err(UnsupportedChoice)
  }

  /** `_schema_accepts_string`. */
  predicate AcceptsString(schema: Json)
  {
    schema.Obj? && (
      || ("type" in schema.fields && (schema.fields["type"] == Str("string") ||
                                      (schema.fields["type"].Arr? && Str("string") in schema.fields["type"].items)))
      || ("anyOf" in schema.fields && schema.fields["anyOf"].Arr? &&
          exists i :: 0 <= i < |schema.fields["anyOf"].items| && AcceptsString(schema.fields["anyOf"].items[i]))
      || ("oneOf" in schema.fields && schema.fields["oneOf"].Arr? &&
          exists i :: 0 <= i < |schema.fields["oneOf"].items| && AcceptsString(schema.fields["oneOf"].items[i])))
  }

  /** With only a type, it accepts strings exactly if the type assertion does. */
  lemma TypeAcceptsString(other: Assertions, value: Json, text: string)
    ensures AcceptsString(Obj(map["type" := value])) <==> Asserts(other, "type", value, Str(text))
  {
    var schema := Obj(map["type" := value]);
    assert "type" != "anyOf" && "type" != "oneOf" by { assert "type"[0] == 't'; }
    if value.Arr? {
      forall i | 0 <= i < |value.items| && value.items[i].Str?
        ensures HasType(value.items[i].text, Str(text)) <==> value.items[i] == Str("string")
      {
        StringType(value.items[i].text, text);
      }
    } else if value.Str? {
      StringType(value.text, text);
    }
  }

  lemma StringType(name: string, text: string)
    ensures HasType(name, Str(text)) <==> name == "string"
  {
  }

  /** A way through alternatives to a schema whose type admits strings. */
  ghost predicate Leads(schema: Json, way: seq<(string, nat)>)
    decreases |way|
  {
    schema.Obj? &&
    if way == [] then
      "type" in schema.fields &&
      ( || schema.fields["type"] == Str("string")
        || (schema.fields["type"].Arr? && Str("string") in schema.fields["type"].items))
    else
      var (k, i) := way[0];
      && (k == "anyOf" || k == "oneOf") && k in schema.fields && schema.fields[k].Arr?
      && i < |schema.fields[k].items| && Leads(schema.fields[k].items[i], way[1..])
  }

  lemma {:induction false} AcceptingLeads(schema: Json) returns (way: seq<(string, nat)>)
    requires AcceptsString(schema)
    ensures Leads(schema, way)
    decreases schema
  {
    way := [];
    if !Leads(schema, []) {
      var k := if "anyOf" in schema.fields && schema.fields["anyOf"].Arr? &&
                  exists i :: 0 <= i < |schema.fields["anyOf"].items| && AcceptsString(schema.fields["anyOf"].items[i])
               then "anyOf" else "oneOf";
      var i :| 0 <= i < |schema.fields[k].items| && AcceptsString(schema.fields[k].items[i]);
      var rest := AcceptingLeads(schema.fields[k].items[i]);
      way := [(k, i)] + rest;
      assert way[1..] == rest;
    }
  }

  lemma {:induction false} LeadingAccepts(schema: Json, way: seq<(string, nat)>)
    requires Leads(schema, way)
    ensures AcceptsString(schema)
    decreases |way|
  {
    if way == [] {
    } else {
      var (k, i) := way[0];
      LeadingAccepts(schema.fields[k].items[i], way[1..]);
    }
  }

  /** A schema accepts strings exactly if alternatives lead to one whose type admits them. */
  lemma AcceptsStringIff(schema: Json)
    ensures AcceptsString(schema) <==> exists way :: Leads(schema, way)
  {
    if AcceptsString(schema) {
      var way := AcceptingLeads(schema);
      assert exists w :: Leads(schema, w);
    }
    if way :| Leads(schema, way) {
      LeadingAccepts(schema, way);
    }
  }

  /** A type, or alternatives of such schemas. */
  ghost predicate TypeChoice(schema: Json)
  {
    schema.Obj? &&
    ( || schema.fields.Keys == {"type"}
      || (schema.fields.Keys == {"anyOf"} && schema.fields["anyOf"].Arr? &&
          forall i :: 0 <= i < |schema.fields["anyOf"].items| ==> TypeChoice(schema.fields["anyOf"].items[i])))
  }

  lemma OneKeyword(other: Assertions, fuel: nat, root: Json, schema: Json, k: string, v: Json)
    requires schema.Obj? && schema.fields.Keys == {k}
    ensures Validate(other, fuel, root, schema, v) == Keyword(other, fuel, root, schema, k, v)
  {
    hide Keyword;
    ValidateIsAll(other, fuel, root, schema, v);
    hide Validate;
    var vs := Verdicts(other, fuel, root, schema, v);
    OneKeywordDecides(vs, k);
  }

  lemma AnyOfAccepts(other: Assertions, fuel: nat, root: Json, schema: Json, v: Json)
    requires schema.Obj? && "anyOf" in schema.fields && schema.fields["anyOf"].Arr?
    ensures Keyword(other, fuel, root, schema, "anyOf", v) == Accept <==>
            exists i :: 0 <= i < |schema.fields["anyOf"].items| &&
                        Validate(other, fuel, root, schema.fields["anyOf"].items[i], v) == Accept
  {
    hide Validate;
    var items, vs := schema.fields["anyOf"].items, ListedVerdicts(other, fuel, root, schema, "anyOf", v);
    assert RoleOf("anyOf") == Listed;
    assert |vs| == |items| && forall i :: 0 <= i < |vs| ==> vs[i] == Validate(other, fuel, root, items[i], v);
  }

  /** On such schemas it decides whether all strings are valid. */
  lemma {:induction false} TypeChoiceMeaning(other: Assertions, fuel: nat, root: Json, schema: Json, text: string)
    requires TypeChoice(schema)
    ensures Validate(other, fuel, root, schema, Str(text)) == Accept <==> AcceptsString(schema)
    decreases schema
  {
    hide Validate, Keyword, Asserts;
    if schema.fields.Keys == {"type"} {
      var value := schema.fields["type"];
      OneKeyword(other, fuel, root, schema, "type", Str(text));
      AssertionKeyword(other, fuel, root, schema, "type", Str(text));
      TypeAcceptsString(other, value, text);
      assert schema == Obj(map["type" := value]);
    } else {
      var items := schema.fields["anyOf"].items;
      OneKeyword(other, fuel, root, schema, "anyOf", Str(text));
      AnyOfAccepts(other, fuel, root, schema, Str(text));
      forall i | 0 <= i < |items|
        ensures Validate(other, fuel, root, items[i], Str(text)) == Accept <==> AcceptsString(items[i])
      {
        TypeChoiceMeaning(other, fuel, root, items[i], text);
      }
    }
  }

  /** The text argument that a tool's properties offer, `query` first. */
  function BindingName(properties: map<string, Json>): (r: Option<string>)
    ensures r.Some? ==> r.value == "query" || r.value == "question"
  {
    if "query" in properties && AcceptsString(properties["query"]) then Some("query")
    else if "question" in properties && AcceptsString(properties["question"]) then Some("question")
    else None
  }

  /** The call that the adapter makes itself for a required step. */
  function ForcedCall(codec: Codec, tools: seq<Tool>, step: Step): (r: Result<Item, Failure>)
  {
    var named := WithName(tools, step.tool);
    if named == [] then Err(ToolUnavailable(step.tool))
    else if step.text.None? then Ok(FunctionCall(Some(step.tool), Str(codec.dumps(Obj(map[])))))
    else
      var schema := named[0].schema;
      if !(schema.Obj? && "properties" in schema.fields && schema.fields["properties"].Obj?)
      then Err(NoArguments(step.tool))
      else match BindingName(schema.fields["properties"].fields)
        case None => Err(CannotBindText(step.tool))
        case Some(name) =>
          Ok(FunctionCall(Some(step.tool), Str(codec.dumps(OneText(name, step.text.value)))))
  }

  /** The tool at `j` is the first of that name. */
  ghost predicate Offers(tools: seq<Tool>, name: string, j: nat)
  {
    j < |tools| && tools[j].name == name && forall i :: 0 <= i < j ==> tools[i].name != name
  }

  /** The tool has an argument of that name which accepts strings. */
  ghost predicate Takes(schema: Json, name: string)
  {
    && schema.Obj? && "properties" in schema.fields && schema.fields["properties"].Obj?
    && name in schema.fields["properties"].fields && AcceptsString(schema.fields["properties"].fields[name])
  }

  lemma FirstWithName(tools: seq<Tool>, name: string, j: nat)
    requires Offers(tools, name, j)
    ensures WithName(tools, name) != [] && WithName(tools, name)[0] == tools[j]
  {
    hide WithName;
    var at := WithNameAt(tools, name);
    assert j in at;
    assert at[0] == j;
  }

  /** The step is taken exactly if its tool is offered and, for a text, takes one as `query` or
      `question`; the first tool of the name counts, and `query` goes first. */
  lemma ForcedCallIff(codec: Codec, tools: seq<Tool>, step: Step, j: nat)
    requires Offers(tools, step.tool, j)
    ensures var r, schema := ForcedCall(codec, tools, step), tools[j].schema;
            var call := (arguments: Json) => Ok(FunctionCall(Some(step.tool), Str(codec.dumps(arguments))));
            if step.text.None? then r == call(Obj(map[]))
            else if Takes(schema, "query") then r == call(Obj(map["query" := Str(step.text.value)]))
            else if Takes(schema, "question") then r == call(Obj(map["question" := Str(step.text.value)]))
            else r == Err(if schema.Obj? && "properties" in schema.fields && schema.fields["properties"].Obj?
                          then CannotBindText(step.tool) else NoArguments(step.tool))
  {
    hide WithName, AcceptsString;
    FirstWithName(tools, step.tool, j);
  }

  lemma UnofferedFails(codec: Codec, tools: seq<Tool>, step: Step)
    requires forall t :: t in tools ==> t.name != step.tool
    ensures ForcedCall(codec, tools, step) == Err(ToolUnavailable(step.tool))
  {
    hide AcceptsString;
    if WithName(tools, step.tool) != [] {
      NamedIsOffered(tools, step.tool);
    }
  }

  /** A forced call is recognised by the matcher. */
  lemma ForcedCallSatisfies(codec: Codec, tools: seq<Tool>, step: Step)
    requires codec.RoundTrips() && ForcedCall(codec, tools, step).Ok?
    ensures Satisfies(codec, step, ForcedCall(codec, tools, step).value)
  {
    hide AcceptsString, WithName;
    if step.text.Some? {
      var name := BindingName(WithName(tools, step.tool)[0].schema.fields["properties"].fields).value;
      var arguments := OneText(name, step.text.value);
      assert codec.loads(codec.dumps(arguments)) == Some(arguments);
      assert name == "query" || ("query" !in arguments.fields && name == "question") by {
        assert "query"[1] != "question"[3] || |"query"| != |"question"|;
      }
    }
  }

  /** What a turn puts into the conversation. */
  datatype Response = Call(item: Item) | Message(text: string)

  const MIN_LENGTH := 256
  const MAX_LENGTH := 3500

  function FieldOf(m: map<string, Json>, k: string): Json { if k in m then m[k] else Null }

  /** A turn that calls a selected tool with an object. */
  predicate ReadableCall(selection: Selection, turn: map<string, Json>)
  {
    && FieldOf(turn, "kind") == Str("tool_call") && FieldOf(turn, "arguments").Obj?
    && exists t :: t in selection.tools && FieldOf(turn, "name") == Str(t.name)
  }

  /** A final turn that is allowed, with an output of the right kind and length. */
  predicate ReadableFinal(selection: Selection, output: Output, turn: map<string, Json>)
  {
    && FieldOf(turn, "kind") == Str("final") && selection.allowFinal
    && (output.PlainText? ==> FieldOf(turn, "output").Str? && LongEnough(FieldOf(turn, "output").text)
                              && |FieldOf(turn, "output").text| <= MAX_LENGTH)
  }

  predicate LongEnough(text: string) { |Strip(text)| >= MIN_LENGTH }

  /** Reading the generated text of a turn. */
  function ReadTurn(codec: Codec, selection: Selection, output: Output, text: Option<string>)
    : (r: Result<Response, Failure>)
    ensures r.Ok? <==> text.Some? && codec.loads(text.value).Some? && codec.loads(text.value).value.Obj? &&
                       var turn := codec.loads(text.value).value.fields;
                       ReadableCall(selection, turn) || ReadableFinal(selection, output, turn)
    ensures r.Ok? && r.value.Call? ==>
              var turn := codec.loads(text.value).value.fields;
              && ReadableCall(selection, turn) && IsCall(r.value.item) && Str(r.value.item.name.value) == turn["name"]
              && r.value.item.arguments == Str(codec.dumps(turn["arguments"]))
    ensures r.Ok? && r.value.Message? ==>
              var turn := codec.loads(text.value).value.fields;
              && ReadableFinal(selection, output, turn)
              && (if output.PlainText? then Str(r.value.text) == turn["output"]
                  else r.value.text == codec.dumps(FieldOf(turn, "output")))
  {
    if text.None? then Err(NoText)
    else if codec.loads(text.value).None? then Err(InvalidJson)
    else if !codec.loads(text.value).value.Obj? then Err(TurnNotObject)
    else
      var turn := codec.loads(text.value).value.fields;
      var kind := FieldOf(turn, "kind");
      if kind == Str("tool_call") then
        var name, arguments := FieldOf(turn, "name"), FieldOf(turn, "arguments");
        if !(name.Str? && exists t :: t in selection.tools && t.name == name.text) then Err(UnknownSelection)
        else if !arguments.Obj? then Err(ArgumentsNotObject)
        else Ok(Call(FunctionCall(Some(name.text), Str(codec.dumps(arguments)))))
      else if kind == Str("final") && selection.allowFinal then
        var final := FieldOf(turn, "output");
        if output.Structured? then Ok(Message(codec.dumps(final)))
        else if !final.Str? then Err(FinalNotText)
        else if !LongEnough(final.text) then Err(FinalTooShort)
        else if |final.text| > MAX_LENGTH then Err(FinalTooLong)
        else Ok(Message(final.text))
      else Err(InvalidKind)
  }

  /** A call of one of the tools whose arguments are no object. */
  predicate NonObjectCall(t: Turn, turn: Json)
  {
    exists i :: 0 <= i < |t.tools| && Calls(turn, t.tools[i].name) && !turn.fields["arguments"].Obj?
  }

  /** A final plain text that is too short once stripped. */
  predicate ShortFinal(t: Turn, turn: Json)
  {
    t.output.PlainText? && Finishes(turn) && turn.fields["output"].Str? && !LongEnough(turn.fields["output"].text)
  }

  /** What the turn schema accepts is read without error, exactly but for calls whose arguments are
      no object and plain texts that are too short once stripped. */
  lemma GrammarTurnIsReadIff(codec: Codec, other: Assertions, fuel: nat, t: Turn, text: string, turn: Json)
    requires Separate(t) && DistinctNames(t) && codec.loads(text) == Some(turn)
    requires Validate(other, fuel, Merged(t), Merged(t), turn) == Accept
    ensures var r := ReadTurn(codec, Selection(t.tools, t.allowFinal), t.output, Some(text));
            && (r.Err? <==> NonObjectCall(t, turn) || ShortFinal(t, turn))
            && (r.Err? ==> r.error == if NonObjectCall(t, turn) then ArgumentsNotObject else FinalTooShort)
  {
    hide Validate, Merged, Separate, LongEnough, PlainTextSchema;
    TurnMeaning(other, fuel, t, turn);
    if i :| 0 <= i < |t.tools| && Calls(turn, t.tools[i].name) {
      assert t.tools[i] in t.tools;
      assert !Finishes(turn);
    } else {
      assert t.allowFinal && Finishes(turn);
      if t.output.PlainText? {
        PlainTextMeaning(other, fuel, PlainTextSchema(), turn.fields["output"]);
      }
    }
  }

  lemma {:induction false} StripBlank(s: string)
    requires forall i :: 0 <= i < |s| ==> IsSpace(s[i])
    ensures Strip(s) == []
  {
    TrimBlank(s);
  }

  lemma {:induction false} TrimBlank(s: string)
    requires forall i :: 0 <= i < |s| ==> IsSpace(s[i])
    ensures TrimEnd(s) == []
  {
    if s == [] {
    } else {
      TrimBlank(s[..|s| - 1]);
    }
  }

  const BLANKS: string := seq(MIN_LENGTH, _ => ' ')

  /** 256 blanks: the turn schema accepts them as a final text, reading them fails. */
  lemma BlankTextIsNotRead(codec: Codec, other: Assertions, fuel: nat, text: string)
    requires codec.loads(text) == Some(Obj(map["kind" := Str("final"), "output" := Str(BLANKS)]))
    ensures var t, turn := Turn([], PlainText, true), Obj(map["kind" := Str("final"), "output" := Str(BLANKS)]);
            && Separate(t) && Validate(other, fuel, Merged(t), Merged(t), turn) == Accept
            && ReadTurn(codec, Selection([], true), PlainText, Some(text)) == Err(FinalTooShort)
  {
    hide Validate, Merged, Strip, PlainTextSchema;
    var t, turn := Turn([], PlainText, true), Obj(map["kind" := Str("final"), "output" := Str(BLANKS)]);
    StripBlank(BLANKS);
    TurnMeaning(other, fuel, t, turn);
    PlainTextMeaning(other, fuel, PlainTextSchema(), Str(BLANKS));
    GrammarTurnIsReadIff(codec, other, fuel, t, text, turn);
  }

  /** A tool without any constraint: the turn schema accepts a call with null, reading it fails. */
  lemma NullCallIsNotRead(codec: Codec, other: Assertions, fuel: nat, name: string, text: string)
    requires codec.loads(text) == Some(CallOf(name, Null))
    ensures var t := Turn([Tool(name, Obj(map[]))], PlainText, false);
            && Separate(t) && Validate(other, fuel, Merged(t), Merged(t), CallOf(name, Null)) == Accept
            && ReadTurn(codec, Selection(t.tools, false), PlainText, Some(text)) == Err(ArgumentsNotObject)
  {
    var schema := Obj(map[]);
    assert Validate(other, fuel, schema, schema, Null) == Accept by {
      ValidateIsAll(other, fuel, schema, schema, Null);
      assert Verdicts(other, fuel, schema, schema, Null).Values == {};
    }
    hide Validate, Merged;
    var t := Turn([Tool(name, schema)], PlainText, false);
    assert Calls(CallOf(name, Null), t.tools[0].name);
    TurnMeaning(other, fuel, t, CallOf(name, Null));
    GrammarTurnIsReadIff(codec, other, fuel, t, text, CallOf(name, Null));
  }

  /** One request: the tools, settings and output type, and what the service would generate. */
  datatype Request = Request(tools: seq<Tool>, choice: Choice, output: Output, handoffs: bool, storedPrompt: bool,
                             generated: Option<string>)

  /** The outcome of a turn: forced without a service call, generated, or failed. */
  datatype Outcome = Forced(item: Item) | Generated(result: Result<Response, Failure>) | Failed(failure: Failure)

  predicate TypedRequest(q: Request)
  {
    (forall t :: t in q.tools ==> t.schema.Obj?) && (q.output.Structured? ==> q.output.schema.Obj?)
  }

  function TurnOutcome(codec: Codec, required: seq<Step>, input: Input, q: Request): (r: Outcome)
  {
    if q.handoffs then Failed(HandoffsUnsupported)
    else if q.storedPrompt then Failed(StoredPromptUnsupported)
    else if SelectedTools(q.tools, q.choice).Err? then Failed(SelectedTools(q.tools, q.choice).error)
    else
      var selection := SelectedTools(q.tools, q.choice).value;
      match RequiredStep(codec, required, input)
      case Some(step) =>
        (match ForcedCall(codec, selection.tools, step)
         case Ok(item) => Forced(item)
         case Err(failure) => Failed(failure))
      case None =>
        var t := Turn(selection.tools, q.output, selection.allowFinal);
        if !Mergeable(t) then Failed(Schema(DefsNotAnObject))
        else if !Permits(t) then Failed(Schema(NothingPermitted))
        else Generated(ReadTurn(codec, selection, q.output, q.generated))
  }

  /** The step can be taken with these tools. */
  ghost predicate Callable(tools: seq<Tool>, step: Step)
  {
    exists j: nat :: Offers(tools, step.tool, j) &&
                     (step.text.None? || Takes(tools[j].schema, "query") || Takes(tools[j].schema, "question"))
  }

  lemma {:induction false} FirstOffer(tools: seq<Tool>, name: string) returns (j: nat)
    requires exists t :: t in tools && t.name == name
    ensures Offers(tools, name, j)
  {
    var i :| 0 <= i < |tools| && tools[i].name == name;
    j := i;
    if k :| 0 <= k < i && tools[k].name == name {
      var j' := FirstOffer(tools[..i], name);
      j := j';
    }
  }

  lemma CallableIff(codec: Codec, tools: seq<Tool>, step: Step)
    ensures ForcedCall(codec, tools, step).Ok? <==> Callable(tools, step)
  {
    hide ForcedCall, Takes;
    if t :| t in tools && t.name == step.tool {
      var j := FirstOffer(tools, step.tool);
      ForcedCallIff(codec, tools, step, j);
    } else {
      UnofferedFails(codec, tools, step);
    }
  }

  /** When a turn is forced, when it goes to the service, and so when it fails. */
  lemma OutcomeIff(codec: Codec, required: seq<Step>, input: Input, q: Request)
    ensures var outcome, selected := TurnOutcome(codec, required, input, q), SelectedTools(q.tools, q.choice);
            var p := Progress(codec, required, History(input));
            var supported := !q.handoffs && !q.storedPrompt && selected.Ok?;
            && (outcome.Forced? <==> supported && p < |required| && Callable(selected.value.tools, required[p]))
            && (outcome.Generated? <==>
                  supported && p == |required| &&
                  var t := Turn(selected.value.tools, q.output, selected.value.allowFinal);
                  Mergeable(t) && Permits(t))
            && (outcome.Forced? ==> ForcedCall(codec, selected.value.tools, required[p]) == Ok(outcome.item))
            && (outcome.Generated? ==> outcome.result == ReadTurn(codec, selected.value, q.output, q.generated))
            && (outcome.Failed? && supported && p < |required| ==>
                  ForcedCall(codec, selected.value.tools, required[p]) == Err(outcome.failure))
  {
    hide ForcedCall, Progress, SelectedTools, Callable, Mergeable, ReadTurn;
    var p := Progress(codec, required, History(input));
    if SelectedTools(q.tools, q.choice).Ok? && p < |required| {
      CallableIff(codec, SelectedTools(q.tools, q.choice).value.tools, required[p]);
    }
  }

  /** The adapter; it records every service call it makes. */
  class NativeModel {
    const codec: Codec
    const required: seq<Step>
    var apiCalls: seq<Option<string>>

    constructor (codec: Codec, required: seq<Step>)
      ensures this.codec == codec && this.required == required && apiCalls == []
    {
      this.codec, this.required, apiCalls := codec, required, [];
    }

    /** `SIENativeModel.get_response`. */
    method GetResponse(input: Input, q: Request) returns (r: Result<Response, Failure>)
      requires TypedRequest(q)
      modifies this
      ensures match TurnOutcome(codec, required, input, q)
              case Forced(item) => r == Ok(Call(item)) && apiCalls == old(apiCalls)
              case Generated(result) => r == result && apiCalls == old(apiCalls) + [q.generated]
              case Failed(failure) => r == Err(failure) && apiCalls == old(apiCalls)
    {
      hide Mergeable, ReadTurn, ForcedCall, Merged;
      if q.handoffs {
        return Err(HandoffsUnsupported);
      }
      if q.storedPrompt {
        return Err(StoredPromptUnsupported);
      }
      var selected := SelectedTools(q.tools, q.choice);
      if selected.Err? {
        return Err(selected.error);
      }
      var selection := selected.value;
      var step := NextRequiredStep(codec, required, input);
      if step.Some? {
        var call := ForcedCall(codec, selection.tools, step.value);
        return if call.Ok? then Ok(Call(call.value)) else Err(call.error);
      }
      var schema := BuildTurnSchema(Turn(selection.tools, q.output, selection.allowFinal));
      if schema.Err? {
        return Err(Schema(schema.error));
      }
      apiCalls := apiCalls + [q.generated];
      return ReadTurn(codec, selection, q.output, q.generated);
    }
  }

  // ----- runs -----

  /** A turn of a run, and the items that others append after it. */
  datatype Round = Round(request: Request, appended: seq<Item>)

  /** The items a turn appends itself. */
  function OwnItems(outcome: Outcome): seq<Item>
  {
    match outcome
    case Forced(item) => [item]
    case Generated(Ok(Call(item))) => [item]
    case _ => [Other]
  }

  function After(codec: Codec, required: seq<Step>, history: seq<Item>, round: Round): seq<Item>
  {
    history + OwnItems(TurnOutcome(codec, required, Items(history), round.request)) + round.appended
  }

  /** The history before round `k` of a run. */
  function HistoryAt(codec: Codec, required: seq<Step>, start: seq<Item>, rounds: seq<Round>, k: nat): seq<Item>
    requires k <= |rounds|
  {
    if k == 0 then start else After(codec, required, HistoryAt(codec, required, start, rounds, k - 1), rounds[k - 1])
  }

  function OutcomeAt(codec: Codec, required: seq<Step>, start: seq<Item>, rounds: seq<Round>, k: nat): Outcome
    requires k < |rounds|
  {
    TurnOutcome(codec, required, Items(HistoryAt(codec, required, start, rounds, k)), rounds[k].request)
  }

  /** A forced call satisfies the next open step; a generated turn has no open step. */
  lemma OutcomeFitsProgress(codec: Codec, required: seq<Step>, history: seq<Item>, q: Request)
    ensures var p := Progress(codec, required, history);
            var outcome := TurnOutcome(codec, required, Items(history), q);
            && (outcome.Forced? ==> p < |required|)
            && (outcome.Forced? && codec.RoundTrips() ==> Satisfies(codec, required[p], outcome.item))
            && (outcome.Generated? ==> p == |required|)
  {
    hide ForcedCall, ReadTurn, Mergeable, SelectedTools, Satisfies;
    var p := Progress(codec, required, history);
    if TurnOutcome(codec, required, Items(history), q).Forced? && codec.RoundTrips() {
      ForcedCallSatisfies(codec, SelectedTools(q.tools, q.choice).value.tools, required[p]);
    }
  }

  /** Each forced turn adds a step of progress, exactly one if nothing else is appended. */
  lemma RoundAdvances(codec: Codec, required: seq<Step>, history: seq<Item>, round: Round)
    requires codec.RoundTrips()
    ensures var p := Progress(codec, required, history);
            var p' := Progress(codec, required, After(codec, required, history, round));
            var outcome := TurnOutcome(codec, required, Items(history), round.request);
            && p <= p'
            && (outcome.Forced? ==> p < p' && (round.appended == [] ==> p' == p + 1))
  {
    hide TurnOutcome, Satisfies;
    var outcome := TurnOutcome(codec, required, Items(history), round.request);
    var own := OwnItems(outcome);
    var next := history + own;
    ProgressGrows(codec, required, history, own);
    ProgressGrows(codec, required, next, round.appended);
    OutcomeFitsProgress(codec, required, history, round.request);
    if outcome.Forced? {
      assert next[..|next| - 1] == history && next[|next| - 1] == outcome.item;
    }
    if round.appended == [] {
      assert next + round.appended == next;
    }
  }

  /** Over a whole run progress never falls, whatever the turns do. */
  lemma {:induction false} ProgressStays(codec: Codec, required: seq<Step>, start: seq<Item>, rounds: seq<Round>,
                                         i: nat, k: nat)
    requires i <= k <= |rounds|
    ensures Progress(codec, required, HistoryAt(codec, required, start, rounds, i))
            <= Progress(codec, required, HistoryAt(codec, required, start, rounds, k))
    decreases k
  {
    hide After, Progress;
    if i >= k {
    } else {
      ProgressStays(codec, required, start, rounds, i, k - 1);
      ProgressAfter(codec, required, HistoryAt(codec, required, start, rounds, k - 1), rounds[k - 1]);
    }
  }

  lemma ProgressAfter(codec: Codec, required: seq<Step>, history: seq<Item>, round: Round)
    ensures Progress(codec, required, history) <= Progress(codec, required, After(codec, required, history, round))
  {
    hide TurnOutcome, Progress, OwnItems;
    var own := OwnItems(TurnOutcome(codec, required, Items(history), round.request));
    ProgressGrows(codec, required, history, own);
    ProgressGrows(codec, required, history + own, round.appended);
  }

  /** No forced turn follows a generated one. */
  lemma NoForcedAfterGenerated(codec: Codec, required: seq<Step>, start: seq<Item>, rounds: seq<Round>, i: nat, k: nat)
    requires i <= k < |rounds| && OutcomeAt(codec, required, start, rounds, i).Generated?
    ensures !OutcomeAt(codec, required, start, rounds, k).Forced?
  {
    hide TurnOutcome, HistoryAt;
    OutcomeFitsProgressAt(codec, required, start, rounds, i);
    OutcomeFitsProgressAt(codec, required, start, rounds, k);
    ProgressStays(codec, required, start, rounds, i, k);
  }

  /** Over a whole run: forced turns come before all generated ones, at most one for each open step,
      and every turn that reaches the service does so after all required steps are satisfied in order. */
  lemma {:induction false} ForcedTurnsLead(codec: Codec, required: seq<Step>, start: seq<Item>, rounds: seq<Round>,
                                           k: nat)
    requires codec.RoundTrips() && k <= |rounds|
    requires forall i :: 0 <= i < k ==> !OutcomeAt(codec, required, start, rounds, i).Failed?
    ensures var p := Progress(codec, required, HistoryAt(codec, required, start, rounds, k));
            && p >= Min(|required|, Progress(codec, required, start) + k)
            && (k < |rounds| && OutcomeAt(codec, required, start, rounds, k).Forced? ==>
                  && k < |required| - Progress(codec, required, start)
                  && forall i :: 0 <= i < k ==> OutcomeAt(codec, required, start, rounds, i).Forced?)
            && (k < |rounds| && OutcomeAt(codec, required, start, rounds, k).Generated? ==> p == |required|)
  {
    hide TurnOutcome, After;
    if k > 0 {
      ForcedTurnsLead(codec, required, start, rounds, k - 1);
      OutcomeFitsProgressAt(codec, required, start, rounds, k - 1);
      RoundAdvances(codec, required, HistoryAt(codec, required, start, rounds, k - 1), rounds[k - 1]);
    }
    OutcomeFitsProgressAt(codec, required, start, rounds, k);
    if k < |rounds| && OutcomeAt(codec, required, start, rounds, k).Forced? {
      forall i | 0 <= i < k ensures OutcomeAt(codec, required, start, rounds, i).Forced? {
        if OutcomeAt(codec, required, start, rounds, i).Generated? {
          NoForcedAfterGenerated(codec, required, start, rounds, i, k);
        }
      }
    }
  }

  lemma OutcomeFitsProgressAt(codec: Codec, required: seq<Step>, start: seq<Item>, rounds: seq<Round>, k: nat)
    requires k <= |rounds|
    ensures var p := Progress(codec, required, HistoryAt(codec, required, start, rounds, k));
            && (k < |rounds| && OutcomeAt(codec, required, start, rounds, k).Forced? ==> p < |required|)
            && (k < |rounds| && OutcomeAt(codec, required, start, rounds, k).Generated? ==> p == |required|)
  {
    hide TurnOutcome;
    if k < |rounds| {
      OutcomeFitsProgress(codec, required, HistoryAt(codec, required, start, rounds, k), rounds[k].request);
    }
  }

  /** A turn reaches the service, and so can produce a final message, only after a history that
      contains the whole required sequence. */
  lemma MessageNeedsAllSteps(codec: Codec, required: seq<Step>, start: seq<Item>, rounds: seq<Round>, k: nat)
    requires k < |rounds| && OutcomeAt(codec, required, start, rounds, k).Generated?
    ensures exists at :: |at| == |required| && Embeds(codec, required, HistoryAt(codec, required, start, rounds, k), at)
  {
    OutcomeFitsProgressAt(codec, required, start, rounds, k);
    var at := ProgressEmbeds(codec, required, HistoryAt(codec, required, start, rounds, k));
  }
}
