/** The two option maps of a model: compiled once, evaluated for each request, merged into its body. */
module OptionMaps {
  import opened Wrappers
  import opened Json
  import opened MergePatch
  import opened MergePatchOrder
  import opened CelCompiler
  import Evaluator = CelEvaluator

  datatype Maps = Maps(reasoningLevel: Program, maxOutputTokens: Program)

  datatype Values = Values(reasoningLevel: Option<string>, maxOutputTokens: real)

  datatype ApplyError = NoReasoningLevel | NotEvaluated(cause: EvaluateError) | Conflicted(conflict: Conflict)

  /** The maps a model has: both compiled for their own option. */
  ghost predicate AreCompiled(maps: Maps) {
    && (exists source :: CompiledMap(source, ReasoningLevel) == Ok(maps.reasoningLevel))
    && (exists source :: CompiledMap(source, MaxOutputTokens) == Ok(maps.maxOutputTokens))
  }

  method CompileModelOptionMaps(compiler: Compiler, reasoningLevel: string, maxOutputTokens: string)
      returns (r: Result<Maps, CompileError>)
    requires compiler.Valid()
    modifies compiler
    ensures compiler.Valid()
    ensures r.Ok? <==>
              CompiledMap(reasoningLevel, ReasoningLevel).Ok? && CompiledMap(maxOutputTokens, MaxOutputTokens).Ok?
    ensures r.Ok? ==> AreCompiled(r.value)
    ensures r.Ok? ==> r.value == Maps(CompiledMap(reasoningLevel, ReasoningLevel).value,
                                      CompiledMap(maxOutputTokens, MaxOutputTokens).value)
    ensures r.Err? ==> r.error == if CompiledMap(reasoningLevel, ReasoningLevel).Err?
                                  then CompiledMap(reasoningLevel, ReasoningLevel).error
                                  else CompiledMap(maxOutputTokens, MaxOutputTokens).error
  {
    var first := compiler.CompileModelOptionMap(reasoningLevel, ReasoningLevel);
    if first.Err? {
      return Err(first.error);
    }
    var second := compiler.CompileModelOptionMap(maxOutputTokens, MaxOutputTokens);
    if second.Err? {
      return Err(second.error);
    }
    return Ok(Maps(first.value, second.value));
  }

  /** Each map is evaluated on the value of its own option, and the two objects are merged into the body in order. */
  method Apply(maps: Maps, body: Json, values: Values) returns (r: Result<Json, ApplyError>)
    requires body.JObject?
    ensures values.reasoningLevel.None? <==> r == Err(NoReasoningLevel)
    ensures values.reasoningLevel.Some? ==>
              var p := EvaluateMap(maps.reasoningLevel, JString(values.reasoningLevel.value));
              var q := EvaluateMap(maps.maxOutputTokens, JNumber(values.maxOutputTokens));
              && (p.Err? ==> r == Err(NotEvaluated(p.error)))
              && (p.Ok? && q.Err? ==> r == Err(NotEvaluated(q.error)))
              && (p.Ok? && q.Ok? ==>
                    && (r.Ok? <==> !Conflicting(p.value, q.value))
                    && (r.Ok? ==> r.value == Merged(Merged(body, p.value), q.value))
                    && (r.Err? ==> r.error.Conflicted? && r.error.conflict.owner == "reasoningLevel"
                                   && r.error.conflict.option == "maxOutputTokens"))
  {
    var patches: seq<NamedPatch> := [];
    if values.reasoningLevel.None? {
      return Err(NoReasoningLevel);
    }
    var p := EvaluateMap(maps.reasoningLevel, JString(values.reasoningLevel.value));
    if p.Err? {
      return Err(NotEvaluated(p.error));
    }
    patches := patches + [NamedPatch("reasoningLevel", p.value)];
    var q := EvaluateMap(maps.maxOutputTokens, JNumber(values.maxOutputTokens));
    if q.Err? {
      return Err(NotEvaluated(q.error));
    }
    patches := patches + [NamedPatch("maxOutputTokens", q.value)];
    assert Patches(patches) == [p.value, q.value];
    TwoPatches(body, p.value, q.value);
    hide MergedAll, Conflicting, Merged, Owns, EvaluateMap, ConflictFree;
    var applied := ApplyOrderedJsonMergePatches(body, patches);
    return if applied.Ok? then Ok(applied.value) else Err(Conflicted(applied.error));
  }

  lemma {:induction false} TwoPatches(body: Json, p: Json, q: Json)
    requires body.JObject? && p.JObject? && q.JObject?
    ensures ConflictFree([p, q]) <==> !Conflicting(p, q)
    ensures MergedAll(body, [p, q]) == Merged(Merged(body, p), q)
  {
    assert [p, q][..1] == [p] && [p][..0] == [];
    assert MergedAll(body, []) == body;
    assert MergedAll(body, [p]) == Merged(body, p);
    assert ConflictFree([p, q]) ==> !Conflicting([p, q][0], [p, q][1]);
  }

  /** Which of the two options is applied first makes no difference. */
  lemma {:induction false} OptionsCommute(reasoning: Program, tokens: Program, level: Json, limit: Json, body: Json)
    requires body.JObject? && EvaluateMap(reasoning, level).Ok? && EvaluateMap(tokens, limit).Ok?
    ensures var p, q := EvaluateMap(reasoning, level).value, EvaluateMap(tokens, limit).value;
            !Conflicting(p, q) ==> Merged(Merged(body, p), q) == Merged(Merged(body, q), p)
  {
    var p, q := EvaluateMap(reasoning, level).value, EvaluateMap(tokens, limit).value;
    if !Conflicting(p, q) {
      CommuteConflictFree(body, p, q);
    }
  }

  lemma {:induction false} MergedIsSafe(target: Json, patch: Json)
    requires target.JObject? && patch.JObject? && Evaluator.AllSafe(target) && Evaluator.AllSafe(patch)
    ensures Evaluator.AllSafe(Merged(target, patch))
    decreases patch
  {
    forall key | key in Merged(target, patch).fields
      ensures Evaluator.AllSafe(Merged(target, patch).fields[key])
    {
      if key in patch.fields && patch.fields[key].JObject? {
        MergedIsSafe(ObjectAt(target, key), patch.fields[key]);
      }
    }
  }

  /** Compiled maps never fail the check for an object, and a body of JSON-safe numbers stays one. */
  lemma {:induction false} AppliedBodyIsSafe(maps: Maps, body: Json, level: Json, limit: Json)
    requires AreCompiled(maps) && body.JObject? && Evaluator.AllSafe(body)
    ensures var p, q := EvaluateMap(maps.reasoningLevel, level), EvaluateMap(maps.maxOutputTokens, limit);
            && p != Err(NotAnObject) && q != Err(NotAnObject)
            && (p.Ok? && q.Ok? ==> Evaluator.AllSafe(Merged(Merged(body, p.value), q.value)))
  {
    var reasoning :| CompiledMap(reasoning, ReasoningLevel) == Ok(maps.reasoningLevel);
    var tokens :| CompiledMap(tokens, MaxOutputTokens) == Ok(maps.maxOutputTokens);
    CompiledMapsGiveObjects(reasoning, ReasoningLevel, level);
    CompiledMapsGiveObjects(tokens, MaxOutputTokens, limit);
    hide CompiledMap, EvaluateMap, Merged;
    var p, q := EvaluateMap(maps.reasoningLevel, level), EvaluateMap(maps.maxOutputTokens, limit);
    if p.Ok? && q.Ok? {
      MergedIsSafe(body, p.value);
      MergedIsSafe(Merged(body, p.value), q.value);
    }
  }
}
