/** What the three filters and their composition promise for every configuration. */
module FilterProperties {
  import opened Results
  import opened Json
  import opened Segments
  import opened Filter
  import MergeProperties

  /** InputPath null discards the raw input: the effective input is `{}` whatever it was. */
  lemma InputNullDiscardsRawInput(query: Query, data: JSON, other: JSON)
    ensures FilterInput(Null, query, data) == Empty
    ensures FilterInput(Null, query, data) == FilterInput(Null, query, other)
  {
  }

  /** A missing InputPath behaves as `$`. */
  lemma InputAbsentMeansRoot(query: Query, data: JSON)
    ensures FilterInput(Absent, query, data) == FilterInput(Path(RootPath), query, data)
    ensures FilterInput(Absent, query, data) == query(data, "$")
  {
  }

  /** A missing ResultPath and ResultPath `$` both make the merged value the action's
      result, whatever the effective input was. */
  lemma ResultAbsentOrRootIsResult(parse: Parser, input: JSON, other: JSON, result: JSON)
    ensures FilterResult(Absent, parse, input, result) == Ok(result)
    ensures FilterResult(Path(RootPath), parse, input, result) == Ok(result)
    ensures FilterResult(Absent, parse, input, result) == FilterResult(Path(RootPath), parse, other, result)
  {
  }

  /** ResultPath null discards the result: the merged value is the effective input. */
  lemma ResultNullKeepsInput(parse: Parser, input: JSON, result: JSON, other: JSON)
    ensures FilterResult(Null, parse, input, result) == Ok(input)
    ensures FilterResult(Null, parse, input, result) == FilterResult(Null, parse, input, other)
  {
  }

  /** OutputPath null discards the merged value: the effective output is `{}`. A missing
      OutputPath behaves as `$`. */
  lemma OutputNullOrAbsent(query: Query, merged: JSON)
    ensures FilterOutput(Null, query, merged) == Empty
    ensures FilterOutput(Absent, query, merged) == FilterOutput(Path(RootPath), query, merged)
    ensures FilterOutput(Absent, query, merged) == query(merged, "$")
  {
  }

  /** A Reference Path ResultPath `$.k1...kn` on an object input: the merge fails exactly when
      some `k1...kj` (j < n) already holds a non-object; on success `k1...kn` holds the
      result, and every chain of names off that path looks up what it did before. */
  lemma ReferencePathMerge(parse: Parser, p: string, input: JSON, result: JSON, other: seq<string>)
    requires p != RootPath && input.JObj?
    requires IsReferencePath(parse(p)) && EndsInMember(parse(p))
    ensures FilterResult(Path(p), parse, input, result).Ok?
        <==> MergeProperties.Unobstructed(input, Keys(parse(p)))
    ensures FilterResult(Path(p), parse, input, result).Ok? ==>
              Lookup(FilterResult(Path(p), parse, input, result).value, Keys(parse(p))) == Some(result)
    ensures FilterResult(Path(p), parse, input, result).Ok? && !(other <= Keys(parse(p))) && !(Keys(parse(p)) <= other) ==>
              Lookup(FilterResult(Path(p), parse, input, result).value, other) == Lookup(input, other)
  {
    var segs := parse(p);
    MergeProperties.MergeSucceedsIffUnobstructed(input, segs, result);
    if Merge(input, segs, result).Ok? {
      MergeProperties.MergePlacesResult(input, segs, result, []);
      assert Keys(segs) + [] == Keys(segs);
      if !(other <= Keys(segs)) && !(Keys(segs) <= other) {
        MergeProperties.MergeLeavesOtherPathsAlone(input, segs, result, other);
      }
    }
  }

  /** A ResultPath containing a segment other than the root marker or a child member access
      fails with States.ResultPathMatchFailure. */
  lemma NonReferencePathFails(parse: Parser, p: string, input: JSON, result: JSON, i: nat)
    requires p != RootPath && (LeadsWithMember(parse(p)) ==> input.JObj?)
    requires i < |parse(p)| && !IsRoot(parse(p)[i]) && !IsMemberChild(parse(p)[i])
    ensures FilterResult(Path(p), parse, input, result) == Err(ResultPathMatchFailure)
  {
    MergeProperties.NonReferenceSegmentFails(input, parse(p), result, i);
  }

  /** Two raw inputs with the same effective input run identically: the action and the
      merge only ever see the filtered input. */
  lemma RunSeesOnlyFilteredInput<X>(cfg: FilterConfig, parse: Parser, query: Query,
                                    action: JSON -> Result<StepResult<X>, Failure>, data: JSON, other: JSON)
    requires WalksInput(cfg.resultPath, parse) && action(FilterInput(cfg.inputPath, query, data)).Ok?
             ==> FilterInput(cfg.inputPath, query, data).JObj?
    requires FilterInput(cfg.inputPath, query, data) == FilterInput(cfg.inputPath, query, other)
    ensures Run(cfg, parse, query, action, data) == Run(cfg, parse, query, action, other)
  {
  }

  /** With no filtering fields, a root query that returns its argument and an action that
      passes its input through, a run returns the raw input unchanged. */
  lemma RunWithoutFiltersIsIdentity<X>(parse: Parser, query: Query, extra: X,
                                       action: JSON -> Result<StepResult<X>, Failure>, data: JSON)
    requires forall v :: query(v, RootPath) == v
    requires forall v :: action(v) == Ok(StepResult(v, extra))
    ensures Run(FilterConfig(Absent, Absent, Absent), parse, query, action, data) == Ok(StepResult(data, extra))
  {
  }

  /** With ResultPath null, a successful action's output is dropped and the output filter
      is applied to the effective input. */
  lemma RunDiscardsResultWhenNull<X>(cfg: FilterConfig, parse: Parser, query: Query,
                                     action: JSON -> Result<StepResult<X>, Failure>, data: JSON)
    requires cfg.resultPath.Null?
    requires action(FilterInput(cfg.inputPath, query, data)).Ok?
    ensures Run(cfg, parse, query, action, data)
         == Ok(StepResult(FilterOutput(cfg.outputPath, query, FilterInput(cfg.inputPath, query, data)),
                          action(FilterInput(cfg.inputPath, query, data)).value.extra))
  {
  }

  /** A successful action whose output cannot be placed, because a member on the ResultPath
      already holds a non-object, fails the run with States.ResultPathMatchFailure. */
  lemma RunFailsOnObstructedResultPath<X>(cfg: FilterConfig, parse: Parser, query: Query,
                                          action: JSON -> Result<StepResult<X>, Failure>, data: JSON)
    requires cfg.resultPath.Path? && cfg.resultPath.text != RootPath
    requires IsReferencePath(parse(cfg.resultPath.text)) && EndsInMember(parse(cfg.resultPath.text))
    requires FilterInput(cfg.inputPath, query, data).JObj?
    requires action(FilterInput(cfg.inputPath, query, data)).Ok?
    requires !MergeProperties.Unobstructed(FilterInput(cfg.inputPath, query, data), Keys(parse(cfg.resultPath.text)))
    ensures Run(cfg, parse, query, action, data) == Err(ResultPathMatchFailure)
  {
    var input := FilterInput(cfg.inputPath, query, data);
    MergeProperties.MergeSucceedsIffUnobstructed(input, parse(cfg.resultPath.text), action(input).value.output);
  }

  /** End to end: with a member-access ResultPath, no InputPath or OutputPath and a root
      query that returns its argument, the run succeeds exactly when the action does and
      nothing on the way to the last member of the path holds a non-object in the input.
      Then the run's output holds the action's output at the path, and every chain of names
      off the path looks up what it did in the input. */
  lemma RunPlacesResultInOutput<X>(parse: Parser, query: Query, p: string,
                                   action: JSON -> Result<StepResult<X>, Failure>, data: JSON, other: seq<string>)
    requires p != RootPath && IsReferencePath(parse(p)) && EndsInMember(parse(p))
    requires forall v :: query(v, RootPath) == v
    requires data.JObj?
    ensures Run(FilterConfig(Absent, Path(p), Absent), parse, query, action, data).Ok?
        <==> action(data).Ok? && MergeProperties.Unobstructed(data, Keys(parse(p)))
    ensures Run(FilterConfig(Absent, Path(p), Absent), parse, query, action, data).Ok? ==>
              Lookup(Run(FilterConfig(Absent, Path(p), Absent), parse, query, action, data).value.output, Keys(parse(p)))
              == Some(action(data).value.output)
    ensures Run(FilterConfig(Absent, Path(p), Absent), parse, query, action, data).Ok?
            && !(other <= Keys(parse(p))) && !(Keys(parse(p)) <= other) ==>
              Lookup(Run(FilterConfig(Absent, Path(p), Absent), parse, query, action, data).value.output, other)
              == Lookup(data, other)
  {
    assert FilterInput(Absent, query, data) == data;
    if action(data).Ok? {
      ReferencePathMerge(parse, p, data, action(data).value.output, other);
    }
  }

  /** With no ResultPath the output filter is applied to the action's own output, and the
      effective input is dropped. */
  lemma RunOutputsResultWhenAbsent<X>(cfg: FilterConfig, parse: Parser, query: Query,
                                      action: JSON -> Result<StepResult<X>, Failure>, data: JSON)
    requires cfg.resultPath.Absent?
    requires action(FilterInput(cfg.inputPath, query, data)).Ok?
    ensures Run(cfg, parse, query, action, data)
         == Ok(StepResult(FilterOutput(cfg.outputPath, query, action(FilterInput(cfg.inputPath, query, data)).value.output),
                          action(FilterInput(cfg.inputPath, query, data)).value.extra))
  {
  }

  /** A failing action fails the run with its own error, whatever the input and ResultPath:
      the merge is never reached, so the input need not be an object. */
  lemma RunPropagatesActionFailure<X>(cfg: FilterConfig, parse: Parser, query: Query,
                                      action: JSON -> Result<StepResult<X>, Failure>, data: JSON)
    requires action(FilterInput(cfg.inputPath, query, data)).Err?
    ensures Run(cfg, parse, query, action, data) == action(FilterInput(cfg.inputPath, query, data))
  {
  }

  /** `$.x` merges the result `{b: 1}` into the input `{}` as `{x: {b: 1}}`. */
  lemma ResultPathCreatesMember()
    ensures Merge(Empty, [RootSegment, Member("x")], JObj(map["b" := JNum(1)]))
         == Ok(JObj(map["x" := JObj(map["b" := JNum(1)])]))
  {
  }

  /** `$.x.y` cannot be merged into `{x: "not-an-object"}`. */
  lemma ResultPathRejectsPrimitiveIntermediate(result: JSON)
    ensures Merge(JObj(map["x" := JStr("not-an-object")]), [RootSegment, Member("x"), Member("y")], result)
         == Err(ResultPathMatchFailure)
  {
  }
}
