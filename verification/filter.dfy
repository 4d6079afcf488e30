/** The Filter behaviour of a state: InputPath narrows the raw input, ResultPath merges the
    action's result into the effective input, OutputPath narrows the merged value, in the
    order input filter -> action -> result merge -> output filter. */
module Filter {
  import opened Results
  import opened Json
  import opened Segments

  /** The value of an InputPath, ResultPath or OutputPath field: not given, an explicit
      `null`, or a path string. */
  datatype PathField = Absent | Null | Path(text: string)

  /** The three filtering fields of a state definition. */
  datatype FilterConfig = FilterConfig(inputPath: PathField, resultPath: PathField, outputPath: PathField)

  /** How a state run can fail: the ResultPath merge could not apply, or the wrapped action
      failed with its own error and cause. */
  datatype Failure = ResultPathMatchFailure | ActionFailure(error: string, cause: string)

  /** What the wrapped action resolves with: its `output` plus whatever other fields it
      carries, which the filter hands back untouched. */
  datatype StepResult<X> = StepResult(output: JSON, extra: X)

  /** The path resolver's extraction of a path from a value (uninterpreted). */
  type Query = (JSON, string) -> JSON

  /** The path resolver's parser, from a path string to its segments (uninterpreted). */
  type Parser = string -> seq<Segment>

  /** The root path, the default of InputPath and OutputPath. */
  const RootPath: string := "$"

  /** The path string a field that is not `null` selects: its text, or `$` when it is
      missing. */
  function PathOrRoot(field: PathField): string
    requires !field.Null?
  {
    if field.Path? then field.text else RootPath
  }

  /** The effective input of a state, given its raw input `data`. */
  function FilterInput(inputPath: PathField, query: Query, data: JSON): (r: JSON)
    ensures inputPath.Null? ==> r == Empty
    ensures !inputPath.Null? ==> r == query(data, PathOrRoot(inputPath))
  {
    match inputPath
    case Null => Empty
    case Absent => query(data, RootPath)
    case Path(p) => query(data, p)
  }

  /** The merge walks its input as an object: ResultPath is a path string other than `$`
      whose first step after the root markers reads a member. */
  predicate WalksInput(resultPath: PathField, parse: Parser) {
    resultPath.Path? && resultPath.text != RootPath && LeadsWithMember(parse(resultPath.text))
  }

  /** The ResultPath walk over parsed segments. Root markers are skipped; a member access
      that is the very last segment overwrites that member with `result`; any earlier member
      access descends into an existing object member or into a fresh `{}` where the member is
      missing, and fails when the member exists but holds null, a primitive or an array; any
      other segment fails. Returns the updated `target`. */
  function Merge(target: JSON, segs: seq<Segment>, result: JSON): (r: Result<JSON, Failure>)
    requires LeadsWithMember(segs) ==> target.JObj?
    ensures r.Err? ==> r.error == ResultPathMatchFailure
    ensures r.Ok? && !target.JObj? ==> r.value == target
    ensures r.Ok? && target.JObj? ==> r.value.JObj? && target.fields.Keys <= r.value.fields.Keys
    decreases |segs|
  {
    if segs == [] then Ok(target)
    else if IsRoot(segs[0]) then Merge(target, segs[1..], result)
    else if !IsMemberChild(segs[0]) then Err(ResultPathMatchFailure)
    else
      var key := segs[0].value;
      var fields := target.fields;
      if |segs| == 1 then Ok(JObj(fields[key := result]))
      else if key in fields && !fields[key].JObj? then Err(ResultPathMatchFailure)
      else
        var child := if key in fields then fields[key] else Empty;
        match Merge(child, segs[1..], result)
        case Ok(updated) => Ok(JObj(fields[key := updated]))
        case Err(e) => Err(e)
  }

  /** The merged value of a state: the action's `result` combined with the effective
      `input` as ResultPath directs. */
  function FilterResult(resultPath: PathField, parse: Parser, input: JSON, result: JSON): (r: Result<JSON, Failure>)
    requires WalksInput(resultPath, parse) ==> input.JObj?
    ensures resultPath.Absent? || resultPath == Path(RootPath) ==> r == Ok(result)
    ensures resultPath.Null? ==> r == Ok(input)
    ensures r.Err? ==> r.error == ResultPathMatchFailure
    ensures r.Ok? && WalksInput(resultPath, parse) ==> r.value.JObj? && input.fields.Keys <= r.value.fields.Keys
  {
    match resultPath
    case Absent => Ok(result)
    case Null => Ok(input)
    case Path(p) => if p == RootPath then Ok(result) else Merge(input, parse(p), result)
  }

  /** The effective output of a state, given its merged value. */
  function FilterOutput(outputPath: PathField, query: Query, merged: JSON): (r: JSON)
    ensures outputPath.Null? ==> r == Empty
    ensures !outputPath.Null? ==> r == query(merged, PathOrRoot(outputPath))
  {
    match outputPath
    case Null => Empty
    case Absent => query(merged, RootPath)
    case Path(p) => query(merged, p)
  }

  /** One filtered run of a state whose wrapped action is `action`: the action and the merge
      both receive the effective input, the output filter receives the merged value, and the
      action's other fields are kept. A failing action or merge fails the run; a failing
      action never reaches the merge, so only a successful one needs an object input. */
  function Run<X>(cfg: FilterConfig, parse: Parser, query: Query,
                  action: JSON -> Result<StepResult<X>, Failure>, data: JSON): (r: Result<StepResult<X>, Failure>)
    requires WalksInput(cfg.resultPath, parse) && action(FilterInput(cfg.inputPath, query, data)).Ok?
             ==> FilterInput(cfg.inputPath, query, data).JObj?
    ensures r.Ok? ==> action(FilterInput(cfg.inputPath, query, data)).Ok?
    ensures r.Ok? ==>
              var input := FilterInput(cfg.inputPath, query, data);
              var merged := FilterResult(cfg.resultPath, parse, input, action(input).value.output);
              merged.Ok? && r.value.output == FilterOutput(cfg.outputPath, query, merged.value)
    ensures r.Ok? ==> r.value.extra == action(FilterInput(cfg.inputPath, query, data)).value.extra
    ensures cfg.outputPath.Null? && r.Ok? ==> r.value.output == Empty
    ensures action(FilterInput(cfg.inputPath, query, data)).Ok? ==>
              var input := FilterInput(cfg.inputPath, query, data);
              (r.Ok? <==> FilterResult(cfg.resultPath, parse, input, action(input).value.output).Ok?)
    ensures action(FilterInput(cfg.inputPath, query, data)).Ok? && r.Err? ==> r.error == ResultPathMatchFailure
    ensures action(FilterInput(cfg.inputPath, query, data)).Err? ==> r == action(FilterInput(cfg.inputPath, query, data))
  {
    var input := FilterInput(cfg.inputPath, query, data);
    match action(input)
    case Err(e) => Err(e)
    case Ok(step) =>
      match FilterResult(cfg.resultPath, parse, input, step.output)
      case Err(e) => Err(e)
      case Ok(merged) => Ok(StepResult(FilterOutput(cfg.outputPath, query, merged), step.extra))
  }
}
