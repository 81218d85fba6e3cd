/**
 * The JSON Schema validator (`Validators\JsonSchema`) and `ValidatorTrait::parse`, which every
 * validator gets: parse the source, validate the value, and return the parsed value.
 * The JSON Schema engine is a parameter: what it does with a node and a schema reference.
 */
module Validators {
  import opened Wrappers
  import opened Text
  import opened Nodes
  import opened Exceptions
  import opened Values
  import opened Json

  /** One entry of the engine's `getErrors()`: its 'property' path and its 'message'. */
  datatype SchemaError = SchemaError(property: string, message: string)

  /** A run of the engine on a node against `{"$ref": ref}`: it throws, or it records its errors. */
  datatype EngineReport = Threw(error: Error) | Reported(errors: seq<SchemaError>)

  /** A `JsonSchema` validator: its engine and the reference of the schema to check against. */
  datatype JsonSchema = JsonSchema(engine: (Node, string) -> EngineReport, ref: string)

  /** One error as `"$%s : %s"`: the root, the property path after a dot when there is one, the message. */
  function ErrorLine(e: SchemaError): (r: string)
    ensures e.property == "" ==> r == "$ : " + e.message
    ensures e.property != "" ==> r == "$." + e.property + " : " + e.message
    ensures |r| >= |e.message| + 4 && r[..1] == "$" && r[|r| - |e.message| - 3..] == " : " + e.message
  {
    "$" + (if e.property != "" then "." + e.property else "") + " : " + e.message
  }

  /** The rendered line of every error, in the engine's order. */
  function ErrorLines(errors: seq<SchemaError>): (ls: seq<string>)
    ensures |ls| == |errors|
    ensures forall i :: 0 <= i < |errors| ==> ls[i] == ErrorLine(errors[i])
    decreases |errors|
  {
    if errors == [] then [] else [ErrorLine(errors[0])] + ErrorLines(errors[1..])
  }

  /** Every line with a full stop appended (the `array_map` before the `implode`). */
  function Dotted(lines: seq<string>): (ds: seq<string>)
    ensures |ds| == |lines|
    ensures forall i :: 0 <= i < |lines| ==> ds[i] == lines[i] + "."
    decreases |lines|
  {
    if lines == [] then [] else [lines[0] + "."] + Dotted(lines[1..])
  }

  /** The indentation of each violation under the heading of the many-errors message. */
  const Indent: string := "\n    "

  /**
   * What the rendered lines make of the validation: success when there are none, one
   * assertion failure naming the single violation, or one listing all of them.
   */
  function Verdict(lines: seq<string>): (r: Result<()>)
    ensures r.Ok? <==> lines == []
    ensures !r.Raise?
    ensures |lines| == 1 ==> r == Fail(Leaf("JSON Schema violation at " + lines[0] + "."))
    ensures |lines| > 1 ==>
              r == Fail(Leaf("JSON Schema violations:" + Prefixed(Indent, Dotted(lines))))
  {
    if |lines| == 1 then
      Fail(Leaf("JSON Schema violation at " + lines[0] + "."))
    else if |lines| > 1 then
      JoinIsPrefixed(Indent, Dotted(lines));
      var j := Join(Indent, Dotted(lines));
      assert "JSON Schema violations:\n    " + j == "JSON Schema violations:" + (Indent + j);
      Fail(Leaf("JSON Schema violations:\n    " + Join(Indent, Dotted(lines))))
    else
      Ok(())
  }

  /**
   * `JsonSchema::validate`: a throwable of the engine becomes a `Runtime` with the same message
   * and the original as its cause; otherwise the verdict on the engine's errors.
   */
  function SchemaOutcome(s: JsonSchema, v: Value): (r: Result<()>)
  {
    match s.engine(v.node, s.ref)
    case Threw(e) => Raise(Runtime(e.message, Some(e)))
    case Reported(errors) => Verdict(ErrorLines(errors))
  }

  /**
   * A value is valid exactly when the engine neither throws nor reports an error; a report never
   * becomes a throwable, a throwable never an assertion failure; the failure keeps the errors' order.
   */
  lemma SchemaOutcomeMeaning(s: JsonSchema, v: Value)
    ensures SchemaOutcome(s, v).Ok? <==> s.engine(v.node, s.ref) == Reported([])
    ensures SchemaOutcome(s, v).Raise? <==> s.engine(v.node, s.ref).Threw?
    ensures s.engine(v.node, s.ref).Threw? ==>
              SchemaOutcome(s, v) == Raise(Runtime(s.engine(v.node, s.ref).error.message,
                                                   Some(s.engine(v.node, s.ref).error)))
    ensures s.engine(v.node, s.ref).Reported? && |s.engine(v.node, s.ref).errors| > 1 ==>
              SchemaOutcome(s, v).failure.msg ==
              "JSON Schema violations:" + Prefixed(Indent, Dotted(ErrorLines(s.engine(v.node, s.ref).errors)))
  {
  }

  /** A single violation at the root reads "JSON Schema violation at $ : <message>.". */
  lemma RootViolation(s: JsonSchema, v: Value, message: string)
    requires s.engine(v.node, s.ref) == Reported([SchemaError("", message)])
    ensures SchemaOutcome(s, v) == Fail(Leaf("JSON Schema violation at $ : " + message + "."))
  {
    assert ErrorLines([SchemaError("", message)]) == [ErrorLine(SchemaError("", message))];
    assert "JSON Schema violation at " + ("$ : " + message) + "." ==
           "JSON Schema violation at $ : " + message + ".";
  }

  /** Three parts, each after its separator. */
  lemma PrefixedThree(sep: string, a: string, b: string, c: string)
    ensures Prefixed(sep, [a, b, c]) == sep + a + sep + b + sep + c
  {
    assert [a, b, c][1..] == [b, c] && [b, c][1..] == [c] && [c][1..] == [];
    calc {
      Prefixed(sep, [a, b, c]);
      sep + a + Prefixed(sep, [b, c]);
      sep + a + (sep + b + Prefixed(sep, [c]));
      sep + a + (sep + b + (sep + c + Prefixed(sep, [])));
      sep + a + (sep + b + (sep + c + ""));
      { assert sep + c + "" == sep + c; }
      sep + a + (sep + b + (sep + c));
      sep + a + sep + b + sep + c;
    }
  }

  /** Three rendered lines give the heading and one indented, dotted line each. */
  lemma ThreeLines(ls: seq<string>)
    requires |ls| == 3
    ensures Verdict(ls) ==
            Fail(Leaf("JSON Schema violations:" + Indent + (ls[0] + ".") + Indent + (ls[1] + ".") + Indent + (ls[2] + ".")))
  {
    var ds := Dotted(ls);
    assert ds == [ds[0], ds[1], ds[2]];
    PrefixedThree(Indent, ds[0], ds[1], ds[2]);
    var p := Indent + ds[0] + Indent + ds[1] + Indent + ds[2];
    assert "JSON Schema violations:" + p ==
           "JSON Schema violations:" + Indent + ds[0] + Indent + ds[1] + Indent + ds[2];
  }

  /** Three violations at the root are listed one per indented line, in the engine's order. */
  lemma ThreeRootViolations(s: JsonSchema, v: Value, m1: string, m2: string, m3: string)
    requires s.engine(v.node, s.ref) == Reported([SchemaError("", m1), SchemaError("", m2), SchemaError("", m3)])
    ensures SchemaOutcome(s, v) ==
            Fail(Leaf("JSON Schema violations:" + Indent + ("$ : " + m1 + ".") + Indent + ("$ : " + m2 + ".")
                      + Indent + ("$ : " + m3 + ".")))
  {
    var ls := ErrorLines([SchemaError("", m1), SchemaError("", m2), SchemaError("", m3)]);
    assert ls[0] == "$ : " + m1 && ls[1] == "$ : " + m2 && ls[2] == "$ : " + m3;
    ThreeLines(ls);
  }

  /** `JsonSchema::validate` as written: the engine's report, then the loop that renders its errors. */
  method Validate(s: JsonSchema, v: Value) returns (r: Result<()>)
    ensures r == SchemaOutcome(s, v)
  {
    var report := s.engine(v.node, s.ref);
    if report.Threw? {
      return Raise(Runtime(report.error.message, Some(report.error)));
    }
    var lines: seq<string> := [];
    var i := 0;
    while i < |report.errors|
      invariant 0 <= i <= |report.errors|
      invariant lines == ErrorLines(report.errors[..i])
    {
      assert report.errors[..i + 1] == report.errors[..i] + [report.errors[i]];
      ErrorLinesAppend(report.errors[..i], report.errors[i]);
      lines := lines + [ErrorLine(report.errors[i])];
      i := i + 1;
    }
    assert report.errors[..i] == report.errors;
    if |lines| == 1 {
      return Fail(Leaf("JSON Schema violation at " + lines[0] + "."));
    }
    if |lines| > 1 {
      return Fail(Leaf("JSON Schema violations:\n    " + Join(Indent, Dotted(lines))));
    }
    return Ok(());
  }

  /** Rendering one more error appends its line. */
  lemma ErrorLinesAppend(errors: seq<SchemaError>, e: SchemaError)
    ensures ErrorLines(errors + [e]) == ErrorLines(errors) + [ErrorLine(e)]
  {
    var l := ErrorLines(errors + [e]);
    assert forall i :: 0 <= i < |errors| ==> (errors + [e])[i] == errors[i];
    assert l == ErrorLines(errors) + [ErrorLine(e)];
  }

  /**
   * `ValidatorTrait::parse`: the source is parsed, the value validated, and the parsed value
   * returned; a decoding error or a validation failure is rethrown as it is.
   */
  function ParseValidated(validator: Value -> Result<()>, source: string, depth: int, options: int,
                          decoder: (string, int, int) -> Decoded): (r: Result<Value>)
  {
    var json := Parse(source, depth, options, decoder);
    if json.Ok? then Values.Validate(json.value, validator) else json
  }

  /**
   * Validated parsing succeeds exactly when parsing does and the validator accepts the value,
   * and then gives the parsed value; otherwise it gives what parsing or validation threw.
   */
  lemma ParseValidatedMeaning(validator: Value -> Result<()>, source: string, depth: int, options: int,
                              decoder: (string, int, int) -> Decoded)
    ensures ParseValidated(validator, source, depth, options, decoder).Ok? <==>
              Parse(source, depth, options, decoder).Ok? && validator(Parse(source, depth, options, decoder).value).Ok?
    ensures ParseValidated(validator, source, depth, options, decoder).Ok? ==>
              ParseValidated(validator, source, depth, options, decoder) == Parse(source, depth, options, decoder)
    ensures !Parse(source, depth, options, decoder).Ok? ==>
              ParseValidated(validator, source, depth, options, decoder) == Parse(source, depth, options, decoder)
    ensures Parse(source, depth, options, decoder).Ok? && !validator(Parse(source, depth, options, decoder).value).Ok? ==>
              ParseValidated(validator, source, depth, options, decoder) ==
              Propagate(validator(Parse(source, depth, options, decoder).value))
  {
  }

  /** A validator that accepts everything leaves `Json::parse` unchanged. */
  lemma AcceptingValidatorIsParse(source: string, depth: int, options: int, decoder: (string, int, int) -> Decoded)
    ensures ParseValidated(_ => Ok(()), source, depth, options, decoder) == Parse(source, depth, options, decoder)
  {
  }

  /**
   * Parsing with a JSON Schema validator fails an assertion exactly when the source decodes
   * and the engine reports errors about the decoded node.
   */
  lemma SchemaParseFails(s: JsonSchema, source: string, depth: int, options: int,
                         decoder: (string, int, int) -> Decoded)
    ensures ParseValidated(v => SchemaOutcome(s, v), source, depth, options, decoder).Fail? <==>
              Parse(source, depth, options, decoder).Ok? &&
              s.engine(Parse(source, depth, options, decoder).value.node, s.ref).Reported? &&
              s.engine(Parse(source, depth, options, decoder).value.node, s.ref).errors != []
  {
    var json := Parse(source, depth, options, decoder);
    if json.Ok? {
      SchemaOutcomeMeaning(s, json.value);
    }
  }
}
