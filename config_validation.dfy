/**
 * `ConfigValidator.validate` of Python/utils/config_manager.py: check every
 * rule of a schema against a configuration, fill in missing required fields
 * from their defaults, and fail with every collected error at the end.
 */
module ConfigValidation {
  import opened Wrappers
  import opened ConfigTree

  /**
   * A `ValidationRule`. The validator is a total predicate on values; a
   * `defaultValue` of `Leaf(Null)` is Python's `default_value=None`.
   */
  datatype Rule = Rule(
    fieldPath: string,
    validator: Node -> bool,
    errorMessage: string,
    required: bool,
    defaultValue: Node)

  datatype ValidationError = ValidationError(fieldPath: string, message: string)

  /**
   * Why `validate` raises: the collected errors (its ConfigError), or the
   * TypeError of writing a default under a value that is not a dictionary.
   */
  datatype ValidateFailure = Invalid(errors: seq<ValidationError>) | Unassignable(fieldPath: string)

  const MissingMessage := "Required field is missing"

  /** The validator's `_get_nested_value`: a missing path and a stored None both read as None. */
  predicate Missing(config: Config, path: string) {
    var v := Lookup(Dict(config), Segments(path));
    v.None? || v == Some(Leaf(Null))
  }

  /** Whether the rule writes its default into the validated copy. */
  predicate FillsDefault(config: Config, rule: Rule) {
    Missing(config, rule.fieldPath) && rule.required && rule.defaultValue != Leaf(Null)
  }

  /** The error one rule records, if any. */
  function RuleError(config: Config, rule: Rule): Option<ValidationError> {
    if Missing(config, rule.fieldPath) then
      if rule.required && rule.defaultValue == Leaf(Null) then Some(ValidationError(rule.fieldPath, MissingMessage))
      else None
    else if !rule.validator(Lookup(Dict(config), Segments(rule.fieldPath)).value) then
      Some(ValidationError(rule.fieldPath, rule.errorMessage))
    else None
  }

  /** The errors of the rules, in rule order. */
  function Errors(config: Config, rules: seq<Rule>): seq<ValidationError>
    decreases |rules|
  {
    if rules == [] then []
    else
      var last := rules[|rules| - 1];
      Errors(config, rules[..|rules| - 1])
        + (if RuleError(config, last).Some? then [RuleError(config, last).value] else [])
  }

  /**
   * The defaults written into `validated`, rule by rule; the first write that
   * meets a value that is not a dictionary stops the run.
   */
  function ApplyDefaults(config: Config, validated: Config, rules: seq<Rule>): Result<Config, string>
    decreases |rules|
  {
    if rules == [] then Ok(validated)
    else if FillsDefault(config, rules[0]) then
      match Assign(validated, Segments(rules[0].fieldPath), rules[0].defaultValue)
      case Err(_) => Err(rules[0].fieldPath)
      case Ok(next) => ApplyDefaults(config, next, rules[1..])
    else ApplyDefaults(config, validated, rules[1..])
  }

  /** What `validate` returns or raises. */
  function ValidateResult(config: Config, rules: seq<Rule>): Result<Config, ValidateFailure> {
    match ApplyDefaults(config, config, rules)
    case Err(path) => Err(Unassignable(path))
    case Ok(validated) =>
      if Errors(config, rules) == [] then Ok(validated) else Err(Invalid(Errors(config, rules)))
  }

  /**
   * `validate`: one pass over the rules, reading from the original
   * configuration and writing defaults into the copy.
   */
  method Validate(config: Config, rules: seq<Rule>) returns (r: Result<Config, ValidateFailure>)
    ensures r == ValidateResult(config, rules)
  {
    var validated := config;
    var errors: seq<ValidationError> := [];
    var i := 0;
    while i < |rules|
      invariant 0 <= i <= |rules|
      invariant errors == Errors(config, rules[..i])
      invariant ApplyDefaults(config, validated, rules[i..]) == ApplyDefaults(config, config, rules)
    {
      var rule := rules[i];
      ValidateNext(config, validated, rules, i);
      var value := GetNestedValue(config, rule.fieldPath, Leaf(Null));
      if value == Leaf(Null) {
        if rule.required {
          if rule.defaultValue != Leaf(Null) {
            var written := Assign(validated, Segments(rule.fieldPath), rule.defaultValue);
            if written.Err? {
              return Err(Unassignable(rule.fieldPath));
            }
            validated := written.value;
          } else {
            errors := errors + [ValidationError(rule.fieldPath, MissingMessage)];
          }
        }
      } else if !rule.validator(value) {
        errors := errors + [ValidationError(rule.fieldPath, rule.errorMessage)];
      }
      i := i + 1;
    }
    assert rules[..|rules|] == rules;
    if errors != [] {
      return Err(Invalid(errors));
    }
    return Ok(validated);
  }

  /** One more rule of `validate`: its error, if any, comes last, and its default, if any, is written first. */
  lemma ValidateNext(config: Config, validated: Config, rules: seq<Rule>, i: nat)
    requires i < |rules|
    ensures Errors(config, rules[..i + 1]) == Errors(config, rules[..i])
      + (if RuleError(config, rules[i]).Some? then [RuleError(config, rules[i]).value] else [])
    ensures !FillsDefault(config, rules[i]) ==>
      ApplyDefaults(config, validated, rules[i..]) == ApplyDefaults(config, validated, rules[i + 1..])
    ensures FillsDefault(config, rules[i]) ==>
      ApplyDefaults(config, validated, rules[i..]) ==
        match Assign(validated, Segments(rules[i].fieldPath), rules[i].defaultValue)
        case Err(_) => Err(rules[i].fieldPath)
        case Ok(next) => ApplyDefaults(config, next, rules[i + 1..])
  {
    assert rules[..i + 1][..i] == rules[..i];
    assert rules[i..][1..] == rules[i + 1..];
  }

  /** No rule records more than one error, and there are none exactly when no rule fails. */
  lemma {:induction false} ErrorsSpec(config: Config, rules: seq<Rule>)
    ensures |Errors(config, rules)| <= |rules|
    ensures Errors(config, rules) == [] <==> forall j :: 0 <= j < |rules| ==> RuleError(config, rules[j]).None?
    decreases |rules|
  {
    if rules != [] {
      var init := rules[..|rules| - 1];
      ErrorsSpec(config, init);
      if Errors(config, rules) == [] {
        forall j | 0 <= j < |rules| ensures RuleError(config, rules[j]).None? {
          if j < |rules| - 1 {
            assert rules[j] == init[j];
          }
        }
      }
    }
  }

  /**
   * `validate` succeeds only when no rule fails, and then every rule's field
   * is either present in the original or was filled from its default.
   */
  lemma ValidateOkMeansClean(config: Config, rules: seq<Rule>)
    requires ValidateResult(config, rules).Ok?
    ensures forall j :: 0 <= j < |rules| ==> RuleError(config, rules[j]).None?
    ensures forall j :: 0 <= j < |rules| && rules[j].required ==>
      !Missing(config, rules[j].fieldPath) || FillsDefault(config, rules[j])
  {
    ErrorsSpec(config, rules);
  }

  /** When some rule fails, `validate` raises; with no failed write, the errors are exactly the failing rules'. */
  lemma ValidateFailsOnError(config: Config, rules: seq<Rule>, j: nat)
    requires j < |rules| && RuleError(config, rules[j]).Some?
    ensures ValidateResult(config, rules).Err?
    ensures ApplyDefaults(config, config, rules).Ok? ==>
      ValidateResult(config, rules) == Err(Invalid(Errors(config, rules)))
  {
    ErrorsSpec(config, rules);
  }

  /**
   * A default written by a rule is what the validated copy holds at its path,
   * as long as no later rule writes a default to a path that meets it.
   */
  lemma {:induction false} DefaultIsFilled(config: Config, validated: Config, rules: seq<Rule>, j: nat)
    requires j < |rules| && FillsDefault(config, rules[j])
    requires ApplyDefaults(config, validated, rules).Ok?
    requires forall l :: j < l < |rules| && FillsDefault(config, rules[l]) ==>
      Diverge(Segments(rules[j].fieldPath), Segments(rules[l].fieldPath))
    ensures Lookup(Dict(ApplyDefaults(config, validated, rules).value), Segments(rules[j].fieldPath))
      == Some(rules[j].defaultValue)
    decreases |rules|
  {
    var rule := rules[0];
    var next := if FillsDefault(config, rule)
      then Assign(validated, Segments(rule.fieldPath), rule.defaultValue).value
      else validated;
    assert ApplyDefaults(config, validated, rules) == ApplyDefaults(config, next, rules[1..]);
    if j == 0 {
      LookupAfterAssign(validated, Segments(rule.fieldPath), rule.defaultValue);
      DefaultSurvives(config, next, rules[1..], Segments(rule.fieldPath));
    } else {
      forall l | j - 1 < l < |rules[1..]| && FillsDefault(config, rules[1..][l])
        ensures Diverge(Segments(rules[1..][j - 1].fieldPath), Segments(rules[1..][l].fieldPath))
      {
        assert rules[1..][l] == rules[l + 1];
      }
      DefaultIsFilled(config, next, rules[1..], j - 1);
    }
  }

  /** Later defaults written to paths that part ways with `keys` leave the value at `keys` alone. */
  lemma {:induction false} DefaultSurvives(config: Config, validated: Config, rules: seq<Rule>, keys: seq<string>)
    requires ApplyDefaults(config, validated, rules).Ok?
    requires forall l :: 0 <= l < |rules| && FillsDefault(config, rules[l]) ==>
      Diverge(keys, Segments(rules[l].fieldPath))
    ensures Lookup(Dict(ApplyDefaults(config, validated, rules).value), keys) == Lookup(Dict(validated), keys)
    decreases |rules|
  {
    if rules != [] {
      var rule := rules[0];
      var next := validated;
      if FillsDefault(config, rule) {
        var path := Segments(rule.fieldPath);
        next := Assign(validated, path, rule.defaultValue).value;
        DivergeSymmetric(keys, path);
        AssignFrame(validated, path, rule.defaultValue, keys);
      }
      forall l | 0 <= l < |rules[1..]| && FillsDefault(config, rules[1..][l])
        ensures Diverge(keys, Segments(rules[1..][l].fieldPath))
      {
        assert rules[1..][l] == rules[l + 1];
      }
      DefaultSurvives(config, next, rules[1..], keys);
    }
  }

  lemma DivergeSymmetric(a: seq<string>, b: seq<string>)
    requires Diverge(a, b)
    ensures Diverge(b, a)
  {
    var i :| 0 <= i < |a| && i < |b| && a[i] != b[i];
    assert b[i] != a[i];
  }
}
