/** pyMusicSync/filter.py: a conjunction of rules over a track's tag fields.
    A rule compares one field with a value, either by a regular-expression
    search or by `<=`; a filter passes a track when every rule does. */
module Filter {
  import opened Wrappers
  import opened Text

  /** A tag field's value as Python sees it: a string, a number or `None`. */
  datatype Value = VStr(s: string) | VNum(n: real) | VNone

  /** The fields of a track, subscripted as `metadata[field]`. */
  type Fields = map<string, Value>

  /** The `re` engine: which patterns compile, and `re.search`. */
  datatype RegexEngine = RegexEngine(compiles: string -> bool, search: (string, string) -> bool)

  /** A rule as `FilterRule` stores it. For "regex" the value is the pattern
      `re.compile` accepted; for every other operator it is the value as given. */
  datatype FilterRule = FilterRule(field: string, operator: string, value: Value)

  /** `FilterRule(field, operator, value)`: only "regex" looks at the value,
      and `re.compile` rejects a non-string (TypeError) or a bad pattern; any
      other operator, known or not, is accepted as it is. */
  function NewRule(field: string, operator: string, value: Value, re: RegexEngine): (r: Result<FilterRule>)
    ensures operator != "regex" ==> r == Ok(FilterRule(field, operator, value))
    ensures operator == "regex" ==> (r.Ok? <==> value.VStr? && re.compiles(value.s))
    ensures r.Ok? ==> r.value == FilterRule(field, operator, value)
    ensures r.Err? ==> r.error in {TypeError, RegexError}
  {
    if operator == "regex" then
      match value
      case VStr(p) => if re.compiles(p) then Ok(FilterRule(field, operator, value)) else Err(RegexError)
      case _ => Err(TypeError)
    else Ok(FilterRule(field, operator, value))
  }

  /** Python's `a <= b` on two field values: strings in code-point order,
      numbers numerically, anything else a TypeError. */
  function LessEq(a: Value, b: Value): (r: Result<bool>)
    ensures r.Ok? <==> (a.VStr? && b.VStr?) || (a.VNum? && b.VNum?)
    ensures a.VNum? && b.VNum? ==> r == Ok(a.n <= b.n)
    ensures a.VStr? && b.VStr? ==> r == Ok(LexLe(a.s, b.s))
  {
    match (a, b)
    case (VStr(x), VStr(y)) => Ok(LexLe(x, y))
    case (VNum(x), VNum(y)) => Ok(x <= y)
    case _ => Err(TypeError)
  }

  /** `FilterRule.execute(metadata)`. The operator is examined before the field
      is read, so an unknown operator raises NotImplementedError even on a
      track that lacks the field. */
  function RuleExecute(rule: FilterRule, metadata: Fields, re: RegexEngine): (r: Result<bool>)
    ensures rule.operator != "regex" && rule.operator != "<=" ==> r == Err(NotImplementedError)
    ensures (rule.operator == "regex" || rule.operator == "<=") && rule.field !in metadata ==> r == Err(KeyError)
    ensures rule.operator == "<=" && rule.field in metadata ==> r == LessEq(metadata[rule.field], rule.value)
    ensures rule.operator == "regex" && rule.field in metadata && metadata[rule.field].VStr?
              && rule.value.VStr? && re.compiles(rule.value.s)
            ==> r == Ok(re.search(rule.value.s, metadata[rule.field].s))
  {
    if rule.operator == "regex" then
      if rule.field !in metadata then Err(KeyError)
      else match (rule.value, metadata[rule.field])
        case (VStr(p), VStr(text)) => if re.compiles(p) then Ok(re.search(p, text)) else Err(RegexError)
        case _ => Err(TypeError)
    else if rule.operator == "<=" then
      if rule.field !in metadata then Err(KeyError)
      else LessEq(metadata[rule.field], rule.value)
    else Err(NotImplementedError)
  }

  /** `Filter.execute(metadata)` as a specification: the rules in order, the
      first False answers False, the first exception escapes, and True when
      every rule said True. */
  function AllPass(rules: seq<FilterRule>, metadata: Fields, re: RegexEngine): Result<bool> {
    if rules == [] then Ok(true)
    else match RuleExecute(rules[0], metadata, re)
      case Err(e) => Err(e)
      case Ok(b) => if !b then Ok(false) else AllPass(rules[1..], metadata, re)
  }

  /** A filter passes exactly when every rule, evaluated on its own, passes. */
  lemma {:induction false} AllPassIff(rules: seq<FilterRule>, metadata: Fields, re: RegexEngine)
    ensures AllPass(rules, metadata, re) == Ok(true)
        <==> forall i :: 0 <= i < |rules| ==> RuleExecute(rules[i], metadata, re) == Ok(true)
  {
    if rules != [] {
      AllPassIff(rules[1..], metadata, re);
      assert forall i :: 1 <= i < |rules| ==> rules[i] == rules[1..][i - 1];
    }
  }

  /** Once the rules so far have not all passed, appending rules changes
      nothing: they are never evaluated. */
  lemma {:induction false} AllPassIgnoresLater(rules: seq<FilterRule>, later: seq<FilterRule>, metadata: Fields, re: RegexEngine)
    requires AllPass(rules, metadata, re) != Ok(true)
    ensures AllPass(rules + later, metadata, re) == AllPass(rules, metadata, re)
  {
    assert rules != [];
    assert (rules + later)[0] == rules[0];
    assert (rules + later)[1..] == rules[1..] + later;
    if RuleExecute(rules[0], metadata, re) == Ok(true) {
      AllPassIgnoresLater(rules[1..], later, metadata, re);
    }
  }

  /** When the rules so far all pass, the verdict is that of the rules after them. */
  lemma {:induction false} AllPassContinues(rules: seq<FilterRule>, later: seq<FilterRule>, metadata: Fields, re: RegexEngine)
    requires AllPass(rules, metadata, re) == Ok(true)
    ensures AllPass(rules + later, metadata, re) == AllPass(later, metadata, re)
  {
    if rules == [] {
      assert rules + later == later;
    } else {
      assert (rules + later)[0] == rules[0];
      assert (rules + later)[1..] == rules[1..] + later;
      AllPassContinues(rules[1..], later, metadata, re);
    }
  }

  /** A rule with an unknown operator placed after a rule that fails is never
      evaluated, so the filter answers False rather than raising. */
  lemma UnknownOperatorAfterFalse(field: string, bound: string, text: string, re: RegexEngine)
    requires !LexLe(text, bound)
    ensures var rules := [FilterRule(field, "<=", VStr(bound)), FilterRule(field, "~", VStr(bound))];
      AllPass(rules, map[field := VStr(text)], re) == Ok(false)
  {
    var rules := [FilterRule(field, "<=", VStr(bound)), FilterRule(field, "~", VStr(bound))];
    var metadata := map[field := VStr(text)];
    assert RuleExecute(rules[0], metadata, re) == Ok(false);
  }

  /** The class attribute `Filter.rules`: one list that every `Filter` shares. */
  class RuleRegistry {
    var rules: seq<FilterRule>

    constructor()
      ensures rules == []
    {
      rules := [];
    }
  }

  /** A `Filter` instance. It owns no rules of its own: `self.rules` resolves
      to the shared class attribute. */
  class Filter {
    const registry: RuleRegistry

    constructor(registry: RuleRegistry)
      ensures this.registry == registry
    {
      this.registry := registry;
    }

    /** `addRule(field, operator, value)`: build the rule and append it to the
        shared list; a rule whose construction raises is not appended. */
    method AddRule(field: string, operator: string, value: Value, re: RegexEngine) returns (r: Result<FilterRule>)
      modifies registry
      ensures r == NewRule(field, operator, value, re)
      ensures r.Ok? ==> registry.rules == old(registry.rules) + [r.value]
      ensures r.Err? ==> registry.rules == old(registry.rules)
    {
      r := NewRule(field, operator, value, re);
      if r.Ok? {
        registry.rules := registry.rules + [r.value];
      }
    }

    /** `execute(metadata)`: the loop over the shared rules with an early return. */
    method Execute(metadata: Fields, re: RegexEngine) returns (r: Result<bool>)
      ensures r == AllPass(registry.rules, metadata, re)
    {
      var rules := registry.rules;
      var i := 0;
      while i < |rules|
        invariant 0 <= i <= |rules|
        invariant AllPass(rules[..i], metadata, re) == Ok(true)
      {
        var v := RuleExecute(rules[i], metadata, re);
        assert rules[..i + 1] == rules[..i] + [rules[i]];
        AllPassContinues(rules[..i], [rules[i]], metadata, re);
        if v.Err? {
          AllPassIgnoresLater(rules[..i + 1], rules[i + 1..], metadata, re);
          assert rules[..i + 1] + rules[i + 1..] == rules;
          return Err(v.error);
        }
        if !v.value {
          AllPassIgnoresLater(rules[..i + 1], rules[i + 1..], metadata, re);
          assert rules[..i + 1] + rules[i + 1..] == rules;
          return Ok(false);
        }
        i := i + 1;
      }
      assert rules[..i] == rules;
      r := Ok(true);
    }
  }

  /** Two filters see the same rules: a rule added through one is applied by
      the other. */
  method SharedRules(re: RegexEngine) returns (seen: seq<FilterRule>, verdict: Result<bool>)
    ensures seen == [FilterRule("album", "<=", VStr("M"))]
    ensures verdict == Ok(false)
  {
    var registry := new RuleRegistry();
    var first := new Filter(registry);
    var second := new Filter(registry);
    var added := first.AddRule("album", "<=", VStr("M"), re);
    seen := second.registry.rules;
    assert !LexLe("Z", "M");
    verdict := second.Execute(map["album" := VStr("Z")], re);
    assert AllPass(seen, map["album" := VStr("Z")], re) == Ok(false) by {
      assert RuleExecute(seen[0], map["album" := VStr("Z")], re) == Ok(false);
    }
  }
}
