// The rule engine: a line parser for
//   IF (var op val) & (var2 op val2) ... THEN key=value
// rules exported from a decision tree, and a first-match evaluator over a
// map of named inputs that are numbers or strings.
//
// std::stod is not modelled: the parser takes it as a parameter that
// either yields a number or fails, as the try/catch around it does.

module Rules {
  import opened OrderedMap
  import opened Text

  datatype Op = LessThan | LessEqual | GreaterThan | GreaterEqual | Equal | NotEqual

  /** RuleValue: a double (modelled as a real) or a string. */
  datatype Value = Num(x: real) | Str(s: string)

  datatype Condition = Condition(variable: string, op: Op, value: Value)

  datatype Rule = Rule(conditions: seq<Condition>, resultKey: string, resultValue: string)

  // ---------------------------------------------------------------------
  // Operators
  // ---------------------------------------------------------------------

  function OpText(op: Op): string
  {
    match op
    case LessThan => "<"
    case LessEqual => "<="
    case GreaterThan => ">"
    case GreaterEqual => ">="
    case Equal => "=="
    case NotEqual => "!="
  }

  /** parse_operator: any other text falls back to Equal. */
  function ParseOperator(t: string): (op: Op)
    ensures op != Equal ==> OpText(op) == t
  {
    if t == "<" then LessThan
    else if t == "<=" then LessEqual
    else if t == ">" then GreaterThan
    else if t == ">=" then GreaterEqual
    else if t == "==" then Equal
    else if t == "!=" then NotEqual
    else Equal
  }

  /** Every operator's text parses back to it. */
  lemma ParseOperatorInverts(op: Op)
    ensures ParseOperator(OpText(op)) == op
  {
  }

  /** The operator texts in the order parse_line tries them: two-character ones first. */
  const OPERATOR_TEXTS: seq<string> := ["<=", ">=", "==", "!=", "<", ">"]

  /** The texts the parser searches for are exactly the six operators'. */
  lemma OperatorTextsComplete(op: Op)
    ensures OpText(op) in OPERATOR_TEXTS
    ensures forall k | 0 <= k < |OPERATOR_TEXTS| :: OpText(ParseOperator(OPERATOR_TEXTS[k])) == OPERATOR_TEXTS[k]
  {
  }

  /**
   * The first entry of texts that occurs anywhere in seg, with the index
   * of its first occurrence.
   */
  function FirstOperator(seg: string, texts: seq<string>): (r: Option<(string, nat)>)
    ensures r.None? <==> forall k | 0 <= k < |texts| :: Find(seg, texts[k]).None?
    ensures r.Some? ==> exists k | 0 <= k < |texts| ::
      && texts[k] == r.value.0
      && Find(seg, texts[k]) == Some(r.value.1)
      && forall j | 0 <= j < k :: Find(seg, texts[j]).None?
  {
    if texts == [] then None
    else match Find(seg, texts[0])
      case Some(p) => Some((texts[0], p))
      case None =>
        var r := FirstOperator(seg, texts[1..]);
        assert forall k | 1 <= k < |texts| :: texts[k] == texts[1..][k - 1];
        r
  }

  // ---------------------------------------------------------------------
  // Parsing one line
  // ---------------------------------------------------------------------

  /** A value written between a pair of single or double quotes. */
  predicate Quoted(v: string)
  {
    |v| >= 2 && ((v[0] == '\'' && v[|v| - 1] == '\'') || (v[0] == '"' && v[|v| - 1] == '"'))
  }

  /** A quoted value is a string without its quotes; anything else goes through stod. */
  function ParseValue(v: string, stod: string -> Option<real>): Option<Value>
  {
    if Quoted(v) then Some(Str(v[1..|v| - 1]))
    else match stod(v)
      case None => None
      case Some(x) => Some(Num(x))
  }

  /**
   * Removes one opening parenthesis at the front and then one closing
   * parenthesis at the back, leaving an empty segment as it is.
   */
  function StripParens(seg: string): (r: string)
    ensures |r| <= |seg|
  {
    var s1 := if |seg| > 0 && seg[0] == '(' then seg[1..] else seg;
    if |s1| > 0 && s1[|s1| - 1] == ')' then s1[..|s1| - 1] else s1
  }

  /**
   * The parenthesis removal as written: front() and back() of an empty
   * string are undefined, so it is only defined where neither is reached
   * on an empty string.
   */
  function StripParensAsWritten(seg: string): string
    requires |seg| > 0 && (seg[0] == '(' ==> |seg| >= 2)
  {
    var s1 := if seg[0] == '(' then seg[1..] else seg;
    if s1[|s1| - 1] == ')' then s1[..|s1| - 1] else s1
  }

  /** Where the code as written is defined, the guarded removal agrees with it. */
  lemma StripParensAgrees(seg: string)
    requires |seg| > 0 && (seg[0] == '(' ==> |seg| >= 2)
    ensures StripParens(seg) == StripParensAsWritten(seg)
  {
  }

  /** The text after the operator found at p, trimmed: the condition's value as written. */
  function ValueText(seg: string, t: string, p: nat): string
    requires OccursAt(seg, t, p)
  {
    Trim(seg[p + |t|..])
  }

  /** The condition one '&'-separated segment of the premise contributes, if any. */
  function SegmentCondition(segment: string, stod: string -> Option<real>): Option<Condition>
  {
    ConditionIn(StripParens(Trim(segment)), stod)
  }

  /** The condition a trimmed segment without its parentheses states, if any. */
  function ConditionIn(seg: string, stod: string -> Option<real>): Option<Condition>
  {
    match FirstOperator(seg, OPERATOR_TEXTS)
    case None => None
    case Some(found) =>
      var (t, p) := found;
      assert OccursAt(seg, t, p);
      match ParseValue(ValueText(seg, t, p), stod)
      case None => None
      case Some(v) => Some(Condition(Trim(seg[..p]), ParseOperator(t), v))
  }

  /** The conditions of a premise's segments, in order, failed segments dropped. */
  function Conditions(segments: seq<string>, stod: string -> Option<real>): (cs: seq<Condition>)
    ensures |cs| <= |segments|
  {
    if segments == [] then []
    else
      var cs := Conditions(segments[..|segments| - 1], stod);
      match SegmentCondition(segments[|segments| - 1], stod)
      case None => cs
      case Some(c) => cs + [c]
  }

  /** The premise: the text before "THEN", after the first "IF" in it when there is one. */
  function Premise(line: string, thenPos: nat): string
    requires thenPos <= |line|
  {
    var premise := line[..thenPos];
    match Find(premise, "IF")
    case None => premise
    case Some(i) => assert OccursAt(premise, "IF", i); premise[i + 2..]
  }

  /** The text after "THEN", trimmed. */
  function Consequent(line: string, thenPos: nat): string
    requires OccursAt(line, "THEN", thenPos)
  {
    Trim(line[thenPos + 4..])
  }

  /** The rule parse_line appends for one line, or None when it appends none. */
  function LineRule(line: string, stod: string -> Option<real>): Option<Rule>
  {
    match Find(line, "THEN")
    case None => None
    case Some(t) =>
      var consequent := Consequent(line, t);
      var eq := IndexOf(consequent, '=');
      if eq == |consequent| then None
      else Some(Rule(Conditions(Split(Premise(line, t), '&'), stod),
                     Trim(consequent[..eq]), Trim(consequent[eq + 1..])))
  }

  function RuleList(r: Option<Rule>): seq<Rule>
  {
    match r
    case None => []
    case Some(rule) => [rule]
  }

  /** The rules load_rules keeps from a sequence of lines: empty lines skipped, in order. */
  function RulesOf(lines: seq<string>, stod: string -> Option<real>): (rs: seq<Rule>)
    ensures |rs| <= |lines|
  {
    if lines == [] then []
    else
      var line := lines[|lines| - 1];
      RulesOf(lines[..|lines| - 1], stod) + (if line == [] then [] else RuleList(LineRule(line, stod)))
  }

  /** The rules load_rules keeps from the text it is given, one rule per '\n'-terminated line. */
  function ParseRules(content: string, stod: string -> Option<real>): seq<Rule>
  {
    RulesOf(Split(content, '\n'), stod)
  }

  /**
   * A line yields a rule exactly when it contains "THEN" and the trimmed
   * text after it contains '='; the key is then the trimmed text before
   * that '=' and contains none.
   */
  lemma LineRuleExists(line: string, stod: string -> Option<real>)
    ensures LineRule(line, stod).Some? <==>
      Find(line, "THEN").Some? && '=' in Consequent(line, Find(line, "THEN").value)
    ensures LineRule(line, stod).Some? ==> '=' !in LineRule(line, stod).value.resultKey
  {
    match Find(line, "THEN")
    case None =>
    case Some(t) =>
      var c := Consequent(line, t);
      var eq := IndexOf(c, '=');
      if eq == |c| {
        assert c[..eq] == c;
      } else {
        assert c[eq] == '=';
        TrimSlice(c[..eq]);
      }
  }

  /** Trimming only ever keeps a slice: a character it keeps was in the string. */
  lemma TrimSlice(s: string)
    ensures forall ch :: ch in Trim(s) ==> ch in s
  {
    if !AllSpace(s) {
      InnerSpec(s);
    }
  }

  /**
   * A condition always comes from the first operator in the search order
   * that occurs in the segment, and its variable is the trimmed text
   * before that operator.
   */
  lemma ConditionOperator(seg: string, stod: string -> Option<real>)
    requires ConditionIn(seg, stod).Some?
    ensures FirstOperator(seg, OPERATOR_TEXTS).Some?
    ensures var (t, p) := FirstOperator(seg, OPERATOR_TEXTS).value;
      var c := ConditionIn(seg, stod).value;
      && OccursAt(seg, t, p)
      && c.variable == Trim(seg[..p])
      && OpText(c.op) == t
  {
    var (t, p) := FirstOperator(seg, OPERATOR_TEXTS).value;
    assert ConditionIn(seg, stod).value.op == ParseOperator(t);
    assert t in OPERATOR_TEXTS;
    assert OpText(ParseOperator(t)) == t;
  }

  /**
   * Once the operator is found, the segment yields a condition exactly when
   * its value text is quoted or stod accepts it: a quoted value is a string
   * without its quotes, anything else the number stod made of it.
   */
  lemma ConditionValue(seg: string, stod: string -> Option<real>, t: string, p: nat)
    requires FirstOperator(seg, OPERATOR_TEXTS) == Some((t, p))
    ensures OccursAt(seg, t, p)
    ensures var v := ValueText(seg, t, p);
      && (ConditionIn(seg, stod).Some? <==> Quoted(v) || stod(v).Some?)
      && (Quoted(v) ==> ConditionIn(seg, stod).value.value == Str(v[1..|v| - 1]))
      && (!Quoted(v) && stod(v).Some? ==> ConditionIn(seg, stod).value.value == Num(stod(v).value))
  {
  }

  /** A segment that is empty or all whitespace, such as the one between "&&", yields no condition. */
  lemma BlankSegmentDropped(segment: string, stod: string -> Option<real>)
    requires AllSpace(segment)
    ensures SegmentCondition(segment, stod).None?
  {
    assert Trim(segment) == segment;
    var seg := StripParens(segment);
    assert seg == segment;
    forall k | 0 <= k < |OPERATOR_TEXTS|
      ensures Find(seg, OPERATOR_TEXTS[k]).None?
    {
    }
  }

  /**
   * The code as written calls front() on the middle segment of a premise
   * joined with "&&": trimming it leaves the empty string, outside
   * StripParensAsWritten's domain.
   */
  lemma DoubleAmpersandReachesEmptySegment()
    ensures var segments := Split("x&&y", '&');
      && |segments| == 3
      && Trim(segments[1]) == []
  {
    var s := "x&&y";
    assert IndexOf(s, '&') == 1;
    assert s[2..] == "&y";
    assert IndexOf("&y", '&') == 0;
    assert "&y"[1..] == "y";
    assert IndexOf("y", '&') == 1;
    assert Split("y", '&') == ["y"];
    assert Split("&y", '&') == [[]] + ["y"];
    assert Split(s, '&') == [s[..1]] + [[], "y"];
    assert AllSpace([]);
  }

  // ---------------------------------------------------------------------
  // Evaluation
  // ---------------------------------------------------------------------

  /** The tolerance of numeric equality, 1e-9. */
  const EPS: real := 0.000000001

  function Abs(x: real): real
  {
    if x < 0.0 then -x else x
  }

  /** check_condition: input is the value the rule is compared against. */
  function Check(c: Condition, input: Value): bool
  {
    match (c.value, input)
    case (Num(cv), Num(iv)) =>
      (match c.op
       case LessThan => iv < cv
       case LessEqual => iv <= cv
       case GreaterThan => iv > cv
       case GreaterEqual => iv >= cv
       case Equal => Abs(iv - cv) < EPS
       case NotEqual => Abs(iv - cv) > EPS)
    case (Str(cv), Str(iv)) =>
      (match c.op
       case Equal => iv == cv
       case NotEqual => iv != cv
       case _ => false)
    case _ => false
  }

  /**
   * What check_condition decides: a number and a string never compare;
   * strings support only == and !=, which are exact complements; on
   * numbers each order operator is the complement of its converse, while
   * == and != are never both true and both fail at a distance of exactly
   * 1e-9.
   */
  lemma CheckSpec(c: Condition, input: Value)
    ensures c.value.Num? != input.Num? ==> !Check(c, input)
    ensures c.value.Str? && input.Str? ==>
      && (c.op !in {Equal, NotEqual} ==> !Check(c, input))
      && Check(c.(op := Equal), input) != Check(c.(op := NotEqual), input)
      && (Check(c.(op := Equal), input) <==> input == c.value)
    ensures c.value.Num? && input.Num? ==>
      && Check(c.(op := LessThan), input) != Check(c.(op := GreaterEqual), input)
      && Check(c.(op := GreaterThan), input) != Check(c.(op := LessEqual), input)
      && (Check(c.(op := Equal), input) <==> Abs(input.x - c.value.x) < EPS)
      && !(Check(c.(op := Equal), input) && Check(c.(op := NotEqual), input))
      && (Check(c.(op := Equal), input) || Check(c.(op := NotEqual), input) <==> Abs(input.x - c.value.x) != EPS)
  {
  }

  /** Every condition names a present input that satisfies it. */
  predicate Matches(rule: Rule, inputs: map<string, Value>)
  {
    forall k | 0 <= k < |rule.conditions| ::
      rule.conditions[k].variable in inputs && Check(rule.conditions[k], inputs[rule.conditions[k].variable])
  }

  /** The result value of the first matching rule, in load order. */
  function FirstMatch(rules: seq<Rule>, inputs: map<string, Value>): (r: Option<string>)
    ensures r.None? <==> forall k | 0 <= k < |rules| :: !Matches(rules[k], inputs)
    ensures r.Some? ==> exists k | 0 <= k < |rules| ::
      && Matches(rules[k], inputs) && rules[k].resultValue == r.value
      && forall j | 0 <= j < k :: !Matches(rules[j], inputs)
  {
    if rules == [] then None
    else if Matches(rules[0], inputs) then Some(rules[0].resultValue)
    else
      var r := FirstMatch(rules[1..], inputs);
      assert forall k | 1 <= k < |rules| :: rules[k] == rules[1..][k - 1];
      r
  }

  /** The map<string,double> inputs lifted to RuleValue. */
  function Lift(inputs: map<string, real>): (m: map<string, Value>)
    ensures m.Keys == inputs.Keys
    ensures forall k | k in m :: m[k].Num? && m[k].x == inputs[k]
  {
    map k | k in inputs :: Num(inputs[k])
  }

  /** Numeric inputs never satisfy a rule that compares some variable with a string. */
  lemma NumbersNeverMatchStrings(rule: Rule, inputs: map<string, real>, k: nat)
    requires k < |rule.conditions| && rule.conditions[k].value.Str?
    ensures !Matches(rule, Lift(inputs))
  {
    var c := rule.conditions[k];
    if c.variable in inputs {
      assert Lift(inputs)[c.variable].Num?;
    }
  }

  // ---------------------------------------------------------------------
  // The engine
  // ---------------------------------------------------------------------

  /** The operator search of parse_line: tries each text in turn, stopping at the first found. */
  method FindOperator(seg: string) returns (r: Option<(string, nat)>)
    ensures r == FirstOperator(seg, OPERATOR_TEXTS)
  {
    r := None;
    var i := 0;
    while i < |OPERATOR_TEXTS|
      invariant 0 <= i <= |OPERATOR_TEXTS|
      invariant FirstOperator(seg, OPERATOR_TEXTS[i..]) == FirstOperator(seg, OPERATOR_TEXTS)
    {
      FirstOperatorStep(seg, OPERATOR_TEXTS, i);
      var pos := Find(seg, OPERATOR_TEXTS[i]);
      if pos.Some? {
        return Some((OPERATOR_TEXTS[i], pos.value));
      }
      i := i + 1;
    }
  }

  /** Searching from the i-th text: a hit on it, or the search from the next one. */
  lemma FirstOperatorStep(seg: string, texts: seq<string>, i: nat)
    requires i < |texts|
    ensures FirstOperator(seg, texts[i..]) ==
      if Find(seg, texts[i]).Some? then Some((texts[i], Find(seg, texts[i]).value))
      else FirstOperator(seg, texts[i + 1..])
  {
    assert texts[i..][0] == texts[i];
    assert texts[i..][1..] == texts[i + 1..];
  }

  class RuleEngine {
    var rules: seq<Rule>

    constructor()
      ensures rules == []
    {
      rules := [];
    }

    /** load_rules: replaces the rules; true iff at least one line gave a rule. */
    method LoadRules(content: string, stod: string -> Option<real>) returns (ok: bool)
      modifies this`rules
      ensures rules == ParseRules(content, stod)
      ensures ok <==> |rules| > 0
    {
      rules := [];
      var lines := Split(content, '\n');
      var i := 0;
      while i < |lines|
        invariant 0 <= i <= |lines|
        invariant rules == RulesOf(lines[..i], stod)
      {
        assert lines[..i + 1][..i] == lines[..i];
        if lines[i] != [] {
          ParseLine(lines[i], stod);
        }
        i := i + 1;
      }
      assert lines[..|lines|] == lines;
      ok := |rules| > 0;
    }

    /** parse_line: appends the line's rule, if it has one. */
    method ParseLine(line: string, stod: string -> Option<real>)
      modifies this`rules
      ensures rules == old(rules) + RuleList(LineRule(line, stod))
    {
      var thenPos := Find(line, "THEN");
      if thenPos.None? {
        return;
      }
      var t := thenPos.value;
      var conditions := ParseConditions(Split(Premise(line, t), '&'), stod);
      var consequent := Consequent(line, t);
      var eq := IndexOf(consequent, '=');
      if eq < |consequent| {
        var rule := Rule(conditions, Trim(consequent[..eq]), Trim(consequent[eq + 1..]));
        assert LineRule(line, stod) == Some(rule);
        rules := rules + [rule];
      } else {
        assert LineRule(line, stod) == None;
      }
    }

    /** evaluate: the result value of the first rule whose conditions all hold. */
    method Evaluate(inputs: map<string, Value>) returns (r: Option<string>)
      ensures r == FirstMatch(rules, inputs)
    {
      var i := 0;
      while i < |rules|
        invariant 0 <= i <= |rules|
        invariant FirstMatch(rules[i..], inputs) == FirstMatch(rules, inputs)
      {
        var allMet := RuleHolds(rules[i], inputs);
        if allMet {
          return Some(rules[i].resultValue);
        }
        assert rules[i..][1..] == rules[i + 1..];
        i := i + 1;
      }
      return None;
    }

    /** The map<string,double> overload: evaluate on the inputs lifted to RuleValue. */
    method EvaluateNumbers(inputs: map<string, real>) returns (r: Option<string>)
      ensures r == FirstMatch(rules, Lift(inputs))
    {
      var mixed: map<string, Value> := map[];
      var left := inputs.Keys;
      while left != {}
        invariant left <= inputs.Keys
        invariant mixed == map k | k in inputs.Keys - left :: Num(inputs[k])
        decreases |left|
      {
        var key :| key in left;
        mixed := mixed[key := Num(inputs[key])];
        left := left - {key};
      }
      assert mixed == Lift(inputs);
      r := Evaluate(mixed);
    }
  }

  /** The segment loop of parse_line: one condition per segment that yields one. */
  method ParseConditions(segments: seq<string>, stod: string -> Option<real>) returns (conditions: seq<Condition>)
    ensures conditions == Conditions(segments, stod)
  {
    conditions := [];
    var i := 0;
    while i < |segments|
      invariant 0 <= i <= |segments|
      invariant conditions == Conditions(segments[..i], stod)
    {
      ConditionsStep(segments, i, stod);
      var c := ParseSegment(segments[i], stod);
      if c.Some? {
        conditions := conditions + [c.value];
      }
      i := i + 1;
    }
    assert segments[..|segments|] == segments;
  }

  /** One more segment adds its condition, if it yields one, at the end. */
  lemma ConditionsStep(segments: seq<string>, i: nat, stod: string -> Option<real>)
    requires i < |segments|
    ensures var c := SegmentCondition(segments[i], stod);
      Conditions(segments[..i + 1], stod) == Conditions(segments[..i], stod) + (if c.Some? then [c.value] else [])
  {
    assert segments[..i + 1][..i] == segments[..i];
  }

  /** The segment loop body of parse_line: trim, strip the parentheses, split at the operator. */
  method ParseSegment(segment: string, stod: string -> Option<real>) returns (c: Option<Condition>)
    ensures c == SegmentCondition(segment, stod)
  {
    var seg := StripParens(Trim(segment));
    var found := FindOperator(seg);
    if found.None? {
      return None;
    }
    var (t, p) := found.value;
    assert OccursAt(seg, t, p);
    var v := ParseValue(ValueText(seg, t, p), stod);
    if v.None? {
      return None;
    }
    return Some(Condition(Trim(seg[..p]), ParseOperator(t), v.value));
  }

  /** The condition loop of evaluate: every condition's variable is present and satisfied. */
  method RuleHolds(rule: Rule, inputs: map<string, Value>) returns (allMet: bool)
    ensures allMet == Matches(rule, inputs)
  {
    var j := 0;
    while j < |rule.conditions|
      invariant 0 <= j <= |rule.conditions|
      invariant forall k | 0 <= k < j ::
        rule.conditions[k].variable in inputs && Check(rule.conditions[k], inputs[rule.conditions[k].variable])
    {
      var cond := rule.conditions[j];
      if cond.variable !in inputs {
        return false;
      }
      if !Check(cond, inputs[cond.variable]) {
        return false;
      }
      j := j + 1;
    }
    return true;
  }
}
