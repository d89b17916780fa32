/** Detection rules and the meaning of "the first matching rule".
    A matcher is a pure, total predicate on tokens, tagged with the entity it detects. */
module Rules {
  import opened Prelude

  datatype Entity = Entity(name: string)
  datatype Matcher = Matcher(entity: Entity, matches: Bytes -> bool)

  datatype MaskSettings = MaskSettings(maskingChar: Bytes, maxSize: int)
  datatype RuleSettings = RuleSettings(strategy: int, redact: Option<Bytes>, mask: Option<MaskSettings>)

  datatype Rule = Rule(disable: bool, name: string, matcher: Matcher, exceptions: seq<Matcher>, settings: RuleSettings)
  {
    function Entity(): Entity { matcher.entity }

    predicate Excepted(data: Bytes) {
      exists i :: 0 <= i < |exceptions| && exceptions[i].matches(data)
    }

    /** The rule takes part in the decision on this token. */
    predicate Live(data: Bytes) {
      !disable && !Excepted(data)
    }

    predicate Fires(data: Bytes) {
      Live(data) && matcher.matches(data)
    }
  }

  /** The reference decision: the first enabled, unexcepted rule whose matcher accepts the token. */
  function FirstMatch(rules: seq<Rule>, data: Bytes): Option<Rule> {
    if rules == [] then None
    else if rules[0].Fires(data) then Some(rules[0])
    else FirstMatch(rules[1..], data)
  }

  lemma {:induction false} FirstMatchIsLeast(rules: seq<Rule>, data: Bytes, i: nat)
    requires i < |rules| && rules[i].Fires(data)
    requires forall j :: 0 <= j < i ==> !rules[j].Fires(data)
    ensures FirstMatch(rules, data) == Some(rules[i])
  {
    if i != 0 {
      FirstMatchIsLeast(rules[1..], data, i - 1);
    }
  }

  lemma {:induction false} NoneFiresMeansNoMatch(rules: seq<Rule>, data: Bytes)
    requires forall j :: 0 <= j < |rules| ==> !rules[j].Fires(data)
    ensures FirstMatch(rules, data) == None
  {
    if rules != [] {
      assert !rules[0].Fires(data);
      NoneFiresMeansNoMatch(rules[1..], data);
    }
  }

  /** Position of the first firing rule, as evidence for a FirstMatch result. */
  lemma {:induction false} FirstMatchWitness(rules: seq<Rule>, data: Bytes) returns (i: nat)
    requires FirstMatch(rules, data).Some?
    ensures i < |rules| && rules[i].Fires(data) && FirstMatch(rules, data) == Some(rules[i])
    ensures forall j :: 0 <= j < i ==> !rules[j].Fires(data)
  {
    if rules[0].Fires(data) {
      i := 0;
    } else {
      var k := FirstMatchWitness(rules[1..], data);
      i := k + 1;
      forall j | 0 <= j < i ensures !rules[j].Fires(data) {
        if j > 0 { assert rules[j] == rules[1..][j - 1]; }
      }
    }
  }

  /** Rule i is enabled, none of its exceptions matches the token, and its matcher does. */
  ghost predicate Detects(rules: seq<Rule>, data: Bytes, i: int) {
    && 0 <= i < |rules| && !rules[i].disable && rules[i].matcher.matches(data)
    && forall k :: 0 <= k < |rules[i].exceptions| ==> !rules[i].exceptions[k].matches(data)
  }

  /** The decision in the fields of the rules themselves. */
  lemma FirstMatchExactly(rules: seq<Rule>, data: Bytes)
    ensures FirstMatch(rules, data) == None <==> forall i :: !Detects(rules, data, i)
    ensures forall rule :: FirstMatch(rules, data) == Some(rule)
              <==> exists i :: Detects(rules, data, i) && rules[i] == rule && forall j :: 0 <= j < i ==> !Detects(rules, data, j)
  {
    forall i | 0 <= i < |rules| ensures rules[i].Fires(data) <==> Detects(rules, data, i) {
      if !Detects(rules, data, i) && rules[i].matcher.matches(data) && !rules[i].disable {
        var k :| 0 <= k < |rules[i].exceptions| && rules[i].exceptions[k].matches(data);
      }
    }
    if FirstMatch(rules, data).Some? {
      var i := FirstMatchWitness(rules, data);
      assert Detects(rules, data, i) && forall j :: 0 <= j < i ==> !Detects(rules, data, j);
    } else {
      forall i ensures !Detects(rules, data, i) {
        if Detects(rules, data, i) { FiringRuleIsFound(rules, data, i); }
      }
    }
  }

  /** Rule i with one more exception. */
  function Excepting(rules: seq<Rule>, i: nat, exception: Matcher): seq<Rule>
    requires i < |rules|
  {
    rules[i := rules[i].(exceptions := rules[i].exceptions + [exception])]
  }

  /** On a token the new exception matches the rule counts as disabled; on any other nothing changes. */
  lemma {:induction false} ExceptionDisables(rules: seq<Rule>, data: Bytes, i: nat, exception: Matcher)
    requires i < |rules|
    ensures var decided, disabled := FirstMatch(Excepting(rules, i, exception), data),
                                     FirstMatch(rules[i := rules[i].(disable := true)], data);
            exception.matches(data) ==> decided == disabled
    ensures !exception.matches(data) ==>
              var decided := FirstMatch(Excepting(rules, i, exception), data);
              decided == FirstMatch(rules, data) || (decided == Some(Excepting(rules, i, exception)[i]) && FirstMatch(rules, data) == Some(rules[i]))
  {
    var excepting, disabled := Excepting(rules, i, exception), rules[i := rules[i].(disable := true)];
    if i == 0 {
      NewException(rules[0], data, exception);
      assert excepting[1..] == rules[1..] == disabled[1..];
    } else {
      assert excepting[1..] == Excepting(rules[1..], i - 1, exception);
      assert disabled[1..] == rules[1..][i - 1 := rules[1..][i - 1].(disable := true)];
      ExceptionDisables(rules[1..], data, i - 1, exception);
    }
  }

  lemma NewException(rule: Rule, data: Bytes, exception: Matcher)
    ensures rule.(exceptions := rule.exceptions + [exception]).Excepted(data) <==> rule.Excepted(data) || exception.matches(data)
  {
    var more := rule.exceptions + [exception];
    if i :| 0 <= i < |rule.exceptions| && rule.exceptions[i].matches(data) { assert more[i].matches(data); }
    assert more[|rule.exceptions|] == exception;
  }

  /** No earlier live rule claims the entity of rules[i]. */
  ghost predicate ClaimsFirst(rules: seq<Rule>, data: Bytes, i: int)
    requires 0 <= i < |rules|
  {
    rules[i].Live(data) &&
    forall j :: 0 <= j < i && rules[j].Entity() == rules[i].Entity() ==> !rules[j].Live(data)
  }

  ghost predicate FirstClaimant(rules: seq<Rule>, data: Bytes, rule: Rule) {
    exists i :: 0 <= i < |rules| && rules[i] == rule && ClaimsFirst(rules, data, i)
  }

  /** What every reported rule must be, whatever the schedule. */
  ghost predicate Sound(rules: seq<Rule>, data: Bytes, rule: Rule) {
    FirstClaimant(rules, data, rule) && rule.matcher.matches(data)
  }

  ghost predicate OneEntityFires(rules: seq<Rule>, data: Bytes) {
    forall i, j :: 0 <= i < |rules| && 0 <= j < |rules| && rules[i].Fires(data) && rules[j].Fires(data)
      ==> rules[i].Entity() == rules[j].Entity()
  }

  /** With a single firing entity the sound answers collapse to the reference decision. */
  lemma SoundIsFirstMatch(rules: seq<Rule>, data: Bytes, rule: Rule)
    requires Sound(rules, data, rule) && OneEntityFires(rules, data)
    ensures FirstMatch(rules, data) == Some(rule)
  {
    var i :| 0 <= i < |rules| && rules[i] == rule && ClaimsFirst(rules, data, i);
    FirstMatchIsLeast(rules, data, i);
  }

  lemma {:induction false} SoundImpliesMatch(rules: seq<Rule>, data: Bytes, rule: Rule)
    requires Sound(rules, data, rule)
    ensures FirstMatch(rules, data).Some?
  {
    var i :| 0 <= i < |rules| && rules[i] == rule && ClaimsFirst(rules, data, i);
    if FirstMatch(rules, data).None? { FiringRuleIsFound(rules, data, i); }
  }

  lemma {:induction false} FiringRuleIsFound(rules: seq<Rule>, data: Bytes, i: nat)
    requires i < |rules| && rules[i].Fires(data)
    ensures FirstMatch(rules, data).Some?
  {
    if i != 0 { FiringRuleIsFound(rules[1..], data, i - 1); }
  }

  /** What each entity really is on each token. */
  type Truth = (Entity, Bytes) -> bool

  /** All matchers of one entity agree: the assumption under which results are shared by entity. */
  ghost predicate Coherent(truth: Truth, rules: seq<Rule>) {
    forall i, d :: 0 <= i < |rules| ==> rules[i].matcher.matches(d) == truth(rules[i].Entity(), d)
  }

  method IsException(token: Bytes, exceptions: seq<Matcher>) returns (found: bool)
    ensures found <==> exists i :: 0 <= i < |exceptions| && exceptions[i].matches(token)
  {
    for k := 0 to |exceptions|
      invariant forall i :: 0 <= i < k ==> !exceptions[i].matches(token)
    {
      if exceptions[k].matches(token) {
        return true;
      }
    }
    return false;
  }
}
