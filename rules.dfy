/** Platform-rule evaluation (main.py:52-66): an ordered scan over a rule
    list in which an enabling `allow` sets the running result and a
    `disallow` for the current OS clears it and stops the scan. */
module Rules {
  import opened Schema

  /** An `allow` rule with no OS constraint, or one naming the current OS. */
  predicate Enables(rule: Rule, osName: string)
  {
    rule.action == "allow" && (rule.os.None? || rule.os.value == osName)
  }

  /** A `disallow` rule naming the current OS. A `disallow` without an OS
      constraint never blocks. */
  predicate Blocks(rule: Rule, osName: string)
  {
    rule.action == "disallow" && rule.os == Some(osName)
  }

  /** The truth table of the scan: some rule enables and no rule blocks. A
      blocking rule wins wherever it stands, and an empty list gives false. */
  predicate Applies(rules: seq<Rule>, osName: string)
  {
    && (exists i :: 0 <= i < |rules| && Enables(rules[i], osName))
    && (forall i :: 0 <= i < |rules| ==> !Blocks(rules[i], osName))
  }

  /** `check_rules`. */
  method CheckRules(rules: seq<Rule>, osName: string) returns (result: bool)
    ensures result == Applies(rules, osName)
  {
    result := false;
    var i := 0;
    while i < |rules|
      invariant 0 <= i <= |rules|
      invariant result == exists j :: 0 <= j < i && Enables(rules[j], osName)
      invariant forall j :: 0 <= j < i ==> !Blocks(rules[j], osName)
    {
      var rule := rules[i];
      if rule.action == "allow" {
        if rule.os.None? {
          result := true;
        } else if osName == rule.os.value {
          result := true;
        }
      }
      if rule.action == "disallow" && rule.os.Some? {
        if osName == rule.os.value {
          result := false;
          break;
        }
      }
      i := i + 1;
    }
  }

  /** Inserting a `disallow` without an OS constraint anywhere in a rule list
      never changes its verdict. */
  lemma NonOsDisallowInert(rules: seq<Rule>, k: nat, osName: string)
    requires k <= |rules|
    ensures Applies(rules[..k] + [Rule("disallow", None)] + rules[k..], osName) == Applies(rules, osName)
  {
    var r := rules[..k] + [Rule("disallow", None)] + rules[k..];
    assert forall i :: 0 <= i < k ==> r[i] == rules[i];
    assert forall i :: k <= i < |rules| ==> r[i + 1] == rules[i];
    if exists i :: 0 <= i < |r| && Enables(r[i], osName) {
      var i :| 0 <= i < |r| && Enables(r[i], osName);
      assert i != k;
      if i < k {
        assert Enables(rules[i], osName);
      } else {
        assert Enables(rules[i - 1], osName);
      }
    }
    if exists i :: 0 <= i < |r| && Blocks(r[i], osName) {
      var i :| 0 <= i < |r| && Blocks(r[i], osName);
      assert i != k;
      if i < k {
        assert Blocks(rules[i], osName);
      } else {
        assert Blocks(rules[i - 1], osName);
      }
    }
  }

  /** A blocking rule anywhere makes the list fail, whatever allows come
      before or after it. */
  lemma BlockWins(before: seq<Rule>, rule: Rule, after: seq<Rule>, osName: string)
    requires Blocks(rule, osName)
    ensures !Applies(before + [rule] + after, osName)
  {
    assert (before + [rule] + after)[|before|] == rule;
  }

  /** The rule lists that document the evaluator's asymmetry. */
  lemma DocumentedVerdicts(x: string)
    ensures Applies([Rule("allow", None)], x)
    ensures !Applies([Rule("allow", None), Rule("disallow", Some(x))], x)
    ensures !Applies([Rule("disallow", Some(x))], x)
    ensures !Applies([Rule("disallow", None)], x)
    ensures !Applies([], x)
  {
    assert Enables([Rule("allow", None)][0], x);
    assert Blocks([Rule("allow", None), Rule("disallow", Some(x))][1], x);
  }
}
