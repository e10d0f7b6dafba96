/** `evaluate_request_rules`: the per-server rules applied to a tool call's arguments. */
module RequestRules {
  import opened Json

  /** What `float(x)` gives, or how it fails. */
  datatype Float = Finite(r: real) | PosInf | NegInf | NotANumber | Rejected | TooLarge {
    predicate Numeric() { Finite? || PosInf? || NegInf? }

    /** IEEE comparison `this > that`. */
    predicate Above(that: Float) {
      match (this, that)
      case (Finite(a), Finite(b)) => a > b
      case (PosInf, Finite(_)) => true
      case (PosInf, NegInf) => true
      case (Finite(_), NegInf) => true
      case _ => false
    }
  }

  /** The library calls the evaluator makes. */
  datatype Library = Library(fnmatch: (string, string) -> bool, str: Json -> string, float: Json -> Float)

  /** A rule; `tool` is `*` and `key` is empty when the rule does not say. */
  datatype Rule = Rule(tool: string, kind: string, id: string, key: string,
                       value: Option<Json>, prepend: Option<Json>, append: Option<Json>, max: Option<Json>)

  type Arguments = map<string, Json>

  datatype Outcome = Done(args: Arguments) | Blocked(ruleId: string) | Missing(key: string, ruleId: string) | Raised

  function Inject(lib: Library, rule: Rule, args: Arguments): (r: Outcome) {
    if rule.key == "" then Done(args)
    else if rule.value.Some? then Done(args[rule.key := rule.value.value])
    else if rule.prepend.Some? && rule.key in args then
      if rule.prepend.value.Str? then Done(args[rule.key := Str(rule.prepend.value.s + lib.str(args[rule.key]))])
      else Raised
    else if rule.append.Some? && rule.key in args then
      if rule.append.value.Str? then Done(args[rule.key := Str(lib.str(args[rule.key]) + rule.append.value.s)])
      else Raised
    else if rule.prepend.Some? then Done(args[rule.key := rule.prepend.value])
    else Done(args)
  }

  function Cap(lib: Library, rule: Rule, args: Arguments): (r: Outcome) {
    if rule.key == "" || rule.max.None? || rule.max.value == Null || rule.key !in args then Done(args)
    else
      var now, cap := lib.float(args[rule.key]), lib.float(rule.max.value);
      if now.TooLarge? then Raised
      else if now.Rejected? then Done(args)
      else if cap.TooLarge? then Raised
      else if cap.Rejected? then Done(args)
      else if now.Above(cap) then Done(args[rule.key := rule.max.value])
      else Done(args)
  }

  predicate Applies(lib: Library, tool: string, rule: Rule) { lib.fnmatch(tool, rule.tool) }

  function Apply(lib: Library, tool: string, rule: Rule, args: Arguments): (r: Outcome) {
    if !Applies(lib, tool, rule) then Done(args)
    else if rule.kind == "block_tool" then Blocked(rule.id)
    else if rule.kind == "inject_param" then Inject(lib, rule, args)
    else if rule.kind == "require_param" then
      if rule.key != "" && rule.key !in args then Missing(rule.key, rule.id) else Done(args)
    else if rule.kind == "cap_param" then Cap(lib, rule, args)
    else Done(args)
  }

  function Evaluate(lib: Library, tool: string, rules: seq<Rule>, args: Arguments): (r: Outcome)
    decreases |rules|
  {
    if rules == [] then Done(args)
    else
      var next := Apply(lib, tool, rules[0], args);
      if next.Done? then Evaluate(lib, tool, rules[1..], next.args) else next
  }

  method EvaluateRequestRules(lib: Library, rules: seq<Rule>, tool: string, arguments0: Arguments) returns (r: Outcome)
    ensures r == Evaluate(lib, tool, rules, arguments0)
  {
    var arguments := arguments0;
    for i := 0 to |rules|
      invariant Evaluate(lib, tool, rules[i..], arguments) == Evaluate(lib, tool, rules, arguments0)
    {
      var rule := rules[i];
      assert rules[i..][1..] == rules[i + 1..];
      if !Applies(lib, tool, rule) { continue; }
      if rule.kind == "block_tool" {
        return Blocked(rule.id);
      } else if rule.kind == "inject_param" {
        var next := Inject(lib, rule, arguments);
        if !next.Done? { return next; }
        arguments := next.args;
      } else if rule.kind == "require_param" {
        if rule.key != "" && rule.key !in arguments { return Missing(rule.key, rule.id); }
      } else if rule.kind == "cap_param" {
        var next := Cap(lib, rule, arguments);
        if !next.Done? { return next; }
        arguments := next.args;
      }
    }
    return Done(arguments);
  }

  // ----- the outcome, exactly: one argument at a time, and no assumption on rules or library

  function At(args: Arguments, key: string): (r: Option<Json>) { if key in args then Some(args[key]) else None }

  /** An injection that puts its key in place when it is not there. */
  predicate Adds(rule: Rule) {
    rule.kind == "inject_param" && rule.key != "" && (rule.value.Some? || rule.prepend.Some?)
  }

  /** The injection glues something other than text to a value that is there. */
  predicate GluesNonText(rule: Rule) {
    && rule.kind == "inject_param" && rule.key != "" && rule.value.None?
    && if rule.prepend.Some? then !rule.prepend.value.Str? else rule.append.Some? && !rule.append.value.Str?
  }

  predicate Capping(rule: Rule) {
    rule.kind == "cap_param" && rule.key != "" && rule.max.Some? && rule.max.value != Null
  }

  /** Comparing the value with the cap overflows. */
  predicate Overflows(lib: Library, rule: Rule, value: Json) {
    && Capping(rule)
    && var now := lib.float(value);
       now.TooLarge? || (!now.Rejected? && lib.float(rule.max.value).TooLarge?)
  }

  /** How an applying rule stops a call in which the argument it names is `v`; nothing if it does not. */
  function Verdict(lib: Library, tool: string, rule: Rule, v: Option<Json>): (r: Option<Outcome>)
    ensures r.Some? ==> !r.value.Done?
  {
    if !Applies(lib, tool, rule) then None
    else if rule.kind == "block_tool" then Some(Blocked(rule.id))
    else if v.None? then
      if rule.kind == "require_param" && rule.key != "" then Some(Missing(rule.key, rule.id)) else None
    else if GluesNonText(rule) || Overflows(lib, rule, v.value) then Some(Raised)
    else None
  }

  /** What a rule that does not stop the call makes of the argument it names. */
  function Rewrite(lib: Library, rule: Rule, v: Option<Json>): (r: Option<Json>) {
    if rule.key == "" then v
    else if rule.kind == "inject_param" then
      if rule.value.Some? then rule.value
      else if v.None? then rule.prepend
      else if rule.prepend.Some? && rule.prepend.value.Str? then Some(Str(rule.prepend.value.s + lib.str(v.value)))
      else if rule.prepend.None? && rule.append.Some? && rule.append.value.Str? then
        Some(Str(lib.str(v.value) + rule.append.value.s))
      else v
    else if Capping(rule) && v.Some? && lib.float(v.value).Above(lib.float(rule.max.value)) then rule.max
    else v
  }

  /** The argument `key` after the rules, from its value before them: no other argument has a say. */
  function Track(lib: Library, tool: string, rules: seq<Rule>, key: string, v: Option<Json>): (r: Option<Json>)
    decreases |rules|
  {
    if rules == [] then v
    else Track(lib, tool, rules[1..], key, Follow(lib, tool, rules[0], key, v))
  }

  function Follow(lib: Library, tool: string, rule: Rule, key: string, v: Option<Json>): (r: Option<Json>) {
    if Applies(lib, tool, rule) && rule.key == key then Rewrite(lib, rule, v) else v
  }

  /** The verdict of rule `i` on a call with these arguments. */
  function VerdictAt(lib: Library, tool: string, rules: seq<Rule>, i: nat, args: Arguments): (r: Option<Outcome>)
    requires i < |rules|
    ensures r.Some? ==> !r.value.Done?
  {
    Verdict(lib, tool, rules[i], Track(lib, tool, rules[..i], rules[i].key, At(args, rules[i].key)))
  }

  lemma ApplyExactly(lib: Library, tool: string, rule: Rule, args: Arguments)
    ensures var r, verdict := Apply(lib, tool, rule, args), Verdict(lib, tool, rule, At(args, rule.key));
            && (verdict.Some? ==> r == verdict.value)
            && (verdict.None? ==>
                  r.Done? && forall key :: At(r.args, key) == Follow(lib, tool, rule, key, At(args, key)))
  {}

  /** Dropping the first rule and applying it to the arguments leaves every later verdict alone. */
  lemma VerdictShift(lib: Library, tool: string, rules: seq<Rule>, i: nat, args: Arguments, next: Arguments)
    requires i + 1 < |rules|
    requires forall key :: At(next, key) == Follow(lib, tool, rules[0], key, At(args, key))
    ensures VerdictAt(lib, tool, rules, i + 1, args) == VerdictAt(lib, tool, rules[1..], i, next)
  {
    assert rules[..i + 1][1..] == rules[1..][..i] && rules[..i + 1][0] == rules[0];
  }

  /** The rules succeed exactly when none of them stops the call, each judged on what the rules before
      it made of the one argument it names; on success every argument is what they made of it. */
  lemma {:induction false} SuccessExactly(lib: Library, tool: string, rules: seq<Rule>, args: Arguments)
    ensures var r := Evaluate(lib, tool, rules, args);
            && (r.Done? <==> forall i :: 0 <= i < |rules| ==> VerdictAt(lib, tool, rules, i, args).None?)
            && (r.Done? ==> forall key :: At(r.args, key) == Track(lib, tool, rules, key, At(args, key)))
    decreases |rules|
  {
    if rules != [] {
      var next := Apply(lib, tool, rules[0], args);
      assert rules[..0] == [];
      ApplyExactly(lib, tool, rules[0], args);
      assert next.Done? <==> VerdictAt(lib, tool, rules, 0, args).None?;
      if next.Done? {
        SuccessExactly(lib, tool, rules[1..], next.args);
        forall i | 0 <= i < |rules[1..]|
          ensures VerdictAt(lib, tool, rules, i + 1, args) == VerdictAt(lib, tool, rules[1..], i, next.args)
        {
          VerdictShift(lib, tool, rules, i, args, next.args);
        }
        assert forall i :: 0 < i < |rules| ==>
                 VerdictAt(lib, tool, rules, i, args) == VerdictAt(lib, tool, rules[1..], i - 1, next.args) by {
          forall i | 0 < i < |rules|
            ensures VerdictAt(lib, tool, rules, i, args) == VerdictAt(lib, tool, rules[1..], i - 1, next.args)
          {
            VerdictShift(lib, tool, rules, i - 1, args, next.args);
          }
        }
      }
    }
  }

  /** The first rule that stops a call decides how: blocked, missing or raised. */
  lemma {:induction false} FirstVerdictDecides(lib: Library, tool: string, rules: seq<Rule>, i: nat, args: Arguments)
    requires i < |rules| && VerdictAt(lib, tool, rules, i, args).Some?
    requires forall k :: 0 <= k < i ==> VerdictAt(lib, tool, rules, k, args).None?
    ensures Evaluate(lib, tool, rules, args) == VerdictAt(lib, tool, rules, i, args).value
    decreases |rules|
  {
    var next := Apply(lib, tool, rules[0], args);
    assert rules[..0] == [];
    ApplyExactly(lib, tool, rules[0], args);
    if i > 0 {
      assert VerdictAt(lib, tool, rules, 0, args).None?;
      VerdictShift(lib, tool, rules, i - 1, args, next.args);
      forall k | 0 <= k < i - 1 ensures VerdictAt(lib, tool, rules[1..], k, next.args).None? {
        VerdictShift(lib, tool, rules, k, args, next.args);
        assert VerdictAt(lib, tool, rules, k + 1, args).None?;
      }
      FirstVerdictDecides(lib, tool, rules[1..], i - 1, next.args);
    }
  }

  /** A rule applies when `fnmatch` matches the tool's name against the rule's pattern: a block rule that
      matches stops every call, with its own identifier unless an earlier rule stopped it. */
  lemma BlockRuleStops(lib: Library, tool: string, rules: seq<Rule>, i: nat, args: Arguments)
    requires i < |rules| && lib.fnmatch(tool, rules[i].tool) && rules[i].kind == "block_tool"
    ensures !Evaluate(lib, tool, rules, args).Done?
    ensures Evaluate(lib, tool, rules[..i], args).Done? ==> Evaluate(lib, tool, rules, args) == Blocked(rules[i].id)
  {
    SuccessExactly(lib, tool, rules, args);
    assert VerdictAt(lib, tool, rules, i, args) == Some(Blocked(rules[i].id));
    if Evaluate(lib, tool, rules[..i], args).Done? {
      SuccessExactly(lib, tool, rules[..i], args);
      forall k | 0 <= k < i ensures VerdictAt(lib, tool, rules, k, args).None? {
        assert rules[..i][..k] == rules[..k] && VerdictAt(lib, tool, rules[..i], k, args).None?;
      }
      FirstVerdictDecides(lib, tool, rules, i, args);
    }
  }

  /** A rule whose pattern does not match changes nothing. */
  lemma {:induction false} UnmatchedRuleIgnored(lib: Library, tool: string, before: seq<Rule>, rule: Rule,
                                                after: seq<Rule>, args: Arguments)
    requires !lib.fnmatch(tool, rule.tool)
    ensures Evaluate(lib, tool, before + [rule] + after, args) == Evaluate(lib, tool, before + after, args)
    decreases |before|
  {
    var all, rest := before + [rule] + after, before + after;
    if before == [] {
      assert all[0] == rule && all[1..] == after && rest == after;
    } else {
      assert all[1..] == before[1..] + [rule] + after && rest[1..] == before[1..] + after;
      assert all[0] == before[0] == rest[0];
      var next := Apply(lib, tool, before[0], args);
      if next.Done? { UnmatchedRuleIgnored(lib, tool, before[1..], rule, after, next.args); }
    }
  }

  /** What a stopped call reports: the identifier of a matching block rule, or the key and identifier of a
      matching rule that requires a key. */
  lemma FailureNamesRule(lib: Library, tool: string, rules: seq<Rule>, args: Arguments)
    ensures match Evaluate(lib, tool, rules, args)
            case Blocked(id) => exists r <- rules :: lib.fnmatch(tool, r.tool) && r.kind == "block_tool" && r.id == id
            case Missing(key, id) =>
              key !in args && key != ""
              && exists r <- rules ::
                   lib.fnmatch(tool, r.tool) && r.kind == "require_param" && r.key == key && r.id == id
            case _ => true
  {
    if !Evaluate(lib, tool, rules, args).Done? {
      var i := FirstFailure(lib, tool, rules, args);
      assert rules[i] in rules;
      SuccessMeans(lib, tool, rules[..i], args);
    }
  }

  /** A matching cap, when nothing else touches its argument: a larger number becomes the cap, and
      anything else stays as it was. */
  lemma OnlyCapExactly(lib: Library, tool: string, rule: Rule, args: Arguments)
    requires lib.fnmatch(tool, rule.tool) && rule.kind == "cap_param" && rule.key != "" && rule.key in args
    requires rule.max.Some? && rule.max.value != Null
    requires lib.float(args[rule.key]).Numeric() && lib.float(rule.max.value).Numeric()
    ensures Evaluate(lib, tool, [rule], args)
         == Done(if lib.float(args[rule.key]).Above(lib.float(rule.max.value)) then args[rule.key := rule.max.value]
                 else args)
  {
    assert [rule][1..] == [];
  }

  // ----- success from the keys alone, when nothing can raise

  /** The keys present after the rules, which do not depend on any value. */
  function KeysAfter(lib: Library, tool: string, rules: seq<Rule>, keys: set<string>): (r: set<string>)
    ensures keys <= r
  {
    if rules == [] then keys
    else
      KeysAfter(lib, tool, rules[1..],
                if Applies(lib, tool, rules[0]) && Adds(rules[0]) then keys + {rules[0].key} else keys)
  }

  /** A value that `float` does not overflow on. */
  ghost predicate Modest(lib: Library, v: Option<Json>) { v.Some? ==> !lib.float(v.value).TooLarge? }

  /** `float` of text never overflows, as in Python. */
  ghost predicate TextIsModest(lib: Library) { forall s :: !lib.float(Str(s)).TooLarge? }

  /** A rule that glues text only, and holds no number too large to convert. */
  ghost predicate Tame(lib: Library, rule: Rule) {
    !GluesNonText(rule) && Modest(lib, rule.value) && Modest(lib, rule.prepend) && Modest(lib, rule.max)
  }

  lemma {:induction false} TrackLaws(lib: Library, tool: string, rules: seq<Rule>, key: string, v: Option<Json>,
                                     keys: set<string>)
    requires v.Some? <==> key in keys
    ensures Track(lib, tool, rules, key, v).Some? <==> key in KeysAfter(lib, tool, rules, keys)
    ensures TextIsModest(lib) && (forall rule <- rules :: Tame(lib, rule)) && Modest(lib, v)
            ==> Modest(lib, Track(lib, tool, rules, key, v))
    decreases |rules|
  {
    if rules != [] {
      var rule := rules[0];
      var keys' := if Applies(lib, tool, rule) && Adds(rule) then keys + {rule.key} else keys;
      assert rule in rules;
      TrackLaws(lib, tool, rules[1..], key, Follow(lib, tool, rule, key, v), keys');
    }
  }

  /** Rule `i` lets the call pass, given the keys present before any rule. */
  ghost predicate Passes(lib: Library, tool: string, rules: seq<Rule>, i: nat, keys: set<string>)
    requires i < |rules|
  {
    Applies(lib, tool, rules[i]) ==>
      && rules[i].kind != "block_tool"
      && (rules[i].kind == "require_param" && rules[i].key != "" ==>
            rules[i].key in KeysAfter(lib, tool, rules[..i], keys))
  }

  /** When the numbers in this call and these rules are not too large, and text is glued to text, the
      rules succeed exactly when no block rule applies and each required key is an argument or was
      added by an earlier rule. */
  lemma SuccessByKeys(lib: Library, tool: string, rules: seq<Rule>, args: Arguments)
    requires TextIsModest(lib) && (forall rule <- rules :: Tame(lib, rule)) && forall key :: Modest(lib, At(args, key))
    ensures var r := Evaluate(lib, tool, rules, args);
            && (r.Done? <==> forall i :: 0 <= i < |rules| ==> Passes(lib, tool, rules, i, args.Keys))
            && (r.Done? ==> r.args.Keys == KeysAfter(lib, tool, rules, args.Keys))
  {
    SuccessExactly(lib, tool, rules, args);
    forall i | 0 <= i < |rules|
      ensures VerdictAt(lib, tool, rules, i, args).None? <==> Passes(lib, tool, rules, i, args.Keys)
    {
      assert rules[i] in rules && forall rule <- rules[..i] :: rule in rules;
      TrackLaws(lib, tool, rules[..i], rules[i].key, At(args, rules[i].key), args.Keys);
    }
    var r := Evaluate(lib, tool, rules, args);
    if r.Done? {
      forall key ensures key in r.args.Keys <==> key in KeysAfter(lib, tool, rules, args.Keys) {
        TrackLaws(lib, tool, rules, key, At(args, key), args.Keys);
        assert At(r.args, key) == Track(lib, tool, rules, key, At(args, key));
      }
    }
  }

  // ----- what a success means, with no assumption on rules or library

  /** On success no block rule applies, no argument was lost, and every required key is there. */
  lemma {:induction false} SuccessMeans(lib: Library, tool: string, rules: seq<Rule>, args: Arguments)
    requires Evaluate(lib, tool, rules, args).Done?
    ensures var final := Evaluate(lib, tool, rules, args).args;
            && args.Keys <= final.Keys
            && forall rule <- rules :: Applies(lib, tool, rule) ==>
                 && rule.kind != "block_tool"
                 && (rule.kind == "require_param" && rule.key != "" ==> rule.key in final)
    decreases |rules|
  {
    if rules != [] {
      SuccessMeans(lib, tool, rules[1..], Apply(lib, tool, rules[0], args).args);
      assert rules == [rules[0]] + rules[1..];
    }
  }

  /** The rule can write the argument `key`. */
  predicate Touches(lib: Library, tool: string, rule: Rule, key: string) {
    Applies(lib, tool, rule) && rule.key == key && (rule.kind == "inject_param" || rule.kind == "cap_param")
  }

  /** An argument no rule touches is as the caller gave it. */
  lemma {:induction false} UntouchedKept(lib: Library, tool: string, rules: seq<Rule>, args: Arguments, key: string)
    requires Evaluate(lib, tool, rules, args).Done?
    requires forall rule <- rules :: !Touches(lib, tool, rule, key)
    ensures var final := Evaluate(lib, tool, rules, args).args;
            (key in final <==> key in args) && (key in args ==> final[key] == args[key])
    decreases |rules|
  {
    if rules != [] {
      assert rules[0] in rules;
      UntouchedKept(lib, tool, rules[1..], Apply(lib, tool, rules[0], args).args, key);
    }
  }

  lemma {:induction false} EvaluateConcat(lib: Library, tool: string, a: seq<Rule>, b: seq<Rule>, args: Arguments)
    requires Evaluate(lib, tool, a + b, args).Done?
    ensures Evaluate(lib, tool, a, args).Done?
    ensures Evaluate(lib, tool, a + b, args) == Evaluate(lib, tool, b, Evaluate(lib, tool, a, args).args)
    decreases |a|
  {
    if a == [] {
      assert a + b == b;
    } else {
      assert (a + b)[1..] == a[1..] + b;
      EvaluateConcat(lib, tool, a[1..], b, Apply(lib, tool, a[0], args).args);
    }
  }

  /** When the last rule to touch an argument is a cap, the final value is not above the cap,
      unless one of the two is no number at all. */
  lemma LastCapHolds(lib: Library, tool: string, rules: seq<Rule>, i: nat, args: Arguments)
    requires Evaluate(lib, tool, rules, args).Done?
    requires i < |rules| && Applies(lib, tool, rules[i]) && rules[i].kind == "cap_param" && rules[i].key != ""
    requires rules[i].max.Some? && rules[i].max.value != Null
    requires forall j :: i < j < |rules| ==> !Touches(lib, tool, rules[j], rules[i].key)
    ensures var final := Evaluate(lib, tool, rules, args).args;
            rules[i].key in final && lib.float(final[rules[i].key]).Numeric() && lib.float(rules[i].max.value).Numeric()
            ==> !lib.float(final[rules[i].key]).Above(lib.float(rules[i].max.value))
  {
    var rule, upto, rest := rules[i], rules[..i], rules[i..];
    assert rules == upto + rest;
    EvaluateConcat(lib, tool, upto, rest, args);
    var before := Evaluate(lib, tool, upto, args).args;
    assert rest[0] == rule && rest[1..] == rules[i + 1..];
    var after := Apply(lib, tool, rule, before).args;
    UntouchedKept(lib, tool, rules[i + 1..], after, rule.key);
  }

  /** When the last rule to touch an argument injects it, the final value is the injected one, or
      text that begins with the text prepended, or ends with the text appended. */
  lemma LastInjectionHolds(lib: Library, tool: string, rules: seq<Rule>, i: nat, args: Arguments)
    requires Evaluate(lib, tool, rules, args).Done?
    requires i < |rules| && Applies(lib, tool, rules[i]) && rules[i].kind == "inject_param" && rules[i].key != ""
    requires forall j :: i < j < |rules| ==> !Touches(lib, tool, rules[j], rules[i].key)
    ensures var rule, final := rules[i], Evaluate(lib, tool, rules, args).args;
            var before := Evaluate(lib, tool, rules[..i], args);
            && before.Done?
            && (rule.value.Some? ==> rule.key in final && final[rule.key] == rule.value.value)
            && (rule.value.None? && rule.prepend.Some? && rule.key in before.args ==>
                  rule.prepend.value.Str? && rule.key in final
                  && final[rule.key] == Str(rule.prepend.value.s + lib.str(before.args[rule.key])))
            && (rule.value.None? && rule.prepend.None? && rule.append.Some? && rule.key in before.args ==>
                  rule.append.value.Str? && rule.key in final
                  && final[rule.key] == Str(lib.str(before.args[rule.key]) + rule.append.value.s))
            && (rule.value.None? && rule.prepend.Some? && rule.key !in before.args ==>
                  rule.key in final && final[rule.key] == rule.prepend.value)
  {
    var rule, upto, rest := rules[i], rules[..i], rules[i..];
    assert rules == upto + rest;
    EvaluateConcat(lib, tool, upto, rest, args);
    var before := Evaluate(lib, tool, upto, args).args;
    assert rest[0] == rule && rest[1..] == rules[i + 1..];
    var after := Apply(lib, tool, rule, before).args;
    UntouchedKept(lib, tool, rules[i + 1..], after, rule.key);
  }

  /** A failed call reports the first rule that fails, on the arguments as rewritten so far. */
  lemma {:induction false} FirstFailure(lib: Library, tool: string, rules: seq<Rule>, args: Arguments) returns (i: nat)
    requires !Evaluate(lib, tool, rules, args).Done?
    ensures i < |rules| && Evaluate(lib, tool, rules[..i], args).Done?
    ensures Apply(lib, tool, rules[i], Evaluate(lib, tool, rules[..i], args).args) == Evaluate(lib, tool, rules, args)
    decreases |rules|
  {
    var next := Apply(lib, tool, rules[0], args);
    if next.Done? {
      i := FirstFailure(lib, tool, rules[1..], next.args);
      i := i + 1;
      assert rules[..i][1..] == rules[1..][..i - 1];
    } else {
      i := 0;
    }
  }
}
