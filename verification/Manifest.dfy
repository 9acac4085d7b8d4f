/** The rule validation of `agent_detection_manifest_check.py`: checks on each rule, and a
    walk over its tree of matcher gates that shares two counters with the other rules and
    stops at the first error. */
module Manifest {
  import opened Wrappers

  const MAX_RULES_PER_MANIFEST: nat := 128
  const MAX_GATE_DEPTH: nat := 8
  const MAX_TOTAL_GATES: nat := 512
  const MAX_MATCHERS_PER_GATE: nat := 32
  const MAX_TOTAL_MATCHERS: nat := 1024
  const MAX_MATCHER_CHARS: nat := 512

  /** A gate. A missing key is an empty list. */
  datatype Gate = Gate(
    contains: seq<string>,
    regex: seq<string>,
    lineRegex: seq<string>,
    any: seq<Gate>,
    all: seq<Gate>,
    nots: seq<Gate>)

  /** A rule: its own fields, and the gate that its matcher keys form. */
  datatype Rule = Rule(
    id: string,
    state: Option<string>,
    region: Option<string>,
    skipStateUpdate: bool,
    visibleIdle: bool,
    visibleBlocker: bool,
    visibleWorking: bool,
    gate: Gate)

  datatype Error =
    | NoRules
    | TooManyRules
    | BlankId
    | BadState
    | BadRegion
    | SkipNeedsUnknown
    | SkipSetsFlag
    | RegionNeedsEngine
    | TooDeep
    | TooManyGates
    | MatcherTooLong
    | TooManyDirectMatchers
    | TooManyMatchers
    | NoPositiveMatcher
    | NoMatcher

  datatype Counts = Counts(gates: nat, matchers: nat)

  /** The counters at the point where the walk ended, and the error that ended it. */
  datatype Outcome = Outcome(counts: Counts, error: Option<Error>)

  // --- The fields of a rule ---

  const STATES: set<string> := {"idle", "working", "blocked", "unknown"}

  const PLAIN_REGIONS: set<string> :=
    {"whole_recent", "whole_recent_without_current_prompt_marker", "after_last_prompt_marker",
     "before_current_prompt_marker", "current_prompt_block_marker", "after_current_prompt_block_marker",
     "prompt_box_body", "above_prompt_box", "last_non_empty_above_prompt_box", "after_last_horizontal_rule",
     "osc_title", "osc_progress"}

  const BOTTOM: string := "bottom_lines"
  const BOTTOM_NON_EMPTY: string := "bottom_non_empty_lines"
  const TOP_NON_EMPTY: string := "top_non_empty_lines"
  const MAX_TOP_REGION_LINE_COUNT: nat := 65_535

  /** What `str.strip` removes. */
  predicate IsSpace(c: char) {
    || '\t' <= c <= '\r' || '\U{1C}' <= c <= ' ' || c == '\U{85}' || c == '\U{A0}' || c == '\U{1680}'
    || '\U{2000}' <= c <= '\U{200A}' || c == '\U{2028}' || c == '\U{2029}' || c == '\U{202F}' || c == '\U{205F}'
    || c == '\U{3000}'
  }

  predicate IsBlank(s: string) {
    forall i :: 0 <= i < |s| ==> IsSpace(s[i])
  }

  predicate IsDigit(c: char) {
    '0' <= c <= '9'
  }

  /** `[1-9][0-9]*` */
  predicate IsCount(s: string) {
    s != "" && s[0] != '0' && forall i :: 0 <= i < |s| ==> IsDigit(s[i])
  }

  function Number(digits: string): nat
    requires forall i :: 0 <= i < |digits| ==> IsDigit(digits[i])
  {
    if digits == "" then 0
    else
      var front, last := digits[..|digits| - 1], digits[|digits| - 1];
      assert IsDigit(last);
      Number(front) * 10 + (last as int - '0' as int)
  }

  /** The count of a region `name(count)`. */
  function CountOf(region: string, name: string): (count: Option<string>)
    ensures count.Some? ==> IsCount(count.value)
  {
    var open := name + "(";
    if open <= region && |region| > |open| && region[|region| - 1] == ')' && IsCount(region[|open|..|region| - 1])
    then Some(region[|open|..|region| - 1])
    else None
  }

  /** `REGION_RE`, and the line limit of the top region. */
  predicate LegalRegion(region: string) {
    || region in PLAIN_REGIONS
    || CountOf(region, BOTTOM).Some?
    || CountOf(region, BOTTOM_NON_EMPTY).Some?
    || (CountOf(region, TOP_NON_EMPTY).Some?
        && Number(CountOf(region, TOP_NON_EMPTY).value) <= MAX_TOP_REGION_LINE_COUNT)
  }

  /** `validate_rule` in front of the gate walk. */
  function CheckFields(r: Rule): Option<Error> {
    if IsBlank(r.id) then Some(BlankId)
    else if r.state.Some? && r.state.value !in STATES then Some(BadState)
    else if r.region.Some? && !LegalRegion(r.region.value) then Some(BadRegion)
    else if r.skipStateUpdate && r.state != Some("unknown") then Some(SkipNeedsUnknown)
    else if r.skipStateUpdate && (r.visibleIdle || r.visibleBlocker || r.visibleWorking) then Some(SkipSetsFlag)
    else None
  }

  predicate NeedsEngine3(r: Rule) {
    r.region.Some? && TOP_NON_EMPTY + "(" <= r.region.value
  }

  // --- One gate ---

  predicate HasLong(values: seq<string>) {
    exists k :: 0 <= k < |values| && |values[k]| > MAX_MATCHER_CHARS
  }

  predicate LongMatcher(g: Gate) {
    HasLong(g.contains) || HasLong(g.regex) || HasLong(g.lineRegex)
  }

  function DirectMatchers(g: Gate): nat {
    |g.contains| + |g.regex| + |g.lineRegex|
  }

  /** `has_positive_matcher`: an empty list is false in a condition. */
  predicate HasPositive(g: Gate) {
    DirectMatchers(g) > 0 || g.any != [] || g.all != []
  }

  /** `has_any_matcher` */
  predicate HasAny(g: Gate) {
    HasPositive(g) || g.nots != []
  }

  /** The checks on the gate itself, in their order, with the counters they leave. */
  function CheckSelf(g: Gate, positive: bool, depth: nat, c: Counts): Outcome {
    if depth > MAX_GATE_DEPTH then Outcome(c, Some(TooDeep))
    else
      var c1 := c.(gates := c.gates + 1);
      var c2 := c1.(matchers := c.matchers + DirectMatchers(g));
      if c1.gates > MAX_TOTAL_GATES then Outcome(c1, Some(TooManyGates))
      else if LongMatcher(g) then Outcome(c1, Some(MatcherTooLong))
      else if DirectMatchers(g) > MAX_MATCHERS_PER_GATE then Outcome(c1, Some(TooManyDirectMatchers))
      else if c2.matchers > MAX_TOTAL_MATCHERS then Outcome(c2, Some(TooManyMatchers))
      else if positive && !HasPositive(g) then Outcome(c2, Some(NoPositiveMatcher))
      else Outcome(c2, None)
  }

  // --- The walk ---

  /** `validate_gate` */
  function CheckGate(g: Gate, positive: bool, depth: nat, c: Counts): Outcome
    decreases g, 0
  {
    var r0 := CheckSelf(g, positive, depth, c);
    if r0.error.Some? then r0 else
    var r1 := CheckList(g.any, true, depth + 1, r0.counts);
    if r1.error.Some? then r1 else
    var r2 := CheckList(g.all, true, depth + 1, r1.counts);
    if r2.error.Some? then r2 else
    CheckList(g.nots, false, depth + 1, r2.counts)
  }

  /** The nested gates of one key, first to last. */
  function CheckList(items: seq<Gate>, positive: bool, depth: nat, c: Counts): Outcome
    decreases items
  {
    if items == [] then Outcome(c, None)
    else
      var r := CheckNested(items[0], positive, depth, c);
      if r.error.Some? then r else CheckList(items[1..], positive, depth, r.counts)
  }

  /** `validate_nested_gate` */
  function CheckNested(g: Gate, positive: bool, depth: nat, c: Counts): Outcome
    decreases g, 1
  {
    if !positive && !HasAny(g) then Outcome(c, Some(NoMatcher))
    else CheckGate(g, positive, depth, c)
  }

  function CheckRule(r: Rule, minEngine: int, c: Counts): Outcome {
    var fields := CheckFields(r);
    if fields.Some? then Outcome(c, fields) else
    var walked := CheckGate(r.gate, true, 0, c);
    if walked.error.Some? then walked
    else if NeedsEngine3(r) && minEngine < 3 then Outcome(walked.counts, Some(RegionNeedsEngine))
    else walked
  }

  function CheckRules(rules: seq<Rule>, minEngine: int, c: Counts): Outcome {
    if rules == [] then Outcome(c, None)
    else
      var r := CheckRule(rules[0], minEngine, c);
      if r.error.Some? then r else CheckRules(rules[1..], minEngine, r.counts)
  }

  /** `validate_manifest`, as far as it concerns rules. */
  function CheckManifest(rules: seq<Rule>, minEngine: int): Option<Error> {
    if rules == [] then Some(NoRules)
    else if |rules| > MAX_RULES_PER_MANIFEST then Some(TooManyRules)
    else CheckRules(rules, minEngine, Counts(0, 0)).error
  }

  // --- The validator as it runs ---

  /** The dictionary that all calls share. */
  class Complexity {
    var gates: nat
    var matchers: nat

    constructor ()
      ensures gates == 0 && matchers == 0
    {
      gates, matchers := 0, 0;
    }

    function Value(): Counts
      reads this
    {
      Counts(gates, matchers)
    }
  }

  method HasPositiveMatcher(g: Gate) returns (r: bool)
    ensures r <==> g.contains != [] || g.regex != [] || g.lineRegex != [] || g.any != [] || g.all != []
  {
    r := |g.contains| != 0 || |g.regex| != 0 || |g.lineRegex| != 0 || |g.any| != 0 || |g.all| != 0;
  }

  /** Direct matchers, and whether one of them is too long. Stops at the first that is. */
  method CountMatchers(g: Gate) returns (count: nat, tooLong: bool)
    ensures tooLong <==> LongMatcher(g)
    ensures !tooLong ==> count == DirectMatchers(g)
  {
    var keys := [g.contains, g.regex, g.lineRegex];
    count := 0;
    var k := 0;
    while k < 3
      invariant 0 <= k <= 3
      invariant count == (if k > 0 then |g.contains| else 0) + (if k > 1 then |g.regex| else 0)
                         + (if k > 2 then |g.lineRegex| else 0)
      invariant forall j :: 0 <= j < k ==> !HasLong(keys[j])
    {
      var values := keys[k];
      count := count + |values|;
      var i := 0;
      while i < |values|
        invariant 0 <= i <= |values|
        invariant forall j :: 0 <= j < i ==> |values[j]| <= MAX_MATCHER_CHARS
      {
        if |values[i]| > MAX_MATCHER_CHARS {
          assert HasLong(keys[k]);
          return count, true;
        }
        i := i + 1;
      }
      k := k + 1;
    }
    assert !HasLong(keys[0]) && !HasLong(keys[1]) && !HasLong(keys[2]);
    tooLong := false;
  }

  method ValidateSelf(g: Gate, positive: bool, depth: nat, complexity: Complexity) returns (error: Option<Error>)
    modifies complexity
    ensures Outcome(complexity.Value(), error) == CheckSelf(g, positive, depth, old(complexity.Value()))
  {
    if depth > MAX_GATE_DEPTH {
      return Some(TooDeep);
    }
    complexity.gates := complexity.gates + 1;
    if complexity.gates > MAX_TOTAL_GATES {
      return Some(TooManyGates);
    }
    var count, tooLong := CountMatchers(g);
    if tooLong {
      return Some(MatcherTooLong);
    }
    if count > MAX_MATCHERS_PER_GATE {
      return Some(TooManyDirectMatchers);
    }
    complexity.matchers := complexity.matchers + count;
    if complexity.matchers > MAX_TOTAL_MATCHERS {
      return Some(TooManyMatchers);
    }
    var found := HasPositiveMatcher(g);
    if positive && !found {
      return Some(NoPositiveMatcher);
    }
    error := None;
  }

  method ValidateGate(g: Gate, positive: bool, depth: nat, complexity: Complexity) returns (error: Option<Error>)
    modifies complexity
    ensures Outcome(complexity.Value(), error) == CheckGate(g, positive, depth, old(complexity.Value()))
    decreases g, 0
  {
    hide CheckSelf, CheckList;
    error := ValidateSelf(g, positive, depth, complexity);
    if error.Some? { return; }
    error := ValidateList(g.any, true, depth + 1, complexity);
    if error.Some? { return; }
    error := ValidateList(g.all, true, depth + 1, complexity);
    if error.Some? { return; }
    error := ValidateList(g.nots, false, depth + 1, complexity);
  }

  /** One of the three loops over nested gates. */
  method ValidateList(items: seq<Gate>, positive: bool, depth: nat, complexity: Complexity)
    returns (error: Option<Error>)
    modifies complexity
    ensures Outcome(complexity.Value(), error) == CheckList(items, positive, depth, old(complexity.Value()))
    decreases items
  {
    hide CheckNested;
    var i := 0;
    while i < |items|
      invariant 0 <= i <= |items|
      invariant CheckList(items[i..], positive, depth, complexity.Value())
                == CheckList(items, positive, depth, old(complexity.Value()))
    {
      assert items[i..][1..] == items[i + 1..];
      error := ValidateNestedGate(items[i], positive, depth, complexity);
      if error.Some? { return; }
      i := i + 1;
    }
    error := None;
  }

  method ValidateNestedGate(g: Gate, positive: bool, depth: nat, complexity: Complexity)
    returns (error: Option<Error>)
    modifies complexity
    ensures Outcome(complexity.Value(), error) == CheckNested(g, positive, depth, old(complexity.Value()))
    decreases g, 1
  {
    if !positive {
      var found := HasPositiveMatcher(g);
      if !found && |g.nots| == 0 {
        return Some(NoMatcher);
      }
    }
    error := ValidateGate(g, positive, depth, complexity);
  }

  /** `validate_rule`, and the engine check behind it. */
  method ValidateRule(r: Rule, minEngine: int, complexity: Complexity) returns (error: Option<Error>)
    modifies complexity
    ensures Outcome(complexity.Value(), error) == CheckRule(r, minEngine, old(complexity.Value()))
  {
    hide CheckGate, IsBlank, LegalRegion, NeedsEngine3;
    if IsBlank(r.id) {
      return Some(BlankId);
    }
    if r.state.Some? && r.state.value !in STATES {
      return Some(BadState);
    }
    if r.region.Some? && !LegalRegion(r.region.value) {
      return Some(BadRegion);
    }
    if r.skipStateUpdate {
      if r.state != Some("unknown") {
        return Some(SkipNeedsUnknown);
      }
      if r.visibleIdle || r.visibleBlocker || r.visibleWorking {
        return Some(SkipSetsFlag);
      }
    }
    error := ValidateGate(r.gate, true, 0, complexity);
    if error.None? && NeedsEngine3(r) && minEngine < 3 {
      error := Some(RegionNeedsEngine);
    }
  }

  method ValidateManifest(rules: seq<Rule>, minEngine: int) returns (error: Option<Error>)
    ensures error == CheckManifest(rules, minEngine)
  {
    if |rules| == 0 {
      return Some(NoRules);
    }
    if |rules| > MAX_RULES_PER_MANIFEST {
      return Some(TooManyRules);
    }
    hide CheckRule;
    var complexity := new Complexity();
    var i := 0;
    while i < |rules|
      invariant 0 <= i <= |rules|
      invariant CheckRules(rules[i..], minEngine, complexity.Value()) == CheckRules(rules, minEngine, Counts(0, 0))
    {
      assert rules[i..][1..] == rules[i + 1..];
      error := ValidateRule(rules[i], minEngine, complexity);
      if error.Some? { return; }
      i := i + 1;
    }
    error := None;
  }
}
