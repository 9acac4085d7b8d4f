/** What the validator accepts, said without a walk: the fields of every rule are allowed,
    so is every gate that a path leads to where it stands, and the totals fit. */
module ManifestGates {
  import opened Wrappers
  import opened Manifest

  datatype Key = Any | All | Not

  datatype Edge = Edge(key: Key, index: nat)

  function Children(g: Gate, key: Key): seq<Gate> {
    match key
    case Any => g.any
    case All => g.all
    case Not => g.nots
  }

  /** The gate that a path from `g` leads to. */
  function At(g: Gate, path: seq<Edge>): Option<Gate>
    decreases |path|
  {
    if path == [] then Some(g)
    else if path[0].index < |Children(g, path[0].key)| then At(Children(g, path[0].key)[path[0].index], path[1..])
    else None
  }

  /** The gate's own matchers. */
  function OwnMatchers(g: Gate): seq<string> {
    g.contains + g.regex + g.lineRegex
  }

  /** A gate must hold a positive matcher, unless it stands under `not`, where any matcher
      will do. */
  predicate Anchored(g: Gate, positive: bool) {
    OwnMatchers(g) != [] || g.any != [] || g.all != [] || (!positive && g.nots != [])
  }

  predicate EndsPositive(path: seq<Edge>, positive: bool) {
    if path == [] then positive else path[|path| - 1].key != Not
  }

  ghost predicate AllowedAt(h: Gate, path: seq<Edge>, positive: bool, depth: nat) {
    && depth + |path| <= MAX_GATE_DEPTH
    && (forall m :: m in OwnMatchers(h) ==> |m| <= MAX_MATCHER_CHARS)
    && |OwnMatchers(h)| <= MAX_MATCHERS_PER_GATE
    && Anchored(h, EndsPositive(path, positive))
  }

  /** Every gate below `g`, itself included, is allowed at its depth and place. */
  ghost predicate Allowed(g: Gate, positive: bool, depth: nat) {
    forall path :: At(g, path).Some? ==> AllowedAt(At(g, path).value, path, positive, depth)
  }

  ghost predicate AllAllowed(items: seq<Gate>, positive: bool, depth: nat) {
    forall k :: 0 <= k < |items| ==> Allowed(items[k], positive, depth)
  }

  function Gates(g: Gate): nat
    decreases g
  {
    1 + GatesIn(g.any) + GatesIn(g.all) + GatesIn(g.nots)
  }

  function GatesIn(items: seq<Gate>): nat
    decreases items
  {
    if items == [] then 0 else Gates(items[0]) + GatesIn(items[1..])
  }

  function Matchers(g: Gate): nat
    decreases g
  {
    |OwnMatchers(g)| + MatchersIn(g.any) + MatchersIn(g.all) + MatchersIn(g.nots)
  }

  function MatchersIn(items: seq<Gate>): nat
    decreases items
  {
    if items == [] then 0 else Matchers(items[0]) + MatchersIn(items[1..])
  }

  predicate Fits(c: Counts) {
    c.gates <= MAX_TOTAL_GATES && c.matchers <= MAX_TOTAL_MATCHERS
  }

  function Plus(c: Counts, gates: nat, matchers: nat): Counts {
    Counts(c.gates + gates, c.matchers + matchers)
  }

  // --- Paths ---

  lemma AtChild(g: Gate, key: Key, k: nat, path: seq<Edge>)
    requires k < |Children(g, key)|
    ensures At(g, [Edge(key, k)] + path) == At(Children(g, key)[k], path)
  {
    assert ([Edge(key, k)] + path)[1..] == path;
  }

  lemma ChildAllowed(g: Gate, positive: bool, depth: nat, key: Key, k: nat)
    requires Allowed(g, positive, depth) && k < |Children(g, key)|
    ensures Allowed(Children(g, key)[k], key != Not, depth + 1)
  {
    var child := Children(g, key)[k];
    forall path: seq<Edge> | At(child, path).Some?
      ensures AllowedAt(At(child, path).value, path, key != Not, depth + 1)
    {
      AtChild(g, key, k, path);
      var longer := [Edge(key, k)] + path;
      assert AllowedAt(At(g, longer).value, longer, positive, depth);
    }
  }

  ghost predicate ChildrenAllowed(g: Gate, depth: nat) {
    && AllAllowed(g.any, true, depth + 1)
    && AllAllowed(g.all, true, depth + 1)
    && AllAllowed(g.nots, false, depth + 1)
  }

  /** Allowed below a gate is allowed at the gate and below each child. */
  lemma AllowedUnfolds(g: Gate, positive: bool, depth: nat)
    ensures Allowed(g, positive, depth) <==> AllowedAt(g, [], positive, depth) && ChildrenAllowed(g, depth)
  {
    if Allowed(g, positive, depth) {
      assert At(g, []) == Some(g);
      forall k | 0 <= k < |g.any| ensures Allowed(g.any[k], true, depth + 1) {
        ChildAllowed(g, positive, depth, Any, k);
      }
      forall k | 0 <= k < |g.all| ensures Allowed(g.all[k], true, depth + 1) {
        ChildAllowed(g, positive, depth, All, k);
      }
      forall k | 0 <= k < |g.nots| ensures Allowed(g.nots[k], false, depth + 1) {
        ChildAllowed(g, positive, depth, Not, k);
      }
    }
    if AllowedAt(g, [], positive, depth) && ChildrenAllowed(g, depth) {
      forall path: seq<Edge> | At(g, path).Some?
        ensures AllowedAt(At(g, path).value, path, positive, depth)
      {
        if path != [] {
          var child := Children(g, path[0].key)[path[0].index];
          assert Allowed(child, path[0].key != Not, depth + 1);
          assert AllowedAt(At(child, path[1..]).value, path[1..], path[0].key != Not, depth + 1);
        }
      }
    }
  }

  // --- The walk accepts exactly what is allowed ---

  /** The validator's tests on a gate mean what is said about its matchers. */
  lemma MatchersMean(g: Gate)
    ensures DirectMatchers(g) == |OwnMatchers(g)|
    ensures HasPositive(g) <==> Anchored(g, true)
    ensures HasAny(g) <==> Anchored(g, false)
  {
  }

  lemma LongMatcherIff(g: Gate)
    ensures LongMatcher(g) <==> exists m :: m in OwnMatchers(g) && |m| > MAX_MATCHER_CHARS
  {
    LongIff(g.contains);
    LongIff(g.regex);
    LongIff(g.lineRegex);
    hide HasLong;
    assert forall m :: m in g.contains || m in g.regex || m in g.lineRegex <==> m in OwnMatchers(g);
  }

  lemma LongIff(values: seq<string>)
    ensures HasLong(values) <==> exists m :: m in values && |m| > MAX_MATCHER_CHARS
  {
    if HasLong(values) {
      var k :| 0 <= k < |values| && |values[k]| > MAX_MATCHER_CHARS;
      assert values[k] in values;
    }
  }

  lemma SelfAccepts(g: Gate, positive: bool, depth: nat, c: Counts)
    requires positive || HasAny(g)
    ensures CheckSelf(g, positive, depth, c).error.None?
            <==> AllowedAt(g, [], positive, depth) && Fits(Plus(c, 1, |OwnMatchers(g)|))
    ensures CheckSelf(g, positive, depth, c).error.None? ==>
              CheckSelf(g, positive, depth, c).counts == Plus(c, 1, |OwnMatchers(g)|)
  {
    LongMatcherIff(g);
    MatchersMean(g);
    hide LongMatcher, OwnMatchers, DirectMatchers, HasPositive, HasAny, Anchored;
  }

  ghost predicate GateAccepted(g: Gate, positive: bool, depth: nat, c: Counts, r: Outcome) {
    && (r.error.None? <==> Allowed(g, positive, depth) && Fits(Plus(c, Gates(g), Matchers(g))))
    && (r.error.None? ==> r.counts == Plus(c, Gates(g), Matchers(g)))
  }

  ghost predicate ListAccepted(items: seq<Gate>, positive: bool, depth: nat, c: Counts, r: Outcome) {
    && (r.error.None? <==> AllAllowed(items, positive, depth) && Fits(Plus(c, GatesIn(items), MatchersIn(items))))
    && (r.error.None? ==> r.counts == Plus(c, GatesIn(items), MatchersIn(items)))
  }

  lemma {:induction false} GateAccepts(g: Gate, positive: bool, depth: nat, c: Counts)
    requires Fits(c) && (positive || HasAny(g))
    ensures GateAccepted(g, positive, depth, c, CheckGate(g, positive, depth, c))
    decreases g, 0
  {
    hide CheckSelf, CheckList, Allowed, AllowedAt, AllAllowed, HasAny, GatesIn, MatchersIn, OwnMatchers;
    SelfAccepts(g, positive, depth, c);
    AllowedUnfolds(g, positive, depth);
    var r0 := CheckSelf(g, positive, depth, c);
    if r0.error.None? {
      ListAccepts(g.any, true, depth + 1, r0.counts);
      var r1 := CheckList(g.any, true, depth + 1, r0.counts);
      if r1.error.None? {
        ListAccepts(g.all, true, depth + 1, r1.counts);
        var r2 := CheckList(g.all, true, depth + 1, r1.counts);
        if r2.error.None? {
          ListAccepts(g.nots, false, depth + 1, r2.counts);
        }
      }
    }
  }

  lemma {:induction false} ListAccepts(items: seq<Gate>, positive: bool, depth: nat, c: Counts)
    requires Fits(c)
    ensures ListAccepted(items, positive, depth, c, CheckList(items, positive, depth, c))
    decreases items
  {
    hide CheckNested, Allowed, Gates, Matchers;
    if items != [] {
      NestedAccepts(items[0], positive, depth, c);
      AllAllowedSplits(items, positive, depth);
      var r := CheckNested(items[0], positive, depth, c);
      if r.error.None? {
        ListAccepts(items[1..], positive, depth, r.counts);
      }
    }
  }

  lemma AllAllowedSplits(items: seq<Gate>, positive: bool, depth: nat)
    requires items != []
    ensures AllAllowed(items, positive, depth)
            <==> Allowed(items[0], positive, depth) && AllAllowed(items[1..], positive, depth)
  {
    hide Allowed;
    assert forall k :: 0 <= k < |items[1..]| ==> items[1..][k] == items[k + 1];
    assert forall k :: 0 < k < |items| ==> items[k] == items[1..][k - 1];
  }

  lemma {:induction false} NestedAccepts(g: Gate, positive: bool, depth: nat, c: Counts)
    requires Fits(c)
    ensures GateAccepted(g, positive, depth, c, CheckNested(g, positive, depth, c))
    decreases g, 1
  {
    MatchersMean(g);
    hide CheckGate, Gates, Matchers, HasAny, Anchored;
    if positive || HasAny(g) {
      GateAccepts(g, positive, depth, c);
    } else {
      assert At(g, []) == Some(g);
      assert !AllowedAt(g, [], positive, depth);
    }
  }

  // --- Rules ---

  /** The gates of the rules. */
  function Trees(rules: seq<Rule>): (trees: seq<Gate>)
    ensures |trees| == |rules|
    ensures forall i :: 0 <= i < |rules| ==> trees[i] == rules[i].gate
  {
    if rules == [] then [] else [rules[0].gate] + Trees(rules[1..])
  }

  /** A region of the form `name(count)`. */
  predicate IsCounted(region: string, name: string, count: string) {
    region == name + "(" + count + ")" && IsCount(count)
  }

  /** The region is one of the plain ones or counts lines; the top region counts no more
      lines than the limit and needs an engine that knows it. */
  ghost predicate RegionAllowed(region: string, minEngine: int) {
    || region in PLAIN_REGIONS
    || (exists count :: IsCounted(region, BOTTOM, count) || IsCounted(region, BOTTOM_NON_EMPTY, count))
    || (minEngine >= 3
        && exists count :: IsCounted(region, TOP_NON_EMPTY, count) && Number(count) <= MAX_TOP_REGION_LINE_COUNT)
  }

  ghost predicate FieldsAllowed(r: Rule, minEngine: int) {
    && (exists i :: 0 <= i < |r.id| && !IsSpace(r.id[i]))
    && (r.state.Some? ==> r.state.value in STATES)
    && (r.region.Some? ==> RegionAllowed(r.region.value, minEngine))
    && (r.skipStateUpdate ==>
          r.state == Some("unknown") && !r.visibleIdle && !r.visibleBlocker && !r.visibleWorking)
  }

  lemma CountOfIff(region: string, name: string, count: string)
    ensures CountOf(region, name) == Some(count) <==> IsCounted(region, name, count)
  {
    var open := name + "(";
    if IsCounted(region, name, count) {
      assert region[|open|..|region| - 1] == count;
    }
    if CountOf(region, name) == Some(count) {
      assert region == open + region[|open|..|region| - 1] + [region[|region| - 1]];
    }
    hide IsCount;
  }

  lemma CountedIff(region: string, name: string)
    ensures CountOf(region, name).Some? <==> exists count :: IsCounted(region, name, count)
  {
    if CountOf(region, name).Some? {
      CountOfIff(region, name, CountOf(region, name).value);
    }
    if count :| IsCounted(region, name, count) {
      CountOfIff(region, name, count);
    }
  }

  /** A legal region that starts like the top region is one. */
  lemma TopRegionIff(region: string)
    requires LegalRegion(region)
    ensures TOP_NON_EMPTY + "(" <= region <==> CountOf(region, TOP_NON_EMPTY).Some?
  {
    assert TOP_NON_EMPTY[0] == 't' && BOTTOM[0] == 'b' && BOTTOM_NON_EMPTY[0] == 'b';
    assert forall plain :: plain in PLAIN_REGIONS ==> plain[0] != 't';
    if TOP_NON_EMPTY + "(" <= region {
      assert region[0] == 't';
      assert CountOf(region, BOTTOM).None? && CountOf(region, BOTTOM_NON_EMPTY).None?;
    }
    hide IsCount, Number;
  }

  lemma RegionIff(region: string, minEngine: int)
    ensures LegalRegion(region) && (TOP_NON_EMPTY + "(" <= region ==> minEngine >= 3)
            <==> RegionAllowed(region, minEngine)
  {
    hide CountOf, PLAIN_REGIONS, IsCounted, Number, BOTTOM, BOTTOM_NON_EMPTY, TOP_NON_EMPTY;
    CountedIff(region, BOTTOM);
    CountedIff(region, BOTTOM_NON_EMPTY);
    TopCountedIff(region);
    TopIsNoOther(region);
    if LegalRegion(region) {
      TopRegionIff(region);
    }
  }

  /** The names of the regions tell them apart. */
  lemma TopIsNoOther(region: string)
    ensures CountOf(region, TOP_NON_EMPTY).Some? ==>
              && region !in PLAIN_REGIONS
              && CountOf(region, BOTTOM).None? && CountOf(region, BOTTOM_NON_EMPTY).None?
  {
    assert TOP_NON_EMPTY[0] == 't' && BOTTOM[0] == 'b' && BOTTOM_NON_EMPTY[0] == 'b';
    assert forall plain :: plain in PLAIN_REGIONS ==> plain[0] != 't';
    if CountOf(region, TOP_NON_EMPTY).Some? {
      assert region[0] == 't';
    }
    hide IsCount, Number;
  }

  lemma TopCountedIff(region: string)
    ensures (exists count :: IsCounted(region, TOP_NON_EMPTY, count) && Number(count) <= MAX_TOP_REGION_LINE_COUNT)
            <==> CountOf(region, TOP_NON_EMPTY).Some?
                 && Number(CountOf(region, TOP_NON_EMPTY).value) <= MAX_TOP_REGION_LINE_COUNT
  {
    hide CountOf, Number, TOP_NON_EMPTY;
    forall count | IsCounted(region, TOP_NON_EMPTY, count)
      ensures CountOf(region, TOP_NON_EMPTY) == Some(count)
    {
      CountOfIff(region, TOP_NON_EMPTY, count);
    }
    if CountOf(region, TOP_NON_EMPTY).Some? {
      CountOfIff(region, TOP_NON_EMPTY, CountOf(region, TOP_NON_EMPTY).value);
    }
    hide IsCounted;
  }

  lemma FieldsIff(r: Rule, minEngine: int)
    ensures CheckFields(r).None? && (NeedsEngine3(r) ==> minEngine >= 3) <==> FieldsAllowed(r, minEngine)
  {
    if r.region.Some? {
      RegionIff(r.region.value, minEngine);
    }
    hide LegalRegion, RegionAllowed, IsSpace;
  }

  /** A manifest whose rules are in order. */
  ghost predicate RulesValid(rules: seq<Rule>, minEngine: int) {
    && 0 < |rules| <= MAX_RULES_PER_MANIFEST
    && (forall i :: 0 <= i < |rules| ==> FieldsAllowed(rules[i], minEngine))
    && AllAllowed(Trees(rules), true, 0)
    && GatesIn(Trees(rules)) <= MAX_TOTAL_GATES
    && MatchersIn(Trees(rules)) <= MAX_TOTAL_MATCHERS
  }

  ghost predicate RulesAccepted(rules: seq<Rule>, minEngine: int, c: Counts, r: Outcome) {
    && (r.error.None? <==>
          && (forall i :: 0 <= i < |rules| ==> FieldsAllowed(rules[i], minEngine))
          && AllAllowed(Trees(rules), true, 0) && Fits(Plus(c, GatesIn(Trees(rules)), MatchersIn(Trees(rules)))))
    && (r.error.None? ==> r.counts == Plus(c, GatesIn(Trees(rules)), MatchersIn(Trees(rules))))
  }

  lemma FieldsSplit(rules: seq<Rule>, minEngine: int)
    requires rules != []
    ensures (forall i :: 0 <= i < |rules| ==> FieldsAllowed(rules[i], minEngine))
            <==> FieldsAllowed(rules[0], minEngine)
                 && forall i :: 0 <= i < |rules[1..]| ==> FieldsAllowed(rules[1..][i], minEngine)
  {
    hide FieldsAllowed;
    assert forall i :: 0 < i < |rules| ==> rules[i] == rules[1..][i - 1];
  }

  lemma {:induction false} RulesAccept(rules: seq<Rule>, minEngine: int, c: Counts)
    requires Fits(c)
    ensures RulesAccepted(rules, minEngine, c, CheckRules(rules, minEngine, c))
    decreases rules
  {
    hide CheckGate, CheckFields, NeedsEngine3, FieldsAllowed, Allowed, AllAllowed, Gates, Matchers;
    if rules == [] {
      assert AllAllowed(Trees(rules), true, 0) by { NothingToAllow(); }
    } else {
      var trees := Trees(rules);
      assert trees[1..] == Trees(rules[1..]);
      GateAccepts(rules[0].gate, true, 0, c);
      FieldsIff(rules[0], minEngine);
      FieldsSplit(rules, minEngine);
      AllAllowedSplits(trees, true, 0);
      var r := CheckRule(rules[0], minEngine, c);
      if r.error.None? {
        RulesAccept(rules[1..], minEngine, r.counts);
      }
    }
  }

  lemma NothingToAllow()
    ensures AllAllowed([], true, 0)
  {
  }

  /** The validator with its shared counters and early exit accepts exactly the valid
      manifests. */
  lemma AcceptsExactlyTheValid(rules: seq<Rule>, minEngine: int)
    ensures CheckManifest(rules, minEngine).None? <==> RulesValid(rules, minEngine)
  {
    RulesAccept(rules, minEngine, Counts(0, 0));
    hide CheckRules, AllAllowed, FieldsAllowed, GatesIn, MatchersIn;
  }

  // --- Every accepted rule can match something ---

  predicate NoNot(path: seq<Edge>) {
    forall k :: 0 <= k < |path| ==> path[k].key != Not
  }

  /** The path that always takes the first `any` or else the first `all`. */
  function ToLeaf(g: Gate): seq<Edge>
    decreases g
  {
    if OwnMatchers(g) != [] then []
    else if g.any != [] then [Edge(Any, 0)] + ToLeaf(g.any[0])
    else if g.all != [] then [Edge(All, 0)] + ToLeaf(g.all[0])
    else []
  }

  lemma {:induction false} LeafReached(g: Gate, depth: nat)
    requires Allowed(g, true, depth)
    ensures var leaf := At(g, ToLeaf(g));
            leaf.Some? && OwnMatchers(leaf.value) != [] && NoNot(ToLeaf(g))
    decreases g
  {
    hide Allowed, OwnMatchers;
    assert Anchored(g, true) by {
      AllowedUnfolds(g, true, depth);
    }
    if OwnMatchers(g) != [] {
    } else if g.any != [] {
      ChildAllowed(g, true, depth, Any, 0);
      LeafReached(g.any[0], depth + 1);
      AtChild(g, Any, 0, ToLeaf(g.any[0]));
    } else {
      ChildAllowed(g, true, depth, All, 0);
      LeafReached(g.all[0], depth + 1);
      AtChild(g, All, 0, ToLeaf(g.all[0]));
    }
  }

  /** Each accepted rule has a real matcher within eight `any` and `all` edges. */
  lemma AcceptedRuleHasMatcher(rules: seq<Rule>, minEngine: int, i: nat)
    requires CheckManifest(rules, minEngine).None? && i < |rules|
    ensures var g := rules[i].gate;
            exists path :: && At(g, path).Some? && OwnMatchers(At(g, path).value) != []
                           && NoNot(path) && |path| <= MAX_GATE_DEPTH
  {
    hide CheckManifest, OwnMatchers, FieldsAllowed;
    AcceptsExactlyTheValid(rules, minEngine);
    var g := rules[i].gate;
    assert Allowed(Trees(rules)[i], true, 0);
    LeafReached(g, 0);
    var path := ToLeaf(g);
    assert AllowedAt(At(g, path).value, path, true, 0);
  }

  // --- Errors tell the truth ---

  /** The gate at `path` is at fault in the way that `e` says. */
  ghost predicate AtFault(h: Gate, path: seq<Edge>, positive: bool, depth: nat, e: Error) {
    match e
    case TooDeep => depth + |path| > MAX_GATE_DEPTH
    case MatcherTooLong => exists m :: m in OwnMatchers(h) && |m| > MAX_MATCHER_CHARS
    case TooManyDirectMatchers => |OwnMatchers(h)| > MAX_MATCHERS_PER_GATE
    case NoPositiveMatcher => EndsPositive(path, positive) && !Anchored(h, true)
    case NoMatcher => !EndsPositive(path, positive) && !Anchored(h, false)
    case _ => false
  }

  ghost predicate HasFault(g: Gate, positive: bool, depth: nat, e: Error) {
    exists path :: At(g, path).Some? && AtFault(At(g, path).value, path, positive, depth, e)
  }

  ghost predicate SomeFault(items: seq<Gate>, positive: bool, depth: nat, e: Error) {
    exists k :: 0 <= k < |items| && HasFault(items[k], positive, depth, e)
  }

  lemma SelfFault(g: Gate, positive: bool, depth: nat, e: Error)
    requires AtFault(g, [], positive, depth, e)
    ensures HasFault(g, positive, depth, e)
  {
    assert At(g, []) == Some(g);
  }

  lemma ChildFault(g: Gate, positive: bool, depth: nat, key: Key, e: Error)
    requires SomeFault(Children(g, key), key != Not, depth + 1, e)
    ensures HasFault(g, positive, depth, e)
  {
    var k :| 0 <= k < |Children(g, key)| && HasFault(Children(g, key)[k], key != Not, depth + 1, e);
    var child := Children(g, key)[k];
    var path :| At(child, path).Some? && AtFault(At(child, path).value, path, key != Not, depth + 1, e);
    AtChild(g, key, k, path);
    var longer := [Edge(key, k)] + path;
    assert AtFault(At(g, longer).value, longer, positive, depth, e);
  }

  /** The error names an overrun total or a fault at some gate. */
  ghost predicate GateBlamed(g: Gate, positive: bool, depth: nat, c: Counts, e: Error) {
    || (e == TooManyGates && c.gates + Gates(g) > MAX_TOTAL_GATES)
    || (e == TooManyMatchers && c.matchers + Matchers(g) > MAX_TOTAL_MATCHERS)
    || HasFault(g, positive, depth, e)
  }

  ghost predicate ListBlamed(items: seq<Gate>, positive: bool, depth: nat, c: Counts, e: Error) {
    || (e == TooManyGates && c.gates + GatesIn(items) > MAX_TOTAL_GATES)
    || (e == TooManyMatchers && c.matchers + MatchersIn(items) > MAX_TOTAL_MATCHERS)
    || SomeFault(items, positive, depth, e)
  }

  lemma SelfBlames(g: Gate, positive: bool, depth: nat, c: Counts)
    ensures var r := CheckSelf(g, positive, depth, c);
            r.error.Some? ==> GateBlamed(g, positive, depth, c, r.error.value)
  {
    var r := CheckSelf(g, positive, depth, c);
    LongMatcherIff(g);
    MatchersMean(g);
    hide GatesIn, MatchersIn, HasFault, LongMatcher, OwnMatchers, HasPositive, HasAny, DirectMatchers, Anchored;
    if r.error.Some? && AtFault(g, [], positive, depth, r.error.value) {
      SelfFault(g, positive, depth, r.error.value);
    }
  }

  /** A blamed child list blames its gate. */
  lemma ChildBlames(g: Gate, positive: bool, depth: nat, key: Key, c: Counts, c': Counts, e: Error)
    requires ListBlamed(Children(g, key), key != Not, depth + 1, c', e)
    requires c'.gates + GatesIn(Children(g, key)) <= c.gates + Gates(g)
    requires c'.matchers + MatchersIn(Children(g, key)) <= c.matchers + Matchers(g)
    ensures GateBlamed(g, positive, depth, c, e)
  {
    hide Gates, Matchers, GatesIn, MatchersIn, HasFault, SomeFault, Children;
    if SomeFault(Children(g, key), key != Not, depth + 1, e) {
      ChildFault(g, positive, depth, key, e);
    }
  }

  lemma {:induction false} GateBlames(g: Gate, positive: bool, depth: nat, c: Counts)
    requires Fits(c) && (positive || HasAny(g))
    ensures var r := CheckGate(g, positive, depth, c);
            r.error.Some? ==> GateBlamed(g, positive, depth, c, r.error.value)
    decreases g, 0
  {
    hide CheckSelf, CheckList, Allowed, AllowedAt, AllAllowed, HasAny, GatesIn, MatchersIn, OwnMatchers,
         GateBlamed, ListBlamed;
    SelfBlames(g, positive, depth, c);
    SelfAccepts(g, positive, depth, c);
    var r0 := CheckSelf(g, positive, depth, c);
    if r0.error.None? {
      ListBlames(g.any, true, depth + 1, r0.counts);
      ListAccepts(g.any, true, depth + 1, r0.counts);
      var r1 := CheckList(g.any, true, depth + 1, r0.counts);
      if r1.error.Some? {
        ChildBlames(g, positive, depth, Any, c, r0.counts, r1.error.value);
      } else {
        ListBlames(g.all, true, depth + 1, r1.counts);
        ListAccepts(g.all, true, depth + 1, r1.counts);
        var r2 := CheckList(g.all, true, depth + 1, r1.counts);
        if r2.error.Some? {
          ChildBlames(g, positive, depth, All, c, r1.counts, r2.error.value);
        } else {
          ListBlames(g.nots, false, depth + 1, r2.counts);
          var r3 := CheckList(g.nots, false, depth + 1, r2.counts);
          if r3.error.Some? {
            ChildBlames(g, positive, depth, Not, c, r2.counts, r3.error.value);
          }
        }
      }
    }
  }

  lemma {:induction false} ListBlames(items: seq<Gate>, positive: bool, depth: nat, c: Counts)
    requires Fits(c)
    ensures var r := CheckList(items, positive, depth, c);
            r.error.Some? ==> ListBlamed(items, positive, depth, c, r.error.value)
    decreases items
  {
    hide CheckNested, Allowed, AllAllowed, Gates, Matchers, SomeFault, HasFault;
    if items != [] {
      NestedBlames(items[0], positive, depth, c);
      NestedAccepts(items[0], positive, depth, c);
      var r := CheckNested(items[0], positive, depth, c);
      if r.error.Some? {
        FirstFault(items, positive, depth, r.error.value);
      } else {
        ListBlames(items[1..], positive, depth, r.counts);
        var r' := CheckList(items[1..], positive, depth, r.counts);
        if r'.error.Some? {
          LaterFault(items, positive, depth, r'.error.value);
        }
      }
    }
  }

  lemma FirstFault(items: seq<Gate>, positive: bool, depth: nat, e: Error)
    requires items != []
    ensures HasFault(items[0], positive, depth, e) ==> SomeFault(items, positive, depth, e)
  {
    hide HasFault;
  }

  lemma LaterFault(items: seq<Gate>, positive: bool, depth: nat, e: Error)
    requires items != []
    ensures SomeFault(items[1..], positive, depth, e) ==> SomeFault(items, positive, depth, e)
  {
    hide HasFault;
    if SomeFault(items[1..], positive, depth, e) {
      var k :| 0 <= k < |items[1..]| && HasFault(items[1..][k], positive, depth, e);
      assert items[1..][k] == items[k + 1];
    }
  }

  lemma {:induction false} NestedBlames(g: Gate, positive: bool, depth: nat, c: Counts)
    requires Fits(c)
    ensures var r := CheckNested(g, positive, depth, c);
            r.error.Some? ==> GateBlamed(g, positive, depth, c, r.error.value)
    decreases g, 1
  {
    MatchersMean(g);
    hide CheckGate, Gates, Matchers, HasAny, HasFault, Anchored;
    if positive || HasAny(g) {
      GateBlames(g, positive, depth, c);
    } else {
      SelfFault(g, positive, depth, NoMatcher);
    }
  }

  /** The rule is at fault in the way that `e` says. */
  ghost predicate FieldFault(r: Rule, minEngine: int, e: Error) {
    match e
    case BlankId => forall i :: 0 <= i < |r.id| ==> IsSpace(r.id[i])
    case BadState => r.state.Some? && r.state.value !in STATES
    case BadRegion => r.region.Some? && !RegionAllowed(r.region.value, 3)
    case SkipNeedsUnknown => r.skipStateUpdate && r.state != Some("unknown")
    case SkipSetsFlag => r.skipStateUpdate && (r.visibleIdle || r.visibleBlocker || r.visibleWorking)
    case RegionNeedsEngine =>
      minEngine < 3 && r.region.Some? && RegionAllowed(r.region.value, 3) && !RegionAllowed(r.region.value, minEngine)
    case _ => false
  }

  ghost predicate SomeFieldFault(rules: seq<Rule>, minEngine: int, e: Error) {
    exists i :: 0 <= i < |rules| && FieldFault(rules[i], minEngine, e)
  }

  lemma FieldErrorIsTrue(r: Rule, minEngine: int)
    ensures CheckFields(r).Some? ==> FieldFault(r, minEngine, CheckFields(r).value)
    ensures CheckFields(r).None? && NeedsEngine3(r) && minEngine < 3 ==> FieldFault(r, minEngine, RegionNeedsEngine)
  {
    if r.region.Some? {
      RegionIff(r.region.value, 3);
      RegionIff(r.region.value, minEngine);
    }
    hide LegalRegion, RegionAllowed, IsSpace;
  }

  ghost predicate RulesBlamed(rules: seq<Rule>, minEngine: int, c: Counts, e: Error) {
    SomeFieldFault(rules, minEngine, e) || ListBlamed(Trees(rules), true, 0, c, e)
  }

  lemma {:induction false} RulesBlame(rules: seq<Rule>, minEngine: int, c: Counts)
    requires Fits(c)
    ensures var r := CheckRules(rules, minEngine, c);
            r.error.Some? ==> RulesBlamed(rules, minEngine, c, r.error.value)
    decreases rules
  {
    hide CheckGate, CheckFields, NeedsEngine3, Allowed, AllAllowed, Gates, Matchers, SomeFault, HasFault, FieldFault;
    if rules != [] {
      var trees := Trees(rules);
      assert trees[1..] == Trees(rules[1..]);
      GateBlames(rules[0].gate, true, 0, c);
      GateAccepts(rules[0].gate, true, 0, c);
      FieldErrorIsTrue(rules[0], minEngine);
      var r := CheckRule(rules[0], minEngine, c);
      if r.error.Some? {
        FirstFault(trees, true, 0, r.error.value);
      } else {
        RulesBlame(rules[1..], minEngine, r.counts);
        var r' := CheckRules(rules[1..], minEngine, r.counts);
        if r'.error.Some? {
          LaterFault(trees, true, 0, r'.error.value);
          LaterFieldFault(rules, minEngine, r'.error.value);
        }
      }
    }
  }

  lemma LaterFieldFault(rules: seq<Rule>, minEngine: int, e: Error)
    requires rules != []
    ensures SomeFieldFault(rules[1..], minEngine, e) ==> SomeFieldFault(rules, minEngine, e)
  {
    hide FieldFault;
    if i :| 0 <= i < |rules[1..]| && FieldFault(rules[1..][i], minEngine, e) {
      assert rules[1..][i] == rules[i + 1];
    }
  }

  /** What an error claims about the manifest. */
  ghost predicate Claimed(rules: seq<Rule>, minEngine: int, e: Error) {
    match e
    case NoRules => rules == []
    case TooManyRules => |rules| > MAX_RULES_PER_MANIFEST
    case TooManyGates => GatesIn(Trees(rules)) > MAX_TOTAL_GATES
    case TooManyMatchers => MatchersIn(Trees(rules)) > MAX_TOTAL_MATCHERS
    case _ => SomeFieldFault(rules, minEngine, e) || SomeFault(Trees(rules), true, 0, e)
  }

  /** Whatever error stops the validator, the manifest has that very defect. */
  lemma ErrorsAreTrue(rules: seq<Rule>, minEngine: int)
    ensures CheckManifest(rules, minEngine).Some? ==> Claimed(rules, minEngine, CheckManifest(rules, minEngine).value)
  {
    RulesBlame(rules, minEngine, Counts(0, 0));
    TotalsAreNoFault(rules, minEngine);
    hide CheckRules, SomeFault, SomeFieldFault, GatesIn, MatchersIn;
  }

  lemma TotalsAreNoFault(rules: seq<Rule>, minEngine: int)
    ensures forall e :: SomeFault(Trees(rules), true, 0, e) || SomeFieldFault(rules, minEngine, e) ==>
              e != NoRules && e != TooManyRules && e != TooManyGates && e != TooManyMatchers
  {
  }
}
