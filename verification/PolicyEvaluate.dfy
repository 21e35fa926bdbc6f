/** `Evaluate`: the answers its executions can give. */
module PolicyEvaluate {
  import opened Options
  import opened PolicyPlan
  import opened PolicyRules
  import opened ViolationOrder
  import PolicyImages
  import PolicyResources
  import PolicyBlocks

  datatype Refusal = InvalidAccountID | UndecodablePlan

  function RootImage(plan: Plan): string {
    if "image_uri" in plan.variables then Text(plan.variables["image_uri"]) else ""
  }

  predicate HasType(rs: seq<Resource>, kind: Kind) {
    exists i :: 0 <= i < |rs| && rs[i].kind == kind
  }

  ghost function ContextOf(plan: Plan, targets: map<string, string>): Context {
    Context(HasType(Resources(plan), WebACL),
            PolicyImages.ImageProofs(plan.configuration, "", RootImage(plan)), plan.containers, targets)
  }

  ghost function PlanTotal(plan: Plan, expected: string, targets: map<string, string>): multiset<Violation> {
    AccountTotal(plan.providers, expected) + ResourceTotal(Resources(plan), ContextOf(plan, targets))
  }

  /** The targets one order of the calls leads to. */
  ghost function TargetsFor(plan: Plan, order: PolicyBlocks.Order): map<string, string> {
    PolicyBlocks.WalkBlocks(plan.configuration, "", map[], order)
  }

  method ListResources(plan: Plan) returns (rs: seq<Resource>)
    ensures rs == Resources(plan) && PolicyResources.SeenByRules(plan, rs)
  {
    PolicyResources.ResourcesExact(plan);
    hide PolicyResources.SeenByRules;
    rs := Flatten(plan.planned);
    if rs == [] {
      for i := 0 to |plan.changes|
        invariant rs == ChangedResources(plan.changes[..i])
      {
        assert plan.changes[..i + 1][..i] == plan.changes[..i];
        var c := plan.changes[i];
        if c.after.Some? { rs := rs + [Resource(c.address, c.kind, c.after.value, c.afterUnknown)]; }
      }
      assert plan.changes[..|plan.changes|] == plan.changes;
      return;
    }
    var unknown: map<string, Fields> := map[];
    for i := 0 to |plan.changes|
      invariant unknown == UnknownByAddress(plan.changes[..i])
    {
      assert plan.changes[..i + 1][..i] == plan.changes[..i];
      unknown := unknown[plan.changes[i].address := plan.changes[i].afterUnknown];
    }
    assert plan.changes[..|plan.changes|] == plan.changes;
    ghost var flat := rs;
    for i := 0 to |rs|
      invariant |rs| == |flat|
      invariant forall j :: 0 <= j < |rs| ==> rs[j] == if j < i then WithUnknown(flat[j], unknown) else flat[j]
    {
      rs := rs[i := WithUnknown(rs[i], unknown)];
    }
    assert rs == Annotate(flat, unknown);
  }

  /** A sorted list of every violation, for whichever order the calls were visited in. */
  method Judge(plan: Plan, expected: string) returns (vs: seq<Violation>, ghost order: PolicyBlocks.Order)
    ensures PolicyBlocks.ValidOrder(plan.configuration, order)
    ensures Sorted(vs) && multiset(vs) == PlanTotal(plan, expected, TargetsFor(plan, order))
  {
    hide AccountTotal, ResourceTotal, Resources;
    var violations := AccountViolations(plan.providers, expected);
    var rs := ListResources(plan);
    var proofs := PolicyImages.WalkConfigurationImages(plan.configuration, "", RootImage(plan), {});
    var targets: map<string, string>;
    targets, order := PolicyBlocks.WalkConfigurationS3Blocks(plan.configuration, "", map[]);
    var c := Context(HasType(rs, WebACL), proofs, plan.containers, targets);
    assert c == ContextOf(plan, targets);
    var own := ResourceViolations(rs, c);
    vs := Sort(violations + own);
  }

  ghost predicate TwelveDigits(s: string) {
    |s| == 12 && forall i :: 0 <= i < |s| ==> '0' <= s[i] <= '9'
  }

  method Evaluate(decoded: Option<Plan>, expected: string) returns (r: Result<seq<Violation>, Refusal>)
    ensures r == Err(InvalidAccountID) <==> !TwelveDigits(expected)
    ensures r == Err(UndecodablePlan) <==> TwelveDigits(expected) && decoded.None?
    ensures r.Ok? ==> decoded.Some? && Answer(decoded.value, expected, r.value)
  {
    if !IsAccountID(expected) { return Err(InvalidAccountID); }
    if decoded.None? { return Err(UndecodablePlan); }
    var violations, order := Judge(decoded.value, expected);
    return Ok(violations);
  }

  /** An answer some execution of `Evaluate` can give. */
  ghost predicate Answer(plan: Plan, expected: string, vs: seq<Violation>) {
    exists order :: && PolicyBlocks.ValidOrder(plan.configuration, order) && Sorted(vs)
                    && multiset(vs) == PlanTotal(plan, expected, TargetsFor(plan, order))
  }

  /** Every multiset of violations has its sorted list. */
  lemma {:induction false} SortedExists(m: multiset<Violation>) returns (vs: seq<Violation>)
    ensures Sorted(vs) && multiset(vs) == m
    decreases |m|
  {
    vs := [];
    if v :| v in m {
      var rest := SortedExists(m - multiset{v});
      vs := Inserted(rest, v);
      InsertedIsSorted(rest, v);
    }
  }

  /** Each order of the calls is an execution with an answer. */
  lemma AnswerOf(plan: Plan, expected: string, order: PolicyBlocks.Order) returns (vs: seq<Violation>)
    requires PolicyBlocks.ValidOrder(plan.configuration, order)
    ensures Answer(plan, expected, vs) && multiset(vs) == PlanTotal(plan, expected, TargetsFor(plan, order))
  {
    vs := SortedExists(PlanTotal(plan, expected, TargetsFor(plan, order)));
  }

  /** With one target for each address the answer is a function of the plan, whatever order the
      provider, call and bucket maps are iterated in. */
  lemma OneTargetDecides(plan: Plan, expected: string, a: seq<Violation>, b: seq<Violation>)
    requires PolicyBlocks.OneTargetEach(plan.configuration, "")
    requires Answer(plan, expected, a) && Answer(plan, expected, b)
    ensures a == b
  {
    PolicyBlocks.OrderMattersIff(plan.configuration, "", map[]);
    SortedIsUnique(a, b);
  }

  /** Dot-free module names are enough. */
  lemma EvaluateIsDeterministic(plan: Plan, expected: string, a: seq<Violation>, b: seq<Violation>)
    requires PolicyBlocks.DotFree(plan.configuration)
    requires Answer(plan, expected, a) && Answer(plan, expected, b)
    ensures a == b
  {
    PolicyBlocks.DotFreeDecides(plan.configuration, "");
    OneTargetDecides(plan, expected, a, b);
  }
}
