/** Two plans: one whose verdict depends on the order of its resources, one with two answers. */
module PolicyWitnesses {
  import opened Options
  import opened Text
  import opened PolicyPlan
  import opened PolicyRules
  import opened PolicyEvaluate
  import opened PolicyRequirements
  import opened PolicyTargets
  import opened PolicyVerdict
  import opened PolicyOrder
  import PolicyImages
  import PolicyBlocks

  // ---- small plans ----

  function NameField(name: string): Fields {
    if name == "" then map[] else map["bucket" := Str(name)]
  }

  function BucketAt(address: string, name: string): Resource {
    Resource(address, Bucket, NameField(name), map[])
  }

  function CompleteBlock(address: string, name: string): Resource {
    Resource(address, PublicAccessBlock,
             NameField(name)["block_public_acls" := Bool(true)]["block_public_policy" := Bool(true)]
                            ["ignore_public_acls" := Bool(true)]["restrict_public_buckets" := Bool(true)], map[])
  }

  /** A block of the configuration that refers to a bucket of its module. */
  function BlockFor(address: string, bucket: string): ConfigurationResource {
    ConfigurationResource(address, PublicAccessBlock,
                          map["bucket" := RawExpression(false,
                              Expression(Null, [PolicyBlocks.BUCKET_TYPE + "." + bucket]))])
  }

  function Trusted(expected: string): map<string, Provider> {
    map["aws" := Provider(map["allowed_account_ids" := RawExpression(false, Expression(Arr([Str(expected)]), []))])]
  }

  function SmallPlan(expected: string, m: ConfigurationModule, rs: seq<Resource>): Plan {
    Plan(Trusted(expected), m, PlannedModule(rs, []), [], map[], map[])
  }

  lemma SmallResources(expected: string, m: ConfigurationModule, rs: seq<Resource>)
    requires rs != [] && forall i :: 0 <= i < |rs| ==> rs[i].unknown == map[]
    ensures Resources(SmallPlan(expected, m, rs)) == rs
  {
    assert Flatten(PlannedModule(rs, [])) == rs;
    assert forall i :: 0 <= i < |rs| ==> WithUnknown(rs[i], map[]) == rs[i];
    assert Annotate(rs, map[]) == rs;
  }

  lemma NamedSo(address: string, name: string)
    ensures BucketName(BucketAt(address, name)) == name && BucketName(CompleteBlock(address, name)) == name
    ensures Complete(CompleteBlock(address, name))
  {
    assert |"bucket"| == 6 && |"block_public_acls"| == 17 && |"block_public_policy"| == 19;
    assert |"ignore_public_acls"| == 18 && |"restrict_public_buckets"| == 23;
  }

  lemma TrustedIsProven(expected: string)
    ensures AccountProven(Trusted(expected), expected)
  {
  }

  lemma SmallCompliance(plan: Plan, r: Resource)
    requires IsBucket(r) || (IsBlock(r) && Complete(r))
    ensures Compliant(plan, r)
  {
    hide Complete;
  }

  /** The reference leads to the bucket. */
  lemma RefersTo(address: string, bucket: string)
    requires bucket != "" && Free(bucket, '.')
    ensures PolicyBlocks.BlockBucket(BlockFor(address, bucket)) == Some(PolicyBlocks.BUCKET_TYPE + "." + bucket)
  {
    SplitHead(PolicyBlocks.BUCKET_TYPE, bucket, '.');
    SplitFree(bucket, '.');
    assert PolicyBlocks.BUCKET_TYPE + "." + bucket == PolicyBlocks.BUCKET_TYPE + ['.'] + bucket;
  }

  // ---- two buckets of one name ----

  function LocalBucket(bucket: string): string {
    PolicyBlocks.BUCKET_TYPE + "." + bucket
  }

  /** A complete block that names both buckets and refers to `left` in the configuration. */
  function Namesakes(block: string, left: string, right: string, name: string): seq<Resource> {
    [CompleteBlock(block, name), BucketAt(LocalBucket(left), name), BucketAt(right, name)]
  }

  function NamesakePlan(expected: string, block: string, left: string, right: string, name: string): Plan {
    SmallPlan(expected, ConfigurationModule([BlockFor(block, left)], map[]), Namesakes(block, left, right, name))
  }

  /** A module without calls has the targets of its own last blocks. */
  lemma FlatTargets(m: ConfigurationModule, prefix: string, key: string, v: string)
    requires m.calls == map[]
    ensures v in PolicyBlocks.Possible(m, prefix, key)
          <==> PolicyBlocks.LocalTarget(m.resources, prefix, key) == Some(v)
  {
    assert PolicyBlocks.Below(m, prefix, key) == {};
  }

  lemma OneBlock(prefix: string, address: string, bucket: string, key: string)
    requires bucket != "" && Free(bucket, '.')
    ensures PolicyBlocks.LocalTarget([BlockFor(address, bucket)], prefix, key)
         == if key == prefix + address then Some(prefix + LocalBucket(bucket)) else None
  {
    RefersTo(address, bucket);
    var rs := [BlockFor(address, bucket)];
    assert rs[..0] == [] && PolicyBlocks.LocalTarget(rs[..0], prefix, key) == None;
  }

  lemma OneTarget(m: ConfigurationModule, block: string, left: string, v: string)
    requires left != "" && Free(left, '.') && m == ConfigurationModule([BlockFor(block, left)], map[])
    ensures Targets(m, block, v) <==> v == LocalBucket(left)
  {
    hide PolicyBlocks.LocalTarget, PolicyBlocks.Possible, LocalBucket;
    PossibleExact(m, "", block, v);
    FlatTargets(m, "", block, v);
    OneBlock("", block, left, block);
    assert "" + block == block && "" + LocalBucket(left) == LocalBucket(left);
  }

  /** Of the namesakes the block points to the left one only. */
  lemma OnlyLeftIsReferred(expected: string, block: string, left: string, right: string, name: string, a: string)
    requires left != "" && Free(left, '.')
    ensures Referred(NamesakePlan(expected, block, left, right, name), a) <==> a == LocalBucket(left)
  {
    var plan, rs := NamesakePlan(expected, block, left, right, name), Namesakes(block, left, right, name);
    SmallResources(expected, plan.configuration, rs);
    OneTarget(plan.configuration, block, left, a);
    OneTarget(plan.configuration, block, left, LocalBucket(left));
    NamedSo(block, name);
    hide Targets, Resources, Complete, LocalBucket;
    assert PointsTo(plan, block, a) <==> a == LocalBucket(left);
    assert rs[0] in Resources(plan);
    assert forall b :: b in Resources(plan) && IsBlock(b) ==> b == rs[0];
  }

  lemma NamesakesAreDistinct(block: string, left: string, right: string, name: string)
    requires right != LocalBucket(left)
    ensures DistinctAddresses(Namesakes(block, left, right, name))
  {
    hide NameField, LocalBucket;
    var rs := Namesakes(block, left, right, name);
    assert forall r :: r in rs && IsBucket(r) ==> r == rs[1] || r == rs[2];
  }

  /** The right one is exposed, and nothing else is. */
  lemma RightIsExposed(expected: string, block: string, left: string, right: string, name: string, r: Resource)
    requires left != "" && Free(left, '.') && right != LocalBucket(left)
    ensures Exposed(NamesakePlan(expected, block, left, right, name), r) <==> r == BucketAt(right, name)
  {
    var plan, rs := NamesakePlan(expected, block, left, right, name), Namesakes(block, left, right, name);
    SmallResources(expected, plan.configuration, rs);
    OnlyLeftIsReferred(expected, block, left, right, name, r.address);
    hide Resources, LocalBucket, Referred, Trusted, NameField;
    assert rs[2] in rs;
    assert r in rs && IsBucket(r) ==> r == rs[1] || r == rs[2];
  }

  lemma NamesakesComply(expected: string, block: string, left: string, right: string, name: string)
    ensures var plan := NamesakePlan(expected, block, left, right, name);
            forall r :: r in Resources(plan) ==> Compliant(plan, r)
  {
    var plan, rs := NamesakePlan(expected, block, left, right, name), Namesakes(block, left, right, name);
    SmallResources(expected, plan.configuration, rs);
    NamedSo(block, name);
    hide Resources, Complete, Compliant, Trusted, NameField, LocalBucket;
    forall r | r in rs ensures Compliant(plan, r) { SmallCompliance(plan, r); }
  }

  lemma NamesakesAreNamed(block: string, left: string, right: string, name: string)
    requires name != ""
    ensures var rs := Namesakes(block, left, right, name);
            NamedByBlock(rs, name) && SameName(rs[2], rs[1]) && BucketName(rs[2]) == name
  {
    var rs := Namesakes(block, left, right, name);
    NamedSo(block, name);
    NamedSo(LocalBucket(left), name);
    NamedSo(right, name);
    hide Complete, BucketName, NameField, LocalBucket;
    assert rs[0] in rs;
  }

  lemma NamesakesAreSensitive(expected: string, block: string, left: string, right: string, name: string)
    requires left != "" && Free(left, '.') && right != LocalBucket(left) && name != ""
    ensures OrderSensitive(NamesakePlan(expected, block, left, right, name), expected)
  {
    var plan, rs := NamesakePlan(expected, block, left, right, name), Namesakes(block, left, right, name);
    SmallResources(expected, plan.configuration, rs);
    NamesakesComply(expected, block, left, right, name);
    NamesakesAreNamed(block, left, right, name);
    TrustedIsProven(expected);
    forall r ensures Exposed(plan, r) <==> r == rs[2] { RightIsExposed(expected, block, left, right, name, r); }
    hide Resources, AccountProven, Exposed, Compliant, Trusted, NameField, LocalBucket;
    hide NamedByBlock, SameName, BucketName;
    assert rs[1] in rs;
  }

  lemma FlatIsDotFree(m: ConfigurationModule)
    requires m.calls == map[]
    ensures PolicyBlocks.DotFree(m)
  {
  }

  lemma NamesakesAreListed(expected: string, block: string, left: string, right: string, name: string)
    requires right != LocalBucket(left)
    ensures var plan := NamesakePlan(expected, block, left, right, name);
            PolicyBlocks.DotFree(plan.configuration) && DistinctAddresses(Resources(plan))
  {
    var plan := NamesakePlan(expected, block, left, right, name);
    FlatIsDotFree(plan.configuration);
    SmallResources(expected, plan.configuration, Namesakes(block, left, right, name));
    NamesakesAreDistinct(block, left, right, name);
  }

  /** With two buckets of one known name the verdict can depend on the order of the resources. */
  lemma SharedNameShowsOrder(expected: string, block: string, left: string, right: string, name: string)
    requires left != "" && Free(left, '.') && right != LocalBucket(left) && name != ""
    ensures var plan := NamesakePlan(expected, block, left, right, name);
            && PolicyBlocks.DotFree(plan.configuration) && DistinctAddresses(Resources(plan))
            && exists q :: Rearranged(plan, q) && (Passes(plan, expected) != Passes(q, expected))
  {
    hide OrderSensitive, Rearranged, Passes, DistinctAddresses, NamesakePlan, LocalBucket, Resources;
    hide PolicyBlocks.DotFree, PolicyBlocks.OneTargetEach;
    NamesakesAreListed(expected, block, left, right, name);
    PolicyBlocks.DotFreeDecides(NamesakePlan(expected, block, left, right, name).configuration, "");
    NamesakesAreSensitive(expected, block, left, right, name);
    OrderMatters(NamesakePlan(expected, block, left, right, name), expected);
  }

  // ---- two module paths of one address ----

  /** The call "a.module.b", and the call "a" of a module that calls "b": both paths render one prefix. */
  function Twins(): ConfigurationModule {
    ConfigurationModule([], map["a.module.b" := ModuleCall(map[], Inner("left")),
                                "a" := ModuleCall(map[],
                                    ConfigurationModule([], map["b" := ModuleCall(map[], Inner("right"))]))])
  }

  function Inner(bucket: string): ConfigurationModule {
    ConfigurationModule([BlockFor("block", bucket)], map[])
  }

  const TWIN_PREFIX := "module.a.module.b."

  lemma OnePrefix()
    ensures PolicyImages.ChildPrefix("", "a.module.b") == TWIN_PREFIX
    ensures PolicyImages.ChildPrefix(PolicyImages.ChildPrefix("", "a"), "b") == TWIN_PREFIX
  {
    assert "module." + "a.module.b" + "." == TWIN_PREFIX;
    assert ("" + "module." + "a" + ".") + "module." + "b" + "." == TWIN_PREFIX;
  }

  /** The block's address has both targets. */
  lemma InnerTarget(bucket: string)
    requires bucket != "" && Free(bucket, '.')
    ensures TWIN_PREFIX + LocalBucket(bucket)
              in PolicyBlocks.Possible(Inner(bucket), TWIN_PREFIX, TWIN_PREFIX + "block")
  {
    FlatTargets(Inner(bucket), TWIN_PREFIX, TWIN_PREFIX + "block", TWIN_PREFIX + LocalBucket(bucket));
    OneBlock(TWIN_PREFIX, "block", bucket, TWIN_PREFIX + "block");
  }

  lemma PossibleThrough(m: ConfigurationModule, prefix: string, n: string, key: string, v: string)
    requires n in m.calls
    requires v in PolicyBlocks.Possible(PolicyImages.Body(m, n), PolicyImages.ChildPrefix(prefix, n), key)
    ensures v in PolicyBlocks.Possible(m, prefix, key)
  {
    assert v in PolicyBlocks.PossibleIn(m, prefix, n, key);
    PolicyBlocks.BelowUnfold(m, prefix, key, v);
  }

  lemma NotOneTarget(m: ConfigurationModule, key: string, v: string, w: string)
    requires v != w && v in PolicyBlocks.Possible(m, "", key) && w in PolicyBlocks.Possible(m, "", key)
    ensures !PolicyBlocks.OneTargetEach(m, "")
  {
    assert !PolicyBlocks.OneTargetAt(m, "", key);
  }

  lemma TwoTargets()
    ensures TWIN_PREFIX + LocalBucket("left") in PolicyBlocks.Possible(Twins(), "", TWIN_PREFIX + "block")
    ensures TWIN_PREFIX + LocalBucket("right") in PolicyBlocks.Possible(Twins(), "", TWIN_PREFIX + "block")
  {
    var m := Twins();
    OnePrefix();
    InnerTarget("left");
    InnerTarget("right");
    assert |"a"| != |"a.module.b"|;
    hide PolicyBlocks.Possible, PolicyImages.ChildPrefix, LocalBucket, Inner;
    PossibleThrough(m, "", "a.module.b", TWIN_PREFIX + "block", TWIN_PREFIX + LocalBucket("left"));
    var mid := PolicyImages.Body(m, "a");
    PossibleThrough(mid, PolicyImages.ChildPrefix("", "a"), "b", TWIN_PREFIX + "block",
                    TWIN_PREFIX + LocalBucket("right"));
    PossibleThrough(m, "", "a", TWIN_PREFIX + "block", TWIN_PREFIX + LocalBucket("right"));
  }

  /** One complete block, and the bucket its first target names; neither has a known name. */
  function TwinResources(): seq<Resource> {
    [CompleteBlock(TWIN_PREFIX + "block", ""), BucketAt(TWIN_PREFIX + LocalBucket("left"), "")]
  }

  function TwinPlan(expected: string): Plan {
    SmallPlan(expected, Twins(), TwinResources())
  }

  lemma TwinFacts(expected: string)
    ensures Resources(TwinPlan(expected)) == TwinResources() && DistinctAddresses(TwinResources())
    ensures forall r :: r in TwinResources() ==> Compliant(TwinPlan(expected), r)
  {
    var plan, rs := TwinPlan(expected), TwinResources();
    SmallResources(expected, Twins(), rs);
    NamedSo(TWIN_PREFIX + "block", "");
    hide Resources, Complete, Compliant, Trusted, NameField, LocalBucket, Twins;
    forall r | r in rs ensures Compliant(plan, r) { SmallCompliance(plan, r); }
    assert forall r :: r in rs && IsBucket(r) ==> r == rs[1];
  }

  /** The bucket is guarded exactly when the block ended with its first target. */
  lemma TwinGuarded(targets: map<string, string>)
    ensures AllGuarded(TwinResources(), targets)
       <==> TargetOf(targets, TWIN_PREFIX + "block") == TWIN_PREFIX + LocalBucket("left")
  {
    var rs := TwinResources();
    NamedSo(TWIN_PREFIX + "block", "");
    NamedSo(TWIN_PREFIX + LocalBucket("left"), "");
    assert !NamedByBlock(rs, "");
    hide Complete, NameField, LocalBucket, BucketName, NamedByBlock, TargetOf;
    assert rs[0] in rs && rs[1] in rs;
    assert forall r :: r in rs && IsBucket(r) ==> r == rs[1];
    assert forall b :: b in rs && IsBlock(b) ==> b == rs[0];
  }

  lemma TwinAnswer(expected: string, order: PolicyBlocks.Order) returns (vs: seq<Violation>)
    requires PolicyBlocks.ValidOrder(Twins(), order)
    ensures Answer(TwinPlan(expected), expected, vs)
    ensures vs == [] <==>
              TargetOf(TargetsFor(TwinPlan(expected), order), TWIN_PREFIX + "block")
                  == TWIN_PREFIX + LocalBucket("left")
  {
    var plan := TwinPlan(expected);
    TwinFacts(expected);
    TrustedIsProven(expected);
    TotalEmptyIff(plan, expected, TargetsFor(plan, order));
    TwinGuarded(TargetsFor(plan, order));
    hide Resources, Compliant, Trusted, Twins, TwinResources, AllGuarded, AccountProven;
    hide TargetOf, TargetsFor, PlanTotal;
    vs := AnswerOf(plan, expected, order);
    assert |multiset(vs)| == |vs|;
  }

  /** A plan with two answers, one that passes it and one that does not: the order in which Go visits
      the module calls decides. */
  lemma TwoAnswers(expected: string) returns (pass: seq<Violation>, fail: seq<Violation>)
    ensures Answer(TwinPlan(expected), expected, pass) && Answer(TwinPlan(expected), expected, fail)
    ensures pass == [] && fail != []
    ensures !PolicyBlocks.OneTargetEach(Twins(), "")
  {
    var key := TWIN_PREFIX + "block";
    var left, right := TWIN_PREFIX + LocalBucket("left"), TWIN_PREFIX + LocalBucket("right");
    TwoTargets();
    assert left != right by { assert left[|left| - 4] == 'l' || |left| != |right|; }
    hide Twins, LocalBucket, PolicyBlocks.Possible, PolicyBlocks.OneTargetEach, TwinPlan, Answer;
    NotOneTarget(Twins(), key, left, right);
    var first := PolicyBlocks.PossibleIsReached(Twins(), "", key, left);
    var second := PolicyBlocks.PossibleIsReached(Twins(), "", key, right);
    TwinEnds(expected, first, key, left);
    TwinEnds(expected, second, key, right);
    pass := TwinAnswer(expected, first);
    fail := TwinAnswer(expected, second);
  }

  lemma TwinEnds(expected: string, order: PolicyBlocks.Order, key: string, v: string)
    requires PolicyBlocks.AlwaysEndsWith(Twins(), "", order, key, v)
    ensures TargetOf(TargetsFor(TwinPlan(expected), order), key) == v
  {
    hide Twins;
    assert TwinPlan(expected).configuration == Twins();
  }
}
