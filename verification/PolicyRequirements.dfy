/** What the policy asks of one resource, stated over the plan, and that the rules report exactly the
    requirements it does not meet. */
module PolicyRequirements {
  import opened PolicyPlan
  import opened PolicyRules
  import opened PolicyEvaluate
  import PolicyImages

  /** No rule lets the world in. */
  ghost predicate ClosedIngress(r: Resource) {
    && (r.kind.IngressRule? ==> !OpenAddress(r) && !UnknownAddress(r))
    && (r.kind.SecurityGroupRule? && IsIngress(r) ==> !OpenLists(r))
    && (r.kind.SecurityGroup? ==> !OpenInline(r))
  }

  /** The images are pinned in the plan; or they are not known yet, and a module path of the
      configuration carries a pinned image to the task. */
  ghost predicate Pinned(plan: Plan, r: Resource) {
    || TaskImagesUseDigests(plan.containers, Field(r.values, "container_definitions"))
    || (ImagesUnknown(r) && PolicyImages.HasSite(plan.configuration, "", RootImage(plan), r.address))
  }

  /** A web ACL is set; or it is not known yet, and the plan has one. */
  ghost predicate Shielded(plan: Plan, r: Resource) {
    HasACL(r) || (ACLUnknown(r) && exists w :: w in Resources(plan) && w.kind.WebACL?)
  }

  /** What each requirement asks for. */
  ghost predicate Meets(plan: Plan, r: Resource, rule: Rule) {
    match rule
    case DatabaseInOneZone => r.kind.DatabaseInstance? ==> MultiAZ(r)
    case DatabasePublic => r.kind.DatabaseInstance? ==> KeptPrivate(r)
    case DatabaseUnencrypted => r.kind.DatabaseInstance? ==> Encrypted(r)
    case LoadBalancerPublic => r.kind.LoadBalancer? ==> Internal(r)
    case ServicePublic => r.kind.EcsService? ==> !EcsAssignsPublicIP(r.values)
    case IngressOpen => ClosedIngress(r)
    case BlockIncomplete => r.kind.PublicAccessBlock? ==> Complete(r)
    case ImageNotPinned => r.kind.TaskDefinition? ==> Pinned(plan, r)
    case DistributionUnshielded => r.kind.Distribution? ==> Shielded(plan, r)
    case CompressionUncached => r.kind.CachePolicy? ==> !CompressesUncached(r)
    case BucketUnguarded => true
  }

  ghost predicate Compliant(plan: Plan, r: Resource) {
    forall rule :: Meets(plan, r, rule)
  }

  lemma OnceWhen(broken: bool, rule: Rule, other: Rule)
    ensures multiset(When(broken, rule))[other] == if broken && rule == other then 1 else 0
  {
  }

  lemma OnceEach(a: seq<Rule>, b: seq<Rule>, c: seq<Rule>, rule: Rule)
    ensures multiset(a + b + c)[rule] == multiset(a)[rule] + multiset(b)[rule] + multiset(c)[rule]
  {
  }

  lemma DatabaseExact(plan: Plan, r: Resource, c: Context, rule: Rule)
    requires r.kind.DatabaseInstance?
    ensures multiset(OwnRules(r, c))[rule] == if Meets(plan, r, rule) then 0 else 1
  {
    hide MultiAZ, KeptPrivate, Encrypted, When;
    OnceWhen(!MultiAZ(r), DatabaseInOneZone, rule);
    OnceWhen(!KeptPrivate(r), DatabasePublic, rule);
    OnceWhen(!Encrypted(r), DatabaseUnencrypted, rule);
    OnceEach(When(!MultiAZ(r), DatabaseInOneZone), When(!KeptPrivate(r), DatabasePublic),
             When(!Encrypted(r), DatabaseUnencrypted), rule);
  }

  lemma NetworkExact(plan: Plan, r: Resource, c: Context, rule: Rule)
    requires r.kind.LoadBalancer? || r.kind.IngressRule? || r.kind.SecurityGroupRule? || r.kind.SecurityGroup?
    ensures multiset(OwnRules(r, c))[rule] == if Meets(plan, r, rule) then 0 else 1
  {
    hide Internal, OpenAddress, UnknownAddress, IsIngress, OpenLists, OpenInline, When;
    OnceWhen(!Internal(r), LoadBalancerPublic, rule);
    OnceWhen(OpenAddress(r) || UnknownAddress(r), IngressOpen, rule);
    OnceWhen(IsIngress(r) && OpenLists(r), IngressOpen, rule);
    OnceWhen(OpenInline(r), IngressOpen, rule);
  }

  lemma PinnedIff(plan: Plan, r: Resource, targets: map<string, string>)
    ensures var c := ContextOf(plan, targets);
            Pinned(plan, r) <==> PinnedInPlan(r, c) || (ImagesUnknown(r) && r.address in c.proofs)
  {
    PolicyImages.ImageProofsExact(plan.configuration, "", RootImage(plan), r.address);
  }

  lemma ShieldedIff(plan: Plan, r: Resource, targets: map<string, string>)
    ensures Shielded(plan, r) <==> HasACL(r) || (ACLUnknown(r) && ContextOf(plan, targets).hasWAF)
  {
  }

  lemma ServiceExact(plan: Plan, r: Resource, targets: map<string, string>, rule: Rule)
    requires r.kind.EcsService? || r.kind.PublicAccessBlock? || r.kind.TaskDefinition?
    ensures multiset(OwnRules(r, ContextOf(plan, targets)))[rule] == if Meets(plan, r, rule) then 0 else 1
  {
    hide PinnedInPlan, Pinned, ImagesUnknown, Complete, EcsAssignsPublicIP, When, ContextOf;
    var c := ContextOf(plan, targets);
    PinnedIff(plan, r, targets);
    OnceWhen(EcsAssignsPublicIP(r.values), ServicePublic, rule);
    OnceWhen(!Complete(r), BlockIncomplete, rule);
    OnceWhen(!PinnedInPlan(r, c) && (!ImagesUnknown(r) || r.address !in c.proofs), ImageNotPinned, rule);
  }

  lemma EdgeExact(plan: Plan, r: Resource, targets: map<string, string>, rule: Rule)
    requires r.kind.Distribution? || r.kind.CachePolicy? || r.kind.Bucket? || r.kind.WebACL? || r.kind.OtherKind?
    ensures multiset(OwnRules(r, ContextOf(plan, targets)))[rule] == if Meets(plan, r, rule) then 0 else 1
  {
    hide HasACL, ACLUnknown, Shielded, CompressesUncached, When, ContextOf;
    var c := ContextOf(plan, targets);
    ShieldedIff(plan, r, targets);
    OnceWhen(!HasACL(r) && (!ACLUnknown(r) || !c.hasWAF), DistributionUnshielded, rule);
    OnceWhen(CompressesUncached(r), CompressionUncached, rule);
  }

  /** A resource is reported for exactly the requirements it does not meet, once each, whatever the
      walk over the blocks found. */
  lemma OwnExact(plan: Plan, r: Resource, targets: map<string, string>, rule: Rule)
    ensures multiset(OwnRules(r, ContextOf(plan, targets)))[rule] == if Meets(plan, r, rule) then 0 else 1
  {
    hide OwnRules, Meets, ContextOf;
    match r.kind
    case DatabaseInstance => DatabaseExact(plan, r, ContextOf(plan, targets), rule);
    case LoadBalancer => NetworkExact(plan, r, ContextOf(plan, targets), rule);
    case IngressRule => NetworkExact(plan, r, ContextOf(plan, targets), rule);
    case SecurityGroupRule => NetworkExact(plan, r, ContextOf(plan, targets), rule);
    case SecurityGroup => NetworkExact(plan, r, ContextOf(plan, targets), rule);
    case EcsService => ServiceExact(plan, r, targets, rule);
    case PublicAccessBlock => ServiceExact(plan, r, targets, rule);
    case TaskDefinition => ServiceExact(plan, r, targets, rule);
    case _ => EdgeExact(plan, r, targets, rule);
  }

  lemma OwnEmptyIff(plan: Plan, r: Resource, targets: map<string, string>)
    ensures OwnRules(r, ContextOf(plan, targets)) == [] <==> Compliant(plan, r)
  {
    hide OwnRules, Meets, ContextOf;
    var rules := OwnRules(r, ContextOf(plan, targets));
    forall rule { OwnExact(plan, r, targets, rule); }
    if rules != [] { assert rules[0] in multiset(rules); }
  }

  lemma {:induction false} AllOwnEmpty(plan: Plan, rs: seq<Resource>, targets: map<string, string>)
    ensures AllOwn(rs, ContextOf(plan, targets)) == [] <==> forall r :: r in rs ==> Compliant(plan, r)
  {
    hide OwnRules, Compliant, ContextOf;
    if rs != [] {
      var front, last := rs[..|rs| - 1], rs[|rs| - 1];
      AllOwnEmpty(plan, front, targets);
      assert rs == front + [last];
      OwnEmptyIff(plan, last, targets);
      assert |AllOwn(rs, ContextOf(plan, targets))|
          == |AllOwn(front, ContextOf(plan, targets))| + |OwnRules(last, ContextOf(plan, targets))|;
    }
  }

  lemma OneSaysOther(address: string, rules: seq<Rule>, v: Violation)
    requires BucketUnguarded !in rules && v.message == BUCKET_MESSAGE
    ensures v !in At(address, rules)
  {
    hide Message;
    assert forall i :: 0 <= i < |rules| ==> !rules[i].BucketUnguarded?;
  }

  /** The bucket's message is said only by the rules about buckets. */
  lemma {:induction false} OwnSaysOther(plan: Plan, rs: seq<Resource>, targets: map<string, string>, address: string)
    ensures multiset(AllOwn(rs, ContextOf(plan, targets)))[Violation(address, BUCKET_MESSAGE)] == 0
  {
    hide OwnRules, Message, ContextOf, At;
    if rs != [] {
      var front, last := rs[..|rs| - 1], rs[|rs| - 1];
      var v := Violation(address, BUCKET_MESSAGE);
      OwnSaysOther(plan, front, targets, address);
      OwnExact(plan, last, targets, BucketUnguarded);
      OneSaysOther(last.address, OwnRules(last, ContextOf(plan, targets)), v);
      assert v !in AllOwn(front, ContextOf(plan, targets));
    }
  }
}
