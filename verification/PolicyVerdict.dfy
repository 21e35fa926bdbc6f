/** What an answer means: which buckets are reported, when nothing is, and that neither the order nor
    the nesting of the resources matters while bucket names are distinct. */
module PolicyVerdict {
  import opened PolicyPlan
  import opened PolicyResources
  import opened PolicyTotals
  import opened PolicyRules
  import opened PolicyEvaluate
  import opened PolicyRequirements
  import opened PolicyTargets
  import PolicyBlocks

  // ---- names ----

  ghost predicate NamedAt(rs: seq<Resource>, name: string, i: int) {
    0 <= i < |rs| && IsBucket(rs[i]) && BucketName(rs[i]) == name && name != ""
  }

  ghost predicate LastNamed(rs: seq<Resource>, name: string, i: int) {
    NamedAt(rs, name, i) && forall j :: i < j < |rs| ==> !NamedAt(rs, name, j)
  }

  lemma {:induction false} HasLast(rs: seq<Resource>, name: string, i: int) returns (last: int)
    requires NamedAt(rs, name, i)
    ensures LastNamed(rs, name, last) && i <= last
    decreases |rs| - i
  {
    last := i;
    if j :| i < j < |rs| && NamedAt(rs, name, j) {
      last := HasLast(rs, name, j);
    }
  }

  /** The map of names holds the address of the last bucket of each name. */
  lemma {:induction false} NamesExact(rs: seq<Resource>, name: string, i: int)
    requires LastNamed(rs, name, i)
    ensures name in Names(rs) && Names(rs)[name] == rs[i].address
  {
    hide IsBucket, BucketName;
    var front, n := rs[..|rs| - 1], |rs| - 1;
    if i < n {
      assert forall j :: 0 <= j < n ==> (NamedAt(front, name, j) <==> NamedAt(rs, name, j));
      assert !NamedAt(rs, name, n);
      NamesExact(front, name, i);
    }
  }

  lemma {:induction false} NamesHold(rs: seq<Resource>, name: string) returns (i: int)
    requires name in Names(rs)
    ensures NamedAt(rs, name, i)
  {
    var front, n := rs[..|rs| - 1], |rs| - 1;
    if NamedAt(rs, name, n) {
      i := n;
    } else {
      i := NamesHold(front, name);
    }
  }

  lemma {:induction false} AddressesHold(rs: seq<Resource>, a: string)
    ensures a in Addresses(rs) <==> exists r :: r in rs && IsBucket(r) && r.address == a
  {
    if rs != [] {
      AddressesHold(rs[..|rs| - 1], a);
      assert rs == rs[..|rs| - 1] + [rs[|rs| - 1]];
    }
  }

  // ---- the blocks that guard a bucket ----

  ghost predicate GuardedByTarget(rs: seq<Resource>, targets: map<string, string>, a: string) {
    exists b :: b in rs && IsBlock(b) && Complete(b) && TargetOf(targets, b.address) == a
  }

  lemma {:induction false} ProtectedHolds(rs: seq<Resource>, targets: map<string, string>, a: string)
    ensures a in Protected(rs, targets) <==> GuardedByTarget(rs, targets, a)
  {
    if rs != [] {
      ProtectedHolds(rs[..|rs| - 1], targets, a);
      assert rs == rs[..|rs| - 1] + [rs[|rs| - 1]];
    }
  }

  ghost predicate NamingBlock(rs: seq<Resource>, name: string, i: int) {
    0 <= i < |rs| && IsBlock(rs[i]) && BucketName(rs[i]) == name && name != ""
  }

  /** The last block that names the bucket is complete. */
  ghost predicate GuardedByName(rs: seq<Resource>, name: string) {
    exists i :: NamingBlock(rs, name, i) && Complete(rs[i]) && forall j :: i < j < |rs| ==> !NamingBlock(rs, name, j)
  }

  lemma {:induction false} BlocksHold(rs: seq<Resource>, name: string)
    ensures ProtectedByName(BlocksByName(rs), name) <==> GuardedByName(rs, name)
  {
    hide IsBlock, BucketName, Complete;
    if rs != [] {
      var front, n := rs[..|rs| - 1], |rs| - 1;
      BlocksHold(front, name);
      assert forall i :: 0 <= i < n ==> front[i] == rs[i];
      assert forall i :: 0 <= i < n ==> (NamingBlock(front, name, i) <==> NamingBlock(rs, name, i));
      if !NamingBlock(rs, name, n) && GuardedByName(front, name) {
        var i :| NamingBlock(front, name, i) && Complete(front[i])
                 && forall j :: i < j < |front| ==> !NamingBlock(front, name, j);
        assert NamingBlock(rs, name, i);
      }
    }
  }

  /** Some complete block names the bucket. */
  ghost predicate NamedByBlock(rs: seq<Resource>, name: string) {
    name != "" && exists b :: b in rs && IsBlock(b) && Complete(b) && BucketName(b) == name
  }

  predicate BlockFor(b: Resource, name: string) {
    IsBlock(b) && BucketName(b) == name
  }

  /** The blocks that name this bucket are all complete or all incomplete. */
  ghost predicate Agreed(rs: seq<Resource>, name: string) {
    forall b1, b2 :: b1 in rs && b2 in rs && BlockFor(b1, name) && BlockFor(b2, name) ==> Complete(b1) == Complete(b2)
  }

  /** When they agree, the last one is as good as any. */
  lemma AnyNamingBlock(rs: seq<Resource>, name: string)
    requires Agreed(rs, name)
    ensures GuardedByName(rs, name) <==> NamedByBlock(rs, name)
  {
    if NamedByBlock(rs, name) {
      var b :| b in rs && IsBlock(b) && Complete(b) && BucketName(b) == name;
      var i :| 0 <= i < |rs| && rs[i] == b;
      LastNaming(rs, name, i);
    }
    if GuardedByName(rs, name) {
      var i :| NamingBlock(rs, name, i) && Complete(rs[i]);
      assert rs[i] in rs;
    }
  }

  lemma {:induction false} LastNaming(rs: seq<Resource>, name: string, i: int)
    requires NamingBlock(rs, name, i) && Complete(rs[i]) && Agreed(rs, name)
    ensures GuardedByName(rs, name)
    decreases |rs| - i
  {
    if j :| i < j < |rs| && NamingBlock(rs, name, j) {
      assert rs[i] in rs && rs[j] in rs;
      assert BlockFor(rs[i], name) && BlockFor(rs[j], name);
      LastNaming(rs, name, j);
    }
  }

  // ---- what the configuration says ----

  /** The configuration makes this block point to this address; a block of which it says nothing
      points to the empty one. */
  ghost predicate PointsTo(plan: Plan, block: string, a: string) {
    Targets(plan.configuration, block, a) || (a == "" && forall v :: !Targets(plan.configuration, block, v))
  }

  /** A complete planned block points to the address. */
  ghost predicate Referred(plan: Plan, a: string) {
    exists b :: b in Resources(plan) && IsBlock(b) && Complete(b) && PointsTo(plan, b.address, a)
  }

  lemma PointsToIff(plan: Plan, order: PolicyBlocks.Order, block: string, a: string)
    requires PolicyBlocks.OneTargetAt(plan.configuration, "", block)
    requires PolicyBlocks.ValidOrder(plan.configuration, order)
    ensures TargetOf(TargetsFor(plan, order), block) == a <==> PointsTo(plan, block, a)
  {
    var t := TargetsFor(plan, order);
    forall v ensures block in t && t[block] == v <==> Targets(plan.configuration, block, v) {
      TargetsExact(plan.configuration, order, block, v);
    }
    if block in t { assert Targets(plan.configuration, block, t[block]); }
  }

  lemma ReferredIff(plan: Plan, order: PolicyBlocks.Order, a: string)
    requires PolicyBlocks.OneTargetEach(plan.configuration, "") && PolicyBlocks.ValidOrder(plan.configuration, order)
    ensures GuardedByTarget(Resources(plan), TargetsFor(plan, order), a) <==> Referred(plan, a)
  {
    hide PointsTo, TargetOf, TargetsFor, Resources, IsBlock, Complete;
    forall b: Resource ensures TargetOf(TargetsFor(plan, order), b.address) == a <==> PointsTo(plan, b.address, a) {
      PointsToIff(plan, order, b.address, a);
    }
  }

  // ---- each bucket is reported once or not at all ----

  predicate Clash(r1: Resource, r2: Resource) {
    IsBucket(r1) && IsBucket(r2)
    && (r1.address == r2.address || (BucketName(r1) != "" && BucketName(r1) == BucketName(r2)))
  }

  /** Two planned buckets with one address or one known name are one bucket. */
  ghost predicate DistinctBuckets(rs: seq<Resource>) {
    forall r1, r2 :: r1 in rs && r2 in rs && Clash(r1, r2) ==> r1 == r2
  }

  lemma NameIsOwn(rs: seq<Resource>, r: Resource)
    requires DistinctBuckets(rs) && r in rs && IsBucket(r) && BucketName(r) != ""
    ensures BucketName(r) in Names(rs) && Names(rs)[BucketName(r)] == r.address
  {
    var k :| 0 <= k < |rs| && rs[k] == r;
    var i := HasLast(rs, BucketName(r), k);
    NamesExact(rs, BucketName(r), i);
    assert Clash(rs[i], r);
  }

  lemma OtherNames(rs: seq<Resource>, r: Resource, name: string)
    requires DistinctBuckets(rs) && r in rs && IsBucket(r)
    requires name in Names(rs) && Names(rs)[name] == r.address
    ensures name == BucketName(r) && name != ""
  {
    var k := NamesHold(rs, name);
    var i := HasLast(rs, name, k);
    NamesExact(rs, name, i);
    assert Clash(rs[i], r);
  }

  /** How often the bucket's message is said about a bucket: by name, then by address. */
  lemma NamedCount(rs: seq<Resource>, targets: map<string, string>, r: Resource)
    requires DistinctBuckets(rs) && r in rs && IsBucket(r)
    ensures var v := Violation(r.address, BUCKET_MESSAGE);
            var lists := NamedLists(Names(rs), BlocksByName(rs), Protected(rs, targets));
            Sum(lists)[v] == if BucketName(r) != "" && !GuardedByName(rs, BucketName(r))
                                && !GuardedByTarget(rs, targets, r.address) then 1 else 0
  {
    hide DistinctBuckets, GuardedByName, GuardedByTarget, ProtectedByName, Total, Names, BlocksByName, Protected;
    var v := Violation(r.address, BUCKET_MESSAGE);
    var names, name := Names(rs), BucketName(r);
    var lists := NamedLists(names, BlocksByName(rs), Protected(rs, targets));
    var m := map k | k in lists :: multiset(lists[k]);
    forall k | k in m && k != name ensures m[k][v] == 0 {
      if names[k] == r.address { OtherNames(rs, r, k); }
    }
    TotalSingle(m, name, v);
    BlocksHold(rs, name);
    ProtectedHolds(rs, targets, r.address);
    if name != "" { NameIsOwn(rs, r); }
    if name in names { var i := NamesHold(rs, name); }
  }

  lemma KnownNameIff(rs: seq<Resource>, r: Resource)
    requires DistinctBuckets(rs) && r in rs && IsBucket(r)
    ensures HasKnownName(Names(rs), r.address) <==> BucketName(r) != ""
  {
    if BucketName(r) != "" { NameIsOwn(rs, r); }
    if n :| n in Names(rs) && Names(rs)[n] == r.address { OtherNames(rs, r, n); }
  }

  lemma AddressCount(rs: seq<Resource>, targets: map<string, string>, r: Resource)
    requires DistinctBuckets(rs) && r in rs && IsBucket(r)
    ensures var v := Violation(r.address, BUCKET_MESSAGE);
            var lists := AddressLists(Addresses(rs), Names(rs), Protected(rs, targets));
            Sum(lists)[v] == if BucketName(r) == "" && !GuardedByTarget(rs, targets, r.address) then 1 else 0
  {
    hide DistinctBuckets, GuardedByTarget, HasKnownName, Total, Names, Protected, Addresses;
    var v := Violation(r.address, BUCKET_MESSAGE);
    var lists := AddressLists(Addresses(rs), Names(rs), Protected(rs, targets));
    var m := map k | k in lists :: multiset(lists[k]);
    TotalSingle(m, r.address, v);
    AddressesHold(rs, r.address);
    ProtectedHolds(rs, targets, r.address);
    KnownNameIff(rs, r);
  }

  lemma AccountSaysOther(plan: Plan, expected: string, v: Violation)
    requires v.message == BUCKET_MESSAGE
    ensures AccountTotal(plan.providers, expected)[v] == 0
  {
    hide Total, ProviderViolations;
    var lists := AccountLists(plan.providers, expected);
    var m := map k | k in lists :: multiset(lists[k]);
    forall k | k in m ensures m[k][v] == 0 {
      AccountListSaysOther(plan.providers, expected, k);
      assert v !in lists[k];
    }
    TotalSingle(m, "aws", v);
  }

  lemma AccountListSaysOther(providers: map<string, Provider>, expected: string, k: string)
    requires k in AccountLists(providers, expected)
    ensures forall i :: 0 <= i < |AccountLists(providers, expected)[k]| ==>
              AccountLists(providers, expected)[k][i].message != BUCKET_MESSAGE
  {
    assert |BUCKET_MESSAGE| == 45;
  }

  /** Each planned bucket is reported exactly once or not at all in any answer; not at all exactly when
      the last block naming it is complete or a complete block points to it in the configuration. */
  lemma BucketVerdict(plan: Plan, expected: string, vs: seq<Violation>, r: Resource)
    requires PolicyBlocks.OneTargetEach(plan.configuration, "") && Answer(plan, expected, vs)
    requires DistinctBuckets(Resources(plan)) && r in Resources(plan) && IsBucket(r)
    ensures multiset(vs)[Violation(r.address, BUCKET_MESSAGE)] ==
            if GuardedByName(Resources(plan), BucketName(r)) || Referred(plan, r.address) then 0 else 1
  {
    assert !GuardedByName(Resources(plan), "");
    hide Resources, DistinctBuckets, AccountTotal, AllOwn, Sum, NamedLists, AddressLists;
    hide GuardedByName, GuardedByTarget, Referred;
    var order :| PolicyBlocks.ValidOrder(plan.configuration, order)
                 && multiset(vs) == PlanTotal(plan, expected, TargetsFor(plan, order));
    var rs, targets := Resources(plan), TargetsFor(plan, order);
    AccountSaysOther(plan, expected, Violation(r.address, BUCKET_MESSAGE));
    OwnSaysOther(plan, rs, targets, r.address);
    NamedCount(rs, targets, r);
    AddressCount(rs, targets, r);
    ReferredIff(plan, order, r.address);
  }

  // ---- what an empty answer means ----

  /** No two planned buckets have one address. */
  ghost predicate DistinctAddresses(rs: seq<Resource>) {
    forall r1, r2 :: r1 in rs && r2 in rs && IsBucket(r1) && IsBucket(r2) && r1.address == r2.address ==> r1 == r2
  }

  /** No bucket of the same known name comes behind this one. */
  ghost predicate Foremost(rs: seq<Resource>, r: Resource) {
    exists i :: LastNamed(rs, BucketName(r), i) && rs[i].address == r.address
  }

  /** A complete block names the bucket, and the bucket is the last of its name. */
  ghost predicate Claimed(rs: seq<Resource>, r: Resource) {
    NamedByBlock(rs, BucketName(r)) && Foremost(rs, r)
  }

  ghost predicate NothingSaid(rs: seq<Resource>, targets: map<string, string>) {
    var names, guarded := Names(rs), Protected(rs, targets);
    && Sum(NamedLists(names, BlocksByName(rs), guarded)) == multiset{}
    && Sum(AddressLists(Addresses(rs), names, guarded)) == multiset{}
  }

  lemma SumEmpty(lists: map<string, seq<Violation>>)
    ensures Sum(lists) == multiset{} <==> forall k :: k in lists ==> lists[k] == []
  {
    var m := map k | k in lists :: multiset(lists[k]);
    TotalEmpty(m);
    forall k | k in lists ensures m[k] == multiset{} <==> lists[k] == [] {
      if lists[k] != [] { assert lists[k][0] in m[k]; }
    }
  }

  /** Nothing is said by name and nothing by address, in terms of the two maps. */
  lemma NothingSaidIff(rs: seq<Resource>, targets: map<string, string>)
    requires forall b :: b in rs && IsBlock(b) ==> Complete(b)
    ensures NothingSaid(rs, targets) <==>
      && (forall n :: n in Names(rs) ==> NamedByBlock(rs, n) || GuardedByTarget(rs, targets, Names(rs)[n]))
      && (forall a :: a in Addresses(rs) ==> HasKnownName(Names(rs), a) || GuardedByTarget(rs, targets, a))
  {
    assert forall n :: Agreed(rs, n);
    hide IsBlock, Complete, NamedByBlock, GuardedByTarget, Names, Addresses, BlocksByName, Protected, Sum, HasKnownName;
    hide ProtectedByName, GuardedByName, Agreed;
    var names, blocks, guarded := Names(rs), BlocksByName(rs), Protected(rs, targets);
    forall n ensures ProtectedByName(blocks, n) <==> NamedByBlock(rs, n) {
      BlocksHold(rs, n);
      AnyNamingBlock(rs, n);
    }
    forall a ensures a in guarded <==> GuardedByTarget(rs, targets, a) { ProtectedHolds(rs, targets, a); }
    var named, unnamed := NamedLists(names, blocks, guarded), AddressLists(Addresses(rs), names, guarded);
    SumEmpty(named);
    SumEmpty(unnamed);
    forall n | n in names ensures named[n] == [] <==> NamedByBlock(rs, n) || GuardedByTarget(rs, targets, names[n]) {
      assert named[n] == if !ProtectedByName(blocks, n) && names[n] !in guarded then Unprotected(names[n]) else [];
    }
    forall a | a in Addresses(rs)
      ensures unnamed[a] == [] <==> HasKnownName(names, a) || GuardedByTarget(rs, targets, a)
    {
      assert unnamed[a] == if !HasKnownName(names, a) && a !in guarded then Unprotected(a) else [];
    }
  }

  /** Every bucket no block points to is claimed by name. */
  ghost predicate AllGuarded(rs: seq<Resource>, targets: map<string, string>) {
    forall r :: r in rs && IsBucket(r) ==> GuardedByTarget(rs, targets, r.address) || Claimed(rs, r)
  }

  lemma SilentMeansGuarded(rs: seq<Resource>, targets: map<string, string>)
    requires (forall b :: b in rs && IsBlock(b) ==> Complete(b)) && DistinctAddresses(rs)
    requires NothingSaid(rs, targets)
    ensures AllGuarded(rs, targets)
  {
    NothingSaidIff(rs, targets);
    hide IsBlock, Complete, NamedByBlock, GuardedByTarget, Names, Addresses, NothingSaid, BucketName;
    forall r | r in rs && IsBucket(r) && !GuardedByTarget(rs, targets, r.address) ensures Claimed(rs, r) {
      AddressesHold(rs, r.address);
      var n :| n in Names(rs) && Names(rs)[n] == r.address;
      var k := NamesHold(rs, n);
      var i := HasLast(rs, n, k);
      NamesExact(rs, n, i);
      assert rs[i] == r;
    }
  }

  lemma GuardedMeansSilent(rs: seq<Resource>, targets: map<string, string>)
    requires (forall b :: b in rs && IsBlock(b) ==> Complete(b)) && AllGuarded(rs, targets)
    ensures NothingSaid(rs, targets)
  {
    NothingSaidIff(rs, targets);
    hide IsBlock, Complete, NamedByBlock, GuardedByTarget, Names, Addresses, NothingSaid, BucketName;
    forall n | n in Names(rs) ensures NamedByBlock(rs, n) || GuardedByTarget(rs, targets, Names(rs)[n]) {
      var k := NamesHold(rs, n);
      var i := HasLast(rs, n, k);
      NamesExact(rs, n, i);
      assert rs[i] in rs;
    }
    forall a | a in Addresses(rs) ensures HasKnownName(Names(rs), a) || GuardedByTarget(rs, targets, a) {
      AddressesHold(rs, a);
      var r :| r in rs && IsBucket(r) && r.address == a;
      if Claimed(rs, r) {
        var i :| LastNamed(rs, BucketName(r), i) && rs[i].address == a;
        NamesExact(rs, BucketName(r), i);
      }
    }
  }

  /** The policy itself: no map, no loop and no walk decides it. */
  ghost predicate Secure(plan: Plan, expected: string) {
    var rs := Resources(plan);
    && AccountProven(plan.providers, expected)
    && (forall r :: r in rs ==> Compliant(plan, r))
    && (forall r :: r in rs && IsBucket(r) ==> Referred(plan, r.address) || Claimed(rs, r))
  }

  lemma CompliantBlocks(plan: Plan)
    requires forall r :: r in Resources(plan) ==> Compliant(plan, r)
    ensures forall b :: b in Resources(plan) && IsBlock(b) ==> Complete(b)
  {
    hide Resources, Complete;
    assert forall b :: b in Resources(plan) ==> Meets(plan, b, BlockIncomplete);
  }

  /** One order's violations: none exactly when everything asked for is met under its targets. */
  lemma TotalEmptyIff(plan: Plan, expected: string, targets: map<string, string>)
    requires DistinctAddresses(Resources(plan))
    ensures PlanTotal(plan, expected, targets) == multiset{} <==>
      && AccountProven(plan.providers, expected)
      && (forall r :: r in Resources(plan) ==> Compliant(plan, r))
      && AllGuarded(Resources(plan), targets)
  {
    var rs := Resources(plan);
    AccountProvenIff(plan.providers, expected);
    AllOwnEmpty(plan, rs, targets);
    hide Resources, DistinctAddresses, AccountTotal, AccountProven, Compliant, AllOwn, AllGuarded, IsBlock, Complete;
    assert |multiset(AllOwn(rs, ContextOf(plan, targets)))| == |AllOwn(rs, ContextOf(plan, targets))|;
    assert PlanTotal(plan, expected, targets) == multiset{} <==>
      && AccountTotal(plan.providers, expected) == multiset{}
      && AllOwn(rs, ContextOf(plan, targets)) == [] && NothingSaid(rs, targets);
    hide PlanTotal, NothingSaid;
    if forall r :: r in rs ==> Compliant(plan, r) {
      CompliantBlocks(plan);
      if NothingSaid(rs, targets) { SilentMeansGuarded(rs, targets); }
      if AllGuarded(rs, targets) { GuardedMeansSilent(rs, targets); }
    }
  }

  lemma GuardedIff(plan: Plan, order: PolicyBlocks.Order)
    requires PolicyBlocks.OneTargetEach(plan.configuration, "") && PolicyBlocks.ValidOrder(plan.configuration, order)
    ensures var rs := Resources(plan);
            AllGuarded(rs, TargetsFor(plan, order)) <==>
              forall r :: r in rs && IsBucket(r) ==> Referred(plan, r.address) || Claimed(rs, r)
  {
    hide Resources, Referred, GuardedByTarget, Claimed, TargetsFor;
    var rs := Resources(plan);
    forall r: Resource
      ensures GuardedByTarget(rs, TargetsFor(plan, order), r.address) <==> Referred(plan, r.address)
    {
      ReferredIff(plan, order, r.address);
    }
  }

  /** Nothing is reported exactly when the plan meets the policy. */
  lemma PassesIff(plan: Plan, expected: string, vs: seq<Violation>)
    requires PolicyBlocks.OneTargetEach(plan.configuration, "") && DistinctAddresses(Resources(plan))
    requires Answer(plan, expected, vs)
    ensures vs == [] <==> Secure(plan, expected)
  {
    hide Resources, DistinctAddresses, PlanTotal, AllGuarded, Compliant, AccountProven, Referred, Claimed;
    var order :| PolicyBlocks.ValidOrder(plan.configuration, order)
                 && multiset(vs) == PlanTotal(plan, expected, TargetsFor(plan, order));
    TotalEmptyIff(plan, expected, TargetsFor(plan, order));
    GuardedIff(plan, order);
    assert |multiset(vs)| == |vs|;
  }

  /** `Evaluate` can give the empty answer. */
  ghost predicate Passes(plan: Plan, expected: string) {
    Answer(plan, expected, [])
  }

  lemma PassesExactly(plan: Plan, expected: string)
    requires PolicyBlocks.OneTargetEach(plan.configuration, "") && DistinctAddresses(Resources(plan))
    ensures Passes(plan, expected) <==> Secure(plan, expected)
  {
    hide Resources, DistinctAddresses, Secure, Answer;
    if Passes(plan, expected) { PassesIff(plan, expected, []); }
    var order := PolicyBlocks.SomeOrder(plan.configuration);
    var vs := AnswerOf(plan, expected, order);
    PassesIff(plan, expected, vs);
  }

  /** Dot-free module names are enough for both. */
  lemma DotFreeVerdict(plan: Plan, expected: string, vs: seq<Violation>)
    requires PolicyBlocks.DotFree(plan.configuration) && Answer(plan, expected, vs)
    ensures DistinctAddresses(Resources(plan)) ==> (vs == [] <==> Secure(plan, expected))
    ensures forall r :: DistinctBuckets(Resources(plan)) && r in Resources(plan) && IsBucket(r) ==>
              multiset(vs)[Violation(r.address, BUCKET_MESSAGE)] ==
              if GuardedByName(Resources(plan), BucketName(r)) || Referred(plan, r.address) then 0 else 1
  {
    PolicyBlocks.DotFreeDecides(plan.configuration, "");
    hide Resources, DistinctAddresses, DistinctBuckets, Secure, GuardedByName, Referred, Answer;
    hide PolicyBlocks.OneTargetEach;
    if DistinctAddresses(Resources(plan)) { PassesIff(plan, expected, vs); }
    forall r | DistinctBuckets(Resources(plan)) && r in Resources(plan) && IsBucket(r)
      ensures multiset(vs)[Violation(r.address, BUCKET_MESSAGE)] ==
              if GuardedByName(Resources(plan), BucketName(r)) || Referred(plan, r.address) then 0 else 1
    {
      BucketVerdict(plan, expected, vs, r);
    }
  }

  // ---- the verdict ignores order and nesting ----

  ghost predicate SameResources(a: seq<Resource>, b: seq<Resource>) {
    forall r :: r in a <==> r in b
  }

  /** The two plans differ only in how their resources come about. */
  ghost predicate SameButResources(p: Plan, q: Plan) {
    q == p.(planned := q.planned, changes := q.changes)
  }

  lemma SameCompliance(p: Plan, q: Plan, r: Resource)
    requires SameButResources(p, q) && SameResources(Resources(p), Resources(q))
    ensures Compliant(p, r) <==> Compliant(q, r)
    ensures Referred(p, r.address) <==> Referred(q, r.address)
    ensures NamedByBlock(Resources(p), BucketName(r)) <==> NamedByBlock(Resources(q), BucketName(r))
  {
    hide Resources, TaskImagesUseDigests, Complete, HasACL, ACLUnknown, ImagesUnknown, Targets, BucketName;
    forall rule ensures Meets(p, r, rule) <==> Meets(q, r, rule) {
      SameMeets(p, q, r, rule);
    }
    assert forall b, a :: PointsTo(p, b, a) <==> PointsTo(q, b, a);
  }

  lemma SameMeets(p: Plan, q: Plan, r: Resource, rule: Rule)
    requires SameButResources(p, q) && SameResources(Resources(p), Resources(q))
    ensures Meets(p, r, rule) <==> Meets(q, r, rule)
  {
    hide Resources, TaskImagesUseDigests, Complete, HasACL, ACLUnknown, ImagesUnknown, Field;
    assert RootImage(p) == RootImage(q);
  }

  /** With distinct known names every named bucket is the last of its name. */
  lemma DistinctMeansForemost(rs: seq<Resource>, r: Resource)
    requires DistinctBuckets(rs) && r in rs && IsBucket(r) && BucketName(r) != ""
    ensures Foremost(rs, r)
  {
    var k :| 0 <= k < |rs| && rs[k] == r;
    var i := HasLast(rs, BucketName(r), k);
    assert Clash(rs[i], r);
  }

  lemma SecureIgnoresOrder(p: Plan, q: Plan, expected: string)
    requires SameButResources(p, q) && SameResources(Resources(p), Resources(q)) && DistinctBuckets(Resources(q))
    requires Secure(p, expected)
    ensures Secure(q, expected)
  {
    assert !NamedByBlock(Resources(p), "");
    hide Resources, Compliant, Referred, NamedByBlock, AccountProven, DistinctBuckets, Foremost;
    forall r | r in Resources(q)
      ensures Compliant(q, r)
      ensures IsBucket(r) ==> Referred(q, r.address) || Claimed(Resources(q), r)
    {
      SameCompliance(p, q, r);
      if IsBucket(r) && BucketName(r) != "" { DistinctMeansForemost(Resources(q), r); }
    }
  }

  /** Two plans that differ only in how their resources are ordered or repeated get one verdict,
      whatever orders their executions take. */
  lemma VerdictIgnoresOrder(p: Plan, q: Plan, expected: string, a: seq<Violation>, b: seq<Violation>)
    requires SameButResources(p, q) && SameResources(Resources(p), Resources(q))
    requires PolicyBlocks.OneTargetEach(p.configuration, "") && DistinctBuckets(Resources(p))
    requires Answer(p, expected, a) && Answer(q, expected, b)
    ensures a == [] <==> b == []
  {
    assert DistinctBuckets(Resources(q));
    DistinctEnough(Resources(p));
    DistinctEnough(Resources(q));
    hide Resources, DistinctBuckets, DistinctAddresses, Secure, Answer;
    PassesIff(p, expected, a);
    PassesIff(q, expected, b);
    if Secure(p, expected) { SecureIgnoresOrder(p, q, expected); }
    if Secure(q, expected) { SecureIgnoresOrder(q, p, expected); }
  }

  lemma DistinctEnough(rs: seq<Resource>)
    requires DistinctBuckets(rs)
    ensures DistinctAddresses(rs)
  {
    forall r1, r2 | r1 in rs && r2 in rs && IsBucket(r1) && IsBucket(r2) && r1.address == r2.address ensures r1 == r2 {
      assert Clash(r1, r2);
    }
  }

  /** Moving resources between child modules, at any depth, or permuting them leaves the verdict. */
  lemma VerdictIgnoresNesting(p: Plan, q: Plan, expected: string, a: seq<Violation>, b: seq<Violation>)
    requires q == p.(planned := q.planned)
    requires SameWritten(p.planned, q.planned)
    requires PolicyBlocks.OneTargetEach(p.configuration, "") && DistinctBuckets(Resources(p))
    requires Answer(p, expected, a) && Answer(q, expected, b)
    ensures a == [] <==> b == []
  {
    SameNesting(p, q);
    VerdictIgnoresOrder(p, q, expected, a, b);
  }

  lemma SameNesting(p: Plan, q: Plan)
    requires q == p.(planned := q.planned) && SameWritten(p.planned, q.planned)
    ensures SameResources(Resources(p), Resources(q))
  {
    SameWrittenIff(p.planned, q.planned);
    var a, b := Flatten(p.planned), Flatten(q.planned);
    assert a == [] <==> b == [] by { assert |multiset(a)| == |a| && |multiset(b)| == |b|; }
    var unknown := UnknownByAddress(p.changes);
    if a != [] {
      AnnotatedMembers(a, b, unknown);
      AnnotatedMembers(b, a, unknown);
    }
  }

  lemma AnnotatedMembers(a: seq<Resource>, b: seq<Resource>, unknown: map<string, Fields>)
    requires multiset(a) == multiset(b)
    ensures forall r :: r in Annotate(a, unknown) ==> r in Annotate(b, unknown)
  {
    forall r | r in Annotate(a, unknown) ensures r in Annotate(b, unknown) {
      var i :| 0 <= i < |a| && Annotate(a, unknown)[i] == r;
      assert a[i] in multiset(b);
      var j :| 0 <= j < |b| && b[j] == a[i];
      assert Annotate(b, unknown)[j] == r;
    }
  }
}
