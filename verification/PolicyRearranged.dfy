/** Exactly when the whole answer, and not only the verdict, is the same for every order of the resources. */
module PolicyRearranged {
  import opened PolicyPlan
  import opened PolicyResources
  import opened PolicyTotals
  import opened PolicyRules
  import opened PolicyEvaluate
  import opened PolicyRequirements
  import opened PolicyVerdict
  import opened PolicyOrder
  import PolicyBlocks
  import opened ViolationOrder

  // ---- what is gathered from a list, whatever its order ----

  ghost function Gathered<T>(rs: seq<Resource>, f: Resource -> multiset<T>): multiset<T> {
    if rs == [] then multiset{} else Gathered(rs[..|rs| - 1], f) + f(rs[|rs| - 1])
  }

  lemma {:induction false} GatheredWithout<T>(rs: seq<Resource>, f: Resource -> multiset<T>, k: nat)
    requires k < |rs|
    ensures Gathered(rs, f) == Gathered(rs[..k] + rs[k + 1..], f) + f(rs[k])
    decreases |rs|
  {
    var n, less := |rs| - 1, rs[..k] + rs[k + 1..];
    if k < n {
      var front := rs[..n];
      GatheredWithout(front, f, k);
      assert less[..|less| - 1] == front[..k] + front[k + 1..];
      assert less[|less| - 1] == rs[n];
    } else {
      assert less == rs[..n];
    }
  }

  lemma {:induction false} GatheredPermuted<T>(a: seq<Resource>, b: seq<Resource>, f: Resource -> multiset<T>)
    requires multiset(a) == multiset(b)
    ensures Gathered(a, f) == Gathered(b, f)
    decreases |a|
  {
    assert |multiset(a)| == |a| && |multiset(b)| == |b|;
    if a != [] {
      var n := |a| - 1;
      assert a[n] in multiset(b);
      var k :| 0 <= k < |b| && b[k] == a[n];
      var less := b[..k] + b[k + 1..];
      MovedLast(b, k);
      Appended(less, b[k]);
      Appended(a[..n], a[n]);
      assert a == a[..n] + [a[n]];
      assert multiset(a[..n]) == multiset(a) - multiset{a[n]};
      assert multiset(less) == multiset(b) - multiset{a[n]};
      GatheredPermuted(a[..n], less, f);
      GatheredWithout(b, f, k);
    }
  }

  lemma {:induction false} OwnGathered(rs: seq<Resource>, c: Context)
    ensures multiset(AllOwn(rs, c)) == Gathered(rs, (r: Resource) => multiset(At(r.address, OwnRules(r, c))))
  {
    if rs != [] { OwnGathered(rs[..|rs| - 1], c); }
  }

  lemma {:induction false} AnnotateGathered(rs: seq<Resource>, unknown: map<string, Fields>)
    ensures multiset(Annotate(rs, unknown)) == Gathered(rs, (r: Resource) => multiset{WithUnknown(r, unknown)})
  {
    if rs != [] {
      AnnotateGathered(rs[..|rs| - 1], unknown);
      assert Annotate(rs, unknown) == Annotate(rs[..|rs| - 1], unknown) + [WithUnknown(rs[|rs| - 1], unknown)];
    }
  }

  /** Resources moved between child modules, at any depth, are resources in another order. */
  lemma NestingRearranges(p: Plan, q: Plan)
    requires q == p.(planned := q.planned) && SameWritten(p.planned, q.planned)
    ensures Rearranged(p, q)
  {
    SameWrittenIff(p.planned, q.planned);
    var a, b := Flatten(p.planned), Flatten(q.planned);
    assert a == [] <==> b == [] by { assert |multiset(a)| == |a| && |multiset(b)| == |b|; }
    var unknown := UnknownByAddress(p.changes);
    AnnotateGathered(a, unknown);
    AnnotateGathered(b, unknown);
    GatheredPermuted(a, b, (r: Resource) => multiset{WithUnknown(r, unknown)});
  }

  // ---- the maps of names, when buckets are distinct ----

  ghost predicate OwnsName(rs: seq<Resource>, n: string, a: string) {
    exists r :: r in rs && IsBucket(r) && BucketName(r) == n != "" && r.address == a
  }

  lemma NamesMean(rs: seq<Resource>, n: string, a: string)
    requires DistinctBuckets(rs)
    ensures n in Names(rs) && Names(rs)[n] == a <==> OwnsName(rs, n, a)
  {
    hide DistinctBuckets, IsBucket, BucketName, Names;
    if n in Names(rs) && Names(rs)[n] == a {
      var k := NamesHold(rs, n);
      NameIsOwn(rs, rs[k]);
    }
    if r :| r in rs && IsBucket(r) && BucketName(r) == n != "" && r.address == a { NameIsOwn(rs, r); }
  }

  lemma SameNames(a: seq<Resource>, b: seq<Resource>)
    requires DistinctBuckets(a) && DistinctBuckets(b) && SameResources(a, b)
    ensures Names(a) == Names(b) && Addresses(a) == Addresses(b)
  {
    hide DistinctBuckets, IsBucket, BucketName, Names, Addresses;
    forall n | n in Names(a) ensures n in Names(b) && Names(a)[n] == Names(b)[n] {
      NamesMean(a, n, Names(a)[n]);
      NamesMean(b, n, Names(a)[n]);
    }
    forall n | n in Names(b) ensures n in Names(a) {
      NamesMean(a, n, Names(b)[n]);
      NamesMean(b, n, Names(b)[n]);
    }
    forall x ensures x in Addresses(a) <==> x in Addresses(b) {
      AddressesHold(a, x);
      AddressesHold(b, x);
    }
  }

  // ---- what the maps say of two orders ----

  lemma SameByName(a: seq<Resource>, b: seq<Resource>, name: string)
    requires SameResources(a, b) && Agreed(a, name)
    ensures ProtectedByName(BlocksByName(a), name) <==> ProtectedByName(BlocksByName(b), name)
  {
    BlocksHold(a, name);
    BlocksHold(b, name);
    assert Agreed(b, name);
    AnyNamingBlock(a, name);
    AnyNamingBlock(b, name);
  }

  lemma SameGuards(a: seq<Resource>, b: seq<Resource>, targets: map<string, string>)
    requires SameResources(a, b)
    ensures Protected(a, targets) == Protected(b, targets)
  {
    forall x ensures x in Protected(a, targets) <==> x in Protected(b, targets) {
      ProtectedHolds(a, targets, x);
      ProtectedHolds(b, targets, x);
    }
  }

  lemma SameNamedLists(names: map<string, string>, guarded: set<string>, a: map<string, bool>, b: map<string, bool>)
    requires forall n :: n in names && names[n] !in guarded ==> (ProtectedByName(a, n) <==> ProtectedByName(b, n))
    ensures NamedLists(names, a, guarded) == NamedLists(names, b, guarded)
  {
  }

  /** The blocks agree about every bucket whose fate is theirs to decide. */
  ghost predicate BlocksAgree(plan: Plan) {
    forall r :: r in Resources(plan) && IsBucket(r) && BucketName(r) != "" && !Referred(plan, r.address)
      ==> Agreed(Resources(plan), BucketName(r))
  }

  lemma SameBuckets(p: Plan, q: Plan, order: PolicyBlocks.Order)
    requires Rearranged(p, q) && DistinctBuckets(Resources(p)) && BlocksAgree(p)
    requires PolicyBlocks.OneTargetEach(p.configuration, "") && PolicyBlocks.ValidOrder(p.configuration, order)
    ensures BucketTotal(Resources(p), TargetsFor(p, order)) == BucketTotal(Resources(q), TargetsFor(p, order))
  {
    var a, b, targets := Resources(p), Resources(q), TargetsFor(p, order);
    SameMembers(p, q);
    assert DistinctBuckets(b);
    SameNames(a, b);
    SameGuards(a, b, targets);
    var names, guarded := Names(a), Protected(a, targets);
    hide Resources, TargetsFor, DistinctBuckets, Names, Addresses, Protected, ProtectedByName, BlocksByName, Sum;
    hide Referred, GuardedByTarget, IsBucket, BucketName, Agreed, SameResources, Rearranged;
    forall n | n in names && names[n] !in guarded
      ensures ProtectedByName(BlocksByName(a), n) <==> ProtectedByName(BlocksByName(b), n)
    {
      var k := NamesHold(a, n);
      NameIsOwn(a, a[k]);
      ProtectedHolds(a, targets, a[k].address);
      ReferredIff(p, order, a[k].address);
      assert Agreed(a, BucketName(a[k]));
      SameByName(a, b, n);
    }
    SameNamedLists(names, guarded, BlocksByName(a), BlocksByName(b));
  }

  lemma SameOwn(p: Plan, q: Plan, targets: map<string, string>)
    requires Rearranged(p, q)
    ensures multiset(AllOwn(Resources(p), ContextOf(p, targets)))
          == multiset(AllOwn(Resources(q), ContextOf(q, targets)))
  {
    var a, b, c := Resources(p), Resources(q), ContextOf(p, targets);
    SameMembers(p, q);
    SameTypes(a, b, WebACL);
    assert ContextOf(q, targets) == c;
    OwnGathered(a, c);
    OwnGathered(b, c);
    GatheredPermuted(a, b, (r: Resource) => multiset(At(r.address, OwnRules(r, c))));
  }

  lemma SameTypes(a: seq<Resource>, b: seq<Resource>, kind: Kind)
    requires SameResources(a, b)
    ensures HasType(a, kind) <==> HasType(b, kind)
  {
    assert forall i :: 0 <= i < |a| ==> a[i] in b;
    assert forall i :: 0 <= i < |b| ==> b[i] in a;
  }

  lemma SameTotals(p: Plan, q: Plan, expected: string, order: PolicyBlocks.Order)
    requires Rearranged(p, q) && DistinctBuckets(Resources(p)) && BlocksAgree(p)
    requires PolicyBlocks.OneTargetEach(p.configuration, "") && PolicyBlocks.ValidOrder(p.configuration, order)
    ensures PlanTotal(p, expected, TargetsFor(p, order)) == PlanTotal(q, expected, TargetsFor(p, order))
  {
    PlanTotalParts(p, expected, TargetsFor(p, order));
    PlanTotalParts(q, expected, TargetsFor(p, order));
    SameBuckets(p, q, order);
    SameOwn(p, q, TargetsFor(p, order));
    assert p.providers == q.providers;
    hide PlanTotal, BucketTotal, Rearranged, AllOwn, ContextOf, TargetsFor, Resources, AccountTotal;
  }

  // ---- a block moved to the end ----

  lemma LastBlockDecides(rest: seq<Resource>, b: Resource, name: string)
    requires BlockFor(b, name) && name != ""
    ensures GuardedByName(rest + [b], name) <==> Complete(b)
  {
    hide Complete, IsBlock, BucketName;
    assert NamingBlock(rest + [b], name, |rest|);
  }

  /** The plan with this block behind all other resources. */
  lemma BlockLast(plan: Plan, b: Resource, name: string) returns (q: Plan)
    requires b in Resources(plan) && BlockFor(b, name) && name != ""
    ensures Rearranged(plan, q) && (GuardedByName(Resources(q), name) <==> Complete(b))
  {
    var rs := Resources(plan);
    hide Resources, GuardedByName, Complete, IsBlock, BucketName;
    var k :| 0 <= k < |rs| && rs[k] == b;
    var rest := rs[..k] + rs[k + 1..];
    MovedLast(rs, k);
    ArrangedIsRearranged(plan, rest + [b]);
    LastBlockDecides(rest, b, name);
    q := Arranged(plan, rest + [b]);
  }

  /** An answer to the plan with this block last. */
  lemma LastBlockShows(plan: Plan, expected: string, r: Resource, b: Resource) returns (q: Plan, vs: seq<Violation>)
    requires PolicyBlocks.OneTargetEach(plan.configuration, "") && DistinctBuckets(Resources(plan))
    requires r in Resources(plan) && IsBucket(r) && BucketName(r) != "" && !Referred(plan, r.address)
    requires b in Resources(plan) && BlockFor(b, BucketName(r))
    ensures Rearranged(plan, q) && Answer(q, expected, vs)
    ensures multiset(vs)[Violation(r.address, BUCKET_MESSAGE)] == if Complete(b) then 0 else 1
  {
    q := BlockLast(plan, b, BucketName(r));
    SameMembers(plan, q);
    SameCompliance(plan, q, r);
    assert DistinctBuckets(Resources(q));
    hide Resources, DistinctBuckets, GuardedByName, Complete, Referred, IsBucket, IsBlock, BucketName, Answer;
    var order := PolicyBlocks.SomeOrder(q.configuration);
    vs := AnswerOf(q, expected, order);
    BucketVerdict(q, expected, vs, r);
  }

  // ---- the whole answer ----

  /** Every order of the resources, in every execution, gets this plan's answers. */
  ghost predicate AnswerIgnoresOrder(p: Plan, expected: string) {
    forall q, a, b :: Rearranged(p, q) && Answer(p, expected, a) && Answer(q, expected, b) ==> a == b
  }

  /** With distinct buckets the answer is the same for every order of the resources exactly when the
      blocks that name a bucket no block points to are all complete or all incomplete. */
  lemma AnswerIgnoresOrderIff(p: Plan, expected: string)
    requires PolicyBlocks.OneTargetEach(p.configuration, "") && DistinctBuckets(Resources(p))
    ensures AnswerIgnoresOrder(p, expected) <==> BlocksAgree(p)
  {
    hide Resources, DistinctBuckets, Complete, Referred, IsBucket, BlockFor, BucketName, Answer, Rearranged;
    if BlocksAgree(p) {
      forall q, a, b | Rearranged(p, q) && Answer(p, expected, a) && Answer(q, expected, b) ensures a == b {
        SameAnswer(p, q, expected, a, b);
      }
    }
    if AnswerIgnoresOrder(p, expected) {
      forall r | r in Resources(p) && IsBucket(r) && BucketName(r) != "" && !Referred(p, r.address)
        ensures Agreed(Resources(p), BucketName(r))
      {
        OrderIgnoredMeansAgreed(p, expected, r);
      }
    }
  }

  lemma SameAnswer(p: Plan, q: Plan, expected: string, a: seq<Violation>, b: seq<Violation>)
    requires PolicyBlocks.OneTargetEach(p.configuration, "") && DistinctBuckets(Resources(p)) && BlocksAgree(p)
    requires Rearranged(p, q) && Answer(p, expected, a) && Answer(q, expected, b)
    ensures a == b
  {
    hide Resources, DistinctBuckets, BlocksAgree, PlanTotal;
    assert q.configuration == p.configuration;
    hide Rearranged;
    var order :| PolicyBlocks.ValidOrder(q.configuration, order)
        && multiset(b) == PlanTotal(q, expected, TargetsFor(q, order));
    SameTotals(p, q, expected, order);
    OneTargetDecides(p, expected, a, b);
  }

  lemma OrderIgnoredMeansAgreed(p: Plan, expected: string, r: Resource)
    requires PolicyBlocks.OneTargetEach(p.configuration, "") && DistinctBuckets(Resources(p))
    requires AnswerIgnoresOrder(p, expected)
    requires r in Resources(p) && IsBucket(r) && BucketName(r) != "" && !Referred(p, r.address)
    ensures Agreed(Resources(p), BucketName(r))
  {
    hide Resources, DistinctBuckets, Complete, Referred, IsBucket, BlockFor, BucketName, Answer, Rearranged;
    var order := PolicyBlocks.SomeOrder(p.configuration);
    var a := AnswerOf(p, expected, order);
    forall b1, b2 | && b1 in Resources(p) && b2 in Resources(p)
                    && BlockFor(b1, BucketName(r)) && BlockFor(b2, BucketName(r))
      ensures Complete(b1) == Complete(b2)
    {
      var q1, v1 := LastBlockShows(p, expected, r, b1);
      var q2, v2 := LastBlockShows(p, expected, r, b2);
      assert a == v1 && a == v2;
    }
  }

  /** So is it for every nesting. */
  lemma AnswerIgnoresNesting(p: Plan, q: Plan, expected: string, a: seq<Violation>, b: seq<Violation>)
    requires q == p.(planned := q.planned) && SameWritten(p.planned, q.planned)
    requires PolicyBlocks.OneTargetEach(p.configuration, "") && DistinctBuckets(Resources(p)) && BlocksAgree(p)
    requires Answer(p, expected, a) && Answer(q, expected, b)
    ensures a == b
  {
    NestingRearranges(p, q);
    SameAnswer(p, q, expected, a, b);
  }
}
