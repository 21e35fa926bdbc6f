/** Exactly when the order of the resources decides a verdict, and exactly when the order Go visits the
    module calls in decides an answer. */
module PolicyOrder {
  import opened Options
  import opened PolicyPlan
  import opened PolicyTotals
  import opened PolicyRules
  import opened PolicyEvaluate
  import opened PolicyRequirements
  import opened PolicyVerdict
  import opened PolicyTargets
  import PolicyBlocks
  import opened ViolationOrder

  // ---- the order of the resources ----

  /** The same plan with its resources in another order. */
  ghost predicate Rearranged(p: Plan, q: Plan) {
    SameButResources(p, q) && multiset(Resources(p)) == multiset(Resources(q))
  }

  predicate SameName(r1: Resource, r2: Resource) {
    IsBucket(r1) && IsBucket(r2) && BucketName(r1) == BucketName(r2) != ""
  }

  /** A planned bucket no complete block points to. */
  ghost predicate Exposed(plan: Plan, r: Resource) {
    r in Resources(plan) && IsBucket(r) && !Referred(plan, r.address)
  }

  /** Everything but the order is as the policy asks, and some exposed bucket shares its name with one
      that is not exposed. */
  ghost predicate OrderSensitive(plan: Plan, expected: string) {
    && OnlyOrderCounts(plan, expected)
    && exists u, w :: Exposed(plan, u) && w in Resources(plan) && !Exposed(plan, w) && SameName(u, w)
  }

  ghost predicate OnlyOrderCounts(plan: Plan, expected: string) {
    && AccountProven(plan.providers, expected)
    && (forall r :: r in Resources(plan) ==> Compliant(plan, r))
    && (forall u :: Exposed(plan, u) ==> NamedByBlock(Resources(plan), BucketName(u)))
    && (forall u, v :: Exposed(plan, u) && Exposed(plan, v) && SameName(u, v) ==> u == v)
  }

  lemma SameMembers(p: Plan, q: Plan)
    requires Rearranged(p, q)
    ensures SameResources(Resources(p), Resources(q))
    ensures DistinctAddresses(Resources(p)) ==> DistinctAddresses(Resources(q))
  {
    hide Resources, IsBucket;
    var a, b := Resources(p), Resources(q);
    forall r ensures r in a <==> r in b {
      assert r in a <==> r in multiset(a);
      assert r in b <==> r in multiset(b);
    }
  }

  lemma SameExposed(p: Plan, q: Plan, r: Resource)
    requires Rearranged(p, q)
    ensures Exposed(p, r) <==> Exposed(q, r)
  {
    SameMembers(p, q);
    SameCompliance(p, q, r);
  }

  /** What all orders share. */
  lemma OnlyOrderTravels(p: Plan, q: Plan, expected: string)
    requires Rearranged(p, q) && OnlyOrderCounts(p, expected)
    ensures OnlyOrderCounts(q, expected)
  {
    SameMembers(p, q);
    hide Resources, Exposed, Compliant, AccountProven, NamedByBlock, SameName, BucketName;
    forall r: Resource
      ensures Compliant(p, r) <==> Compliant(q, r)
      ensures Exposed(p, r) <==> Exposed(q, r)
      ensures NamedByBlock(Resources(p), BucketName(r)) <==> NamedByBlock(Resources(q), BucketName(r))
    {
      SameCompliance(p, q, r);
      SameExposed(p, q, r);
    }
  }

  ghost predicate AllForemost(plan: Plan) {
    forall u :: Exposed(plan, u) ==> Foremost(Resources(plan), u)
  }

  /** A plan passes when only the order counts and the order is right. */
  lemma SecureByOrder(plan: Plan, expected: string)
    requires OnlyOrderCounts(plan, expected)
    ensures Secure(plan, expected) <==> AllForemost(plan)
  {
    hide Resources, Compliant, AccountProven, NamedByBlock, Foremost, Referred;
  }

  lemma ForemostIsOne(rs: seq<Resource>, u: Resource, v: Resource)
    requires DistinctAddresses(rs) && u in rs && v in rs && SameName(u, v) && Foremost(rs, u) && Foremost(rs, v)
    ensures u == v
  {
    var i :| LastNamed(rs, BucketName(u), i) && rs[i].address == u.address;
    var j :| LastNamed(rs, BucketName(v), j) && rs[j].address == v.address;
    assert i == j;
  }

  lemma SecureMeansOnlyOrder(plan: Plan, expected: string)
    requires DistinctAddresses(Resources(plan)) && Secure(plan, expected)
    ensures OnlyOrderCounts(plan, expected)
  {
    hide Resources, DistinctAddresses, Compliant, AccountProven, NamedByBlock, Foremost, Referred, SameName;
    forall u, v | Exposed(plan, u) && Exposed(plan, v) && SameName(u, v) ensures u == v {
      ForemostIsOne(Resources(plan), u, v);
    }
  }

  /** If one order passes and another fails, the order is what counts. */
  lemma DifferenceShows(p: Plan, q: Plan, expected: string)
    requires Rearranged(p, q) && DistinctAddresses(Resources(p))
    requires Secure(p, expected) && !Secure(q, expected)
    ensures OrderSensitive(p, expected) && OrderSensitive(q, expected)
  {
    SecureMeansOnlyOrder(p, expected);
    OnlyOrderTravels(p, q, expected);
    SecureByOrder(q, expected);
    SameMembers(p, q);
    var u :| Exposed(q, u) && !Foremost(Resources(q), u);
    var w := Rival(q, u, expected);
    SameExposed(p, q, u);
    SameExposed(p, q, w);
    assert w in Resources(p);
  }

  /** The bucket that comes behind `u`. */
  lemma Rival(q: Plan, u: Resource, expected: string) returns (w: Resource)
    requires Exposed(q, u) && !Foremost(Resources(q), u) && OnlyOrderCounts(q, expected)
    ensures w in Resources(q) && SameName(u, w) && !Exposed(q, w)
  {
    var rs := Resources(q);
    assert BucketName(u) != "" by { assert NamedByBlock(rs, BucketName(u)); }
    hide Resources, Compliant, AccountProven, NamedByBlock, Referred, BucketName;
    var k :| 0 <= k < |rs| && rs[k] == u;
    var i := HasLast(rs, BucketName(u), k);
    w := rs[i];
    assert SameName(u, w);
  }

  // Two arrangements: every exposed bucket at the end, and one chosen resource at the end.

  ghost function Chosen(plan: Plan, rs: seq<Resource>, exposed: bool): seq<Resource> {
    if rs == [] then []
    else Chosen(plan, rs[..|rs| - 1], exposed)
         + if Exposed(plan, rs[|rs| - 1]) == exposed then [rs[|rs| - 1]] else []
  }

  lemma {:induction false} ChosenAll(plan: Plan, rs: seq<Resource>)
    ensures multiset(Chosen(plan, rs, false)) + multiset(Chosen(plan, rs, true)) == multiset(rs)
  {
    hide Exposed;
    if rs != [] {
      hide Chosen;
      var front, last := rs[..|rs| - 1], rs[|rs| - 1];
      var no, yes := Chosen(plan, front, false), Chosen(plan, front, true);
      ChosenAll(plan, front);
      OneMoreChosen(plan, rs);
      Appended(front, last);
      Appended(no, last);
      Appended(yes, last);
      assert rs == front + [last];
    } else {
      NoneChosen(plan, rs);
    }
  }

  lemma NoneChosen(plan: Plan, rs: seq<Resource>)
    requires rs == []
    ensures Chosen(plan, rs, false) == [] && Chosen(plan, rs, true) == []
  {
  }

  lemma Appended(rs: seq<Resource>, r: Resource)
    ensures multiset(rs + [r]) == multiset(rs) + multiset{r}
  {
  }

  lemma OneMoreChosen(plan: Plan, rs: seq<Resource>)
    requires rs != []
    ensures var front, last := rs[..|rs| - 1], rs[|rs| - 1];
            var no, yes := Chosen(plan, front, false), Chosen(plan, front, true);
            && Chosen(plan, rs, false) == no + (if Exposed(plan, last) then [] else [last])
            && Chosen(plan, rs, true) == yes + (if Exposed(plan, last) then [last] else [])
  {
    hide Exposed;
  }

  lemma {:induction false} ChosenIs(plan: Plan, rs: seq<Resource>, exposed: bool, i: nat)
    requires i < |Chosen(plan, rs, exposed)|
    ensures Exposed(plan, Chosen(plan, rs, exposed)[i]) == exposed
  {
    hide Exposed;
    if i < |Chosen(plan, rs[..|rs| - 1], exposed)| { ChosenIs(plan, rs[..|rs| - 1], exposed, i); }
  }

  lemma LastAmong(plan: Plan, front: seq<Resource>, back: seq<Resource>, u: Resource)
    requires u in back && IsBucket(u) && BucketName(u) != ""
    requires forall i :: 0 <= i < |back| ==> Exposed(plan, back[i])
    requires forall v :: Exposed(plan, v) && SameName(u, v) ==> u == v
    ensures Foremost(front + back, u)
  {
    hide Exposed, IsBucket, BucketName;
    var qs := front + back;
    var k :| 0 <= k < |back| && back[k] == u;
    assert NamedAt(qs, BucketName(u), |front| + k);
    var i := HasLast(qs, BucketName(u), |front| + k);
    assert qs[i] == back[i - |front|];
    assert SameName(u, qs[i]);
  }

  /** With the exposed buckets at the end each is the last of its name. */
  lemma ExposedLast(plan: Plan, expected: string, u: Resource)
    requires OnlyOrderCounts(plan, expected) && Exposed(plan, u)
    ensures Foremost(Chosen(plan, Resources(plan), false) + Chosen(plan, Resources(plan), true), u)
  {
    var rs := Resources(plan);
    var front, back := Chosen(plan, rs, false), Chosen(plan, rs, true);
    assert NamedByBlock(rs, BucketName(u));
    hide Resources, Compliant, AccountProven, Chosen, Referred;
    ChosenHolds(plan, rs, u);
    forall i | 0 <= i < |back| ensures Exposed(plan, back[i]) { ChosenIs(plan, rs, true, i); }
    LastAmong(plan, front, back, u);
  }

  lemma ChosenHolds(plan: Plan, rs: seq<Resource>, u: Resource)
    requires Exposed(plan, u) && u in rs
    ensures u in Chosen(plan, rs, true)
  {
    hide Exposed;
    var front, back := Chosen(plan, rs, false), Chosen(plan, rs, true);
    ChosenAll(plan, rs);
    assert u in multiset(rs) && (u in front || u in back);
    if u in front {
      var k :| 0 <= k < |front| && front[k] == u;
      ChosenIs(plan, rs, false, k);
    }
  }

  /** Moving a rival of the same name to the end spoils the order. */
  lemma RivalLast(rs: seq<Resource>, u: Resource, w: Resource)
    requires SameName(u, w) && u.address != w.address
    ensures !Foremost(rs + [w], u)
  {
    hide IsBucket, BucketName;
    assert NamedAt(rs + [w], BucketName(u), |rs|);
  }

  lemma MovedLast(rs: seq<Resource>, k: nat)
    requires k < |rs|
    ensures multiset(rs[..k] + rs[k + 1..] + [rs[k]]) == multiset(rs)
  {
    assert rs == rs[..k] + [rs[k]] + rs[k + 1..];
  }

  // Any order of a plan's resources is the order of some plan.

  ghost function ChangesOf(rs: seq<Resource>): seq<ResourceChange> {
    seq(|rs|, i requires 0 <= i < |rs| => ResourceChange(rs[i].address, rs[i].kind, Some(rs[i].values), rs[i].unknown))
  }

  lemma {:induction false} ChangesGiveBack(rs: seq<Resource>)
    ensures ChangedResources(ChangesOf(rs)) == rs
  {
    if rs != [] {
      ChangesGiveBack(rs[..|rs| - 1]);
      assert ChangesOf(rs)[..|rs| - 1] == ChangesOf(rs[..|rs| - 1]);
    }
  }

  /** Planned resources are listed in one module, changed ones as changes. */
  ghost function Arranged(plan: Plan, rs: seq<Resource>): Plan {
    if Flatten(plan.planned) != [] then plan.(planned := PlannedModule(rs, []))
    else plan.(planned := PlannedModule([], []), changes := ChangesOf(rs))
  }

  lemma ArrangedIsRearranged(plan: Plan, rs: seq<Resource>)
    requires multiset(rs) == multiset(Resources(plan))
    ensures Resources(Arranged(plan, rs)) == rs && Rearranged(plan, Arranged(plan, rs))
  {
    if Flatten(plan.planned) != [] {
      var flat, unknown := Flatten(plan.planned), UnknownByAddress(plan.changes);
      assert |rs| == |multiset(rs)| == |multiset(Resources(plan))| == |flat|;
      assert Flatten(PlannedModule(rs, [])) == rs;
      forall i | 0 <= i < |rs| ensures WithUnknown(rs[i], unknown) == rs[i] {
        assert rs[i] in multiset(Resources(plan));
        var j :| 0 <= j < |flat| && Annotate(flat, unknown)[j] == rs[i];
      }
      assert Annotate(rs, unknown) == rs;
    } else {
      ChangesGiveBack(rs);
    }
  }

  lemma ArrangedDiffers(plan: Plan, expected: string)
    requires DistinctAddresses(Resources(plan)) && OrderSensitive(plan, expected)
    ensures exists q :: Rearranged(plan, q) && (Secure(plan, expected) != Secure(q, expected))
  {
    var rs := Resources(plan);
    var u, w :| Exposed(plan, u) && w in rs && !Exposed(plan, w) && SameName(u, w);
    var good := Chosen(plan, rs, false) + Chosen(plan, rs, true);
    var k :| 0 <= k < |rs| && rs[k] == w;
    var bad := rs[..k] + rs[k + 1..] + [rs[k]];
    ChosenAll(plan, rs);
    assert multiset(good) == multiset(rs);
    MovedLast(rs, k);
    GoodOrder(plan, expected, good);
    BadOrder(plan, expected, rs[..k] + rs[k + 1..], u, w);
  }

  lemma GoodOrder(plan: Plan, expected: string, good: seq<Resource>)
    requires OnlyOrderCounts(plan, expected)
    requires good == Chosen(plan, Resources(plan), false) + Chosen(plan, Resources(plan), true)
    ensures Rearranged(plan, Arranged(plan, good)) && Secure(Arranged(plan, good), expected)
  {
    var q := Arranged(plan, good);
    ChosenAll(plan, Resources(plan));
    assert multiset(good) == multiset(Resources(plan));
    ArrangedIsRearranged(plan, good);
    OnlyOrderTravels(plan, q, expected);
    SecureByOrder(q, expected);
    hide Resources, OnlyOrderCounts, Exposed, Rearranged, Arranged, Foremost, Chosen, Secure;
    forall u | Exposed(q, u) ensures Foremost(Resources(q), u) {
      SameExposed(plan, q, u);
      ExposedLast(plan, expected, u);
    }
  }

  lemma BadOrder(plan: Plan, expected: string, rest: seq<Resource>, u: Resource, w: Resource)
    requires DistinctAddresses(Resources(plan)) && OnlyOrderCounts(plan, expected)
    requires multiset(rest + [w]) == multiset(Resources(plan))
    requires Exposed(plan, u) && w in Resources(plan) && !Exposed(plan, w) && SameName(u, w)
    ensures Rearranged(plan, Arranged(plan, rest + [w])) && !Secure(Arranged(plan, rest + [w]), expected)
  {
    var q := Arranged(plan, rest + [w]);
    ArrangedIsRearranged(plan, rest + [w]);
    OnlyOrderTravels(plan, q, expected);
    SecureByOrder(q, expected);
    SameExposed(plan, q, u);
    RivalLast(rest, u, w);
  }

  /** With distinct addresses, some other order of the resources changes the verdict exactly when the
      plan is order-sensitive: the account is proven, every resource is compliant, every bucket no
      block points to has a known name that a complete block carries, no two of those share a name,
      and one of them shares its name with a bucket some block points to. */
  lemma OrderMatters(plan: Plan, expected: string)
    requires PolicyBlocks.OneTargetEach(plan.configuration, "") && DistinctAddresses(Resources(plan))
    ensures (exists q :: Rearranged(plan, q) && (Passes(plan, expected) != Passes(q, expected)))
       <==> OrderSensitive(plan, expected)
  {
    forall q | Rearranged(plan, q) ensures Passes(q, expected) <==> Secure(q, expected) {
      SameMembers(plan, q);
      PassesExactly(q, expected);
    }
    PassesExactly(plan, expected);
    hide Resources, DistinctAddresses, OrderSensitive, Passes, Secure;
    if q :| Rearranged(plan, q) && (Secure(plan, expected) != Secure(q, expected)) {
      if Secure(plan, expected) {
        DifferenceShows(plan, q, expected);
      } else {
        SameMembers(plan, q);
        DifferenceShows(q, plan, expected);
      }
    }
    if OrderSensitive(plan, expected) {
      ArrangedDiffers(plan, expected);
    }
  }

  /** Dot-free module names are enough. */
  lemma DotFreeOrderMatters(plan: Plan, expected: string)
    requires PolicyBlocks.DotFree(plan.configuration) && DistinctAddresses(Resources(plan))
    ensures (exists q :: Rearranged(plan, q) && (Passes(plan, expected) != Passes(q, expected)))
       <==> OrderSensitive(plan, expected)
  {
    PolicyBlocks.DotFreeDecides(plan.configuration, "");
    OrderMatters(plan, expected);
  }

  // ---- the order of the module calls ----

  /** The bucket at this address is the last of some known name, and `n` is that name. */
  ghost predicate LastAt(rs: seq<Resource>, a: string, n: string) {
    exists i :: LastNamed(rs, n, i) && rs[i].address == a
  }

  /** A bucket at this address is reported unless a block points to it: it is the last of a name no
      complete block carries, or the last of none. */
  ghost predicate Unsettled(rs: seq<Resource>, a: string) {
    || (exists n :: LastAt(rs, a, n) && !GuardedByName(rs, n))
    || ((exists r :: r in rs && IsBucket(r) && r.address == a) && forall n :: !LastAt(rs, a, n))
  }

  lemma NameIsLast(rs: seq<Resource>, n: string, a: string)
    ensures n in Names(rs) && Names(rs)[n] == a <==> LastAt(rs, a, n)
  {
    if n in Names(rs) {
      var k := NamesHold(rs, n);
      var i := HasLast(rs, n, k);
      NamesExact(rs, n, i);
    }
    if i :| LastNamed(rs, n, i) && rs[i].address == a { NamesExact(rs, n, i); }
  }

  /** The map of names says this bucket is reported unless a block points to it. */
  ghost predicate ReportedByName(rs: seq<Resource>, n: string, a: string) {
    n in Names(rs) && Names(rs)[n] == a && !ProtectedByName(BlocksByName(rs), n)
  }

  lemma ReportedIff(rs: seq<Resource>, n: string, a: string)
    ensures ReportedByName(rs, n, a) <==> LastAt(rs, a, n) && !GuardedByName(rs, n)
  {
    hide Names, BlocksByName, ProtectedByName, GuardedByName, LastAt;
    NameIsLast(rs, n, a);
    BlocksHold(rs, n);
  }

  lemma UnknownIff(rs: seq<Resource>, a: string)
    ensures HasKnownName(Names(rs), a) <==> exists n :: LastAt(rs, a, n)
  {
    hide Names, LastAt;
    forall n ensures n in Names(rs) && Names(rs)[n] == a <==> LastAt(rs, a, n) { NameIsLast(rs, n, a); }
    if n :| n in Names(rs) && Names(rs)[n] == a { assert LastAt(rs, a, n); }
  }

  /** The two maps of buckets, in terms of the resources. */
  lemma UnsettledIff(rs: seq<Resource>, a: string)
    ensures Unsettled(rs, a) <==>
      (exists n :: ReportedByName(rs, n, a)) || (a in Addresses(rs) && !HasKnownName(Names(rs), a))
  {
    hide Names, Addresses, HasKnownName, ReportedByName, GuardedByName, LastAt;
    forall n ensures ReportedByName(rs, n, a) <==> LastAt(rs, a, n) && !GuardedByName(rs, n) { ReportedIff(rs, n, a); }
    if n :| ReportedByName(rs, n, a) { assert LastAt(rs, a, n) && !GuardedByName(rs, n); }
    if n :| LastAt(rs, a, n) && !GuardedByName(rs, n) { assert ReportedByName(rs, n, a); }
    UnknownIff(rs, a);
    AddressesHold(rs, a);
  }

  lemma NamedIsUnsettled(rs: seq<Resource>, n: string)
    requires n in Names(rs) && !ProtectedByName(BlocksByName(rs), n)
    ensures Unsettled(rs, Names(rs)[n])
  {
    assert ReportedByName(rs, n, Names(rs)[n]);
    hide Names, BlocksByName, ProtectedByName, Unsettled, ReportedByName;
    UnsettledIff(rs, Names(rs)[n]);
  }

  /** The per-resource rules look at nothing the walk over the blocks finds. */
  lemma {:induction false} OwnIgnoresTargets(plan: Plan, rs: seq<Resource>,
                                             t1: map<string, string>, t2: map<string, string>)
    ensures AllOwn(rs, ContextOf(plan, t1)) == AllOwn(rs, ContextOf(plan, t2))
  {
    if rs != [] {
      OwnIgnoresTargets(plan, rs[..|rs| - 1], t1, t2);
      SameOwnRules(plan, rs[|rs| - 1], t1, t2);
    }
  }

  lemma SameOwnRules(plan: Plan, r: Resource, t1: map<string, string>, t2: map<string, string>)
    ensures OwnRules(r, ContextOf(plan, t1)) == OwnRules(r, ContextOf(plan, t2))
  {
    hide Field, Boolean, TaskImagesUseDigests;
    assert ContextOf(plan, t2) == ContextOf(plan, t1).(targets := t2);
  }

  ghost function BucketTotal(rs: seq<Resource>, targets: map<string, string>): multiset<Violation> {
    var names, guarded := Names(rs), Protected(rs, targets);
    Sum(NamedLists(names, BlocksByName(rs), guarded)) + Sum(AddressLists(Addresses(rs), names, guarded))
  }

  /** Both walks leave the same unsettled buckets guarded. */
  ghost predicate GuardAlike(rs: seq<Resource>, t1: map<string, string>, t2: map<string, string>) {
    forall a :: Unsettled(rs, a) ==> (GuardedByTarget(rs, t1, a) <==> GuardedByTarget(rs, t2, a))
  }

  lemma AlikeMeansSame(rs: seq<Resource>, t1: map<string, string>, t2: map<string, string>)
    requires GuardAlike(rs, t1, t2)
    ensures BucketTotal(rs, t1) == BucketTotal(rs, t2)
  {
    hide Names, Addresses, BlocksByName, Protected, ProtectedByName, HasKnownName, Unsettled, GuardedByTarget, Sum;
    var names, blocks, addresses := Names(rs), BlocksByName(rs), Addresses(rs);
    var g1, g2 := Protected(rs, t1), Protected(rs, t2);
    forall a | Unsettled(rs, a) ensures a in g1 <==> a in g2 {
      ProtectedHolds(rs, t1, a);
      ProtectedHolds(rs, t2, a);
    }
    forall n | n in names && !ProtectedByName(blocks, n) ensures Unsettled(rs, names[n]) { NamedIsUnsettled(rs, n); }
    forall a | a in addresses && !HasKnownName(names, a) ensures Unsettled(rs, a) { UnsettledIff(rs, a); }
    assert NamedLists(names, blocks, g1) == NamedLists(names, blocks, g2);
    assert AddressLists(addresses, names, g1) == AddressLists(addresses, names, g2);
  }

  /** A guarded address is not reported as a bucket, an unsettled one that is not guarded is. */
  lemma GuardedIsSilent(rs: seq<Resource>, targets: map<string, string>, a: string)
    ensures GuardedByTarget(rs, targets, a) ==> BucketTotal(rs, targets)[Violation(a, BUCKET_MESSAGE)] == 0
    ensures !GuardedByTarget(rs, targets, a) && Unsettled(rs, a)
          ==> BucketTotal(rs, targets)[Violation(a, BUCKET_MESSAGE)] > 0
  {
    hide Names, Addresses, BlocksByName, Protected, ProtectedByName, HasKnownName, Unsettled, GuardedByTarget, Sum;
    var v := Violation(a, BUCKET_MESSAGE);
    var names, blocks, guarded := Names(rs), BlocksByName(rs), Protected(rs, targets);
    var named, unnamed := NamedLists(names, blocks, guarded), AddressLists(Addresses(rs), names, guarded);
    ProtectedHolds(rs, targets, a);
    UnsettledIff(rs, a);
    SumHas(named, v);
    SumHas(unnamed, v);
    if !GuardedByTarget(rs, targets, a) {
      if n :| ReportedByName(rs, n, a) { assert v == named[n][0]; }
      if a in Addresses(rs) && !HasKnownName(names, a) { assert v == unnamed[a][0]; }
    }
  }

  lemma SumHas(lists: map<string, seq<Violation>>, v: Violation)
    ensures Sum(lists)[v] > 0 <==> exists k :: k in lists && v in lists[k]
  {
    hide Total;
    var m := map k | k in lists :: multiset(lists[k]);
    if k :| k in lists && v in lists[k] {
      TotalRemove(m, k);
      assert v in m[k];
    } else {
      TotalSingle(m, "", v);
    }
  }

  lemma PlanTotalParts(plan: Plan, expected: string, t: map<string, string>)
    ensures PlanTotal(plan, expected, t) == AccountTotal(plan.providers, expected)
              + multiset(AllOwn(Resources(plan), ContextOf(plan, t))) + BucketTotal(Resources(plan), t)
  {
    hide Resources, AccountTotal, AllOwn, Sum, NamedLists, AddressLists, Names, Addresses, BlocksByName, Protected;
  }

  lemma PlanTotalIs(plan: Plan, expected: string, t1: map<string, string>, t2: map<string, string>)
    ensures PlanTotal(plan, expected, t1) == PlanTotal(plan, expected, t2)
       <==> BucketTotal(Resources(plan), t1) == BucketTotal(Resources(plan), t2)
  {
    var rs := Resources(plan);
    hide Resources, AccountTotal, AllOwn, Sum, NamedLists, AddressLists, Names, Addresses, BlocksByName, Protected;
    OwnIgnoresTargets(plan, rs, t1, t2);
    var rest := AccountTotal(plan.providers, expected) + multiset(AllOwn(rs, ContextOf(plan, t1)));
    assert PlanTotal(plan, expected, t1) == rest + BucketTotal(rs, t1);
    assert PlanTotal(plan, expected, t2) == rest + BucketTotal(rs, t2);
    assert BucketTotal(rs, t1) == (rest + BucketTotal(rs, t1)) - rest;
    assert BucketTotal(rs, t2) == (rest + BucketTotal(rs, t2)) - rest;
  }

  ghost predicate OneAnswer(plan: Plan, expected: string) {
    forall a, b :: Answer(plan, expected, a) && Answer(plan, expected, b) ==> a == b
  }

  ghost predicate GuardsAreStable(plan: Plan) {
    forall o1, o2 :: PolicyBlocks.ValidOrder(plan.configuration, o1) && PolicyBlocks.ValidOrder(plan.configuration, o2)
      ==> GuardAlike(Resources(plan), TargetsFor(plan, o1), TargetsFor(plan, o2))
  }

  /** A plan has one answer exactly when no unsettled bucket is guarded after one order of the calls and
      not after another. */
  lemma OneAnswerIff(plan: Plan, expected: string)
    ensures OneAnswer(plan, expected) <==> GuardsAreStable(plan)
  {
    hide Resources, PlanTotal, GuardAlike, Unsettled, TargetsFor;
    if GuardsAreStable(plan) {
      forall a, b | Answer(plan, expected, a) && Answer(plan, expected, b) ensures a == b {
        StableAnswers(plan, expected, a, b);
      }
    }
    if OneAnswer(plan, expected) {
      forall o1, o2 | PolicyBlocks.ValidOrder(plan.configuration, o1) && PolicyBlocks.ValidOrder(plan.configuration, o2)
        ensures GuardAlike(Resources(plan), TargetsFor(plan, o1), TargetsFor(plan, o2))
      {
        var a := AnswerOf(plan, expected, o1);
        var b := AnswerOf(plan, expected, o2);
        SameTotalsGuardAlike(plan, expected, TargetsFor(plan, o1), TargetsFor(plan, o2));
      }
    }
  }

  lemma StableAnswers(plan: Plan, expected: string, a: seq<Violation>, b: seq<Violation>)
    requires GuardsAreStable(plan) && Answer(plan, expected, a) && Answer(plan, expected, b)
    ensures a == b
  {
    hide Resources, PlanTotal, GuardAlike, TargetsFor;
    var o1 :| PolicyBlocks.ValidOrder(plan.configuration, o1)
        && multiset(a) == PlanTotal(plan, expected, TargetsFor(plan, o1));
    var o2 :| PolicyBlocks.ValidOrder(plan.configuration, o2)
        && multiset(b) == PlanTotal(plan, expected, TargetsFor(plan, o2));
    AlikeMeansSame(Resources(plan), TargetsFor(plan, o1), TargetsFor(plan, o2));
    PlanTotalIs(plan, expected, TargetsFor(plan, o1), TargetsFor(plan, o2));
    SortedIsUnique(a, b);
  }

  lemma SameTotalsGuardAlike(plan: Plan, expected: string, t1: map<string, string>, t2: map<string, string>)
    requires PlanTotal(plan, expected, t1) == PlanTotal(plan, expected, t2)
    ensures GuardAlike(Resources(plan), t1, t2)
  {
    PlanTotalIs(plan, expected, t1, t2);
    hide Resources, PlanTotal, Unsettled, GuardedByTarget, BucketTotal;
    forall a | Unsettled(Resources(plan), a)
      ensures GuardedByTarget(Resources(plan), t1, a) <==> GuardedByTarget(Resources(plan), t2, a)
    {
      GuardedIsSilent(Resources(plan), t1, a);
      GuardedIsSilent(Resources(plan), t2, a);
    }
  }

  // ---- one address with several targets ----

  /** Every complete block at another address than this one has at most one target. */
  ghost predicate OnlyHere(plan: Plan, k: string) {
    forall b :: b in Resources(plan) && IsBlock(b) && Complete(b) && b.address != k ==>
      forall v, w :: Targets(plan.configuration, b.address, v) && Targets(plan.configuration, b.address, w) ==> v == w
  }

  /** A complete block at another address points to the bucket. */
  ghost predicate PointedElsewhere(plan: Plan, k: string, a: string) {
    exists b :: b in Resources(plan) && IsBlock(b) && Complete(b) && b.address != k && PointsTo(plan, b.address, a)
  }

  /** A complete block here can point to this bucket, which needs it, and to another. */
  ghost predicate Torn(plan: Plan, k: string, v: string, w: string) {
    && (exists b :: b in Resources(plan) && IsBlock(b) && Complete(b) && b.address == k)
    && Targets(plan.configuration, k, v) && Targets(plan.configuration, k, w) && v != w
    && Unsettled(Resources(plan), v) && !PointedElsewhere(plan, k, v)
  }

  lemma PossibleIsTarget(m: ConfigurationModule, key: string, v: string)
    ensures v in PolicyBlocks.Possible(m, "", key) <==> Targets(m, key, v)
  {
    PossibleExact(m, "", key, v);
  }

  lemma ElsewherePoints(plan: Plan, k: string, order: PolicyBlocks.Order, b: Resource, a: string)
    requires OnlyHere(plan, k) && PolicyBlocks.ValidOrder(plan.configuration, order)
    requires b in Resources(plan) && IsBlock(b) && Complete(b) && b.address != k
    ensures TargetOf(TargetsFor(plan, order), b.address) == a <==> PointsTo(plan, b.address, a)
  {
    hide Resources, IsBlock, Complete, Targets, PolicyBlocks.Possible;
    forall v ensures v in PolicyBlocks.Possible(plan.configuration, "", b.address)
                <==> Targets(plan.configuration, b.address, v) {
      PossibleIsTarget(plan.configuration, b.address, v);
    }
    assert PolicyBlocks.OneTargetAt(plan.configuration, "", b.address);
    PointsToIff(plan, order, b.address, a);
  }

  /** After any order this address has a target of the configuration, or none if there is none. */
  lemma EndsWithTarget(plan: Plan, order: PolicyBlocks.Order, k: string)
    requires PolicyBlocks.ValidOrder(plan.configuration, order)
    ensures PointsTo(plan, k, TargetOf(TargetsFor(plan, order), k))
  {
    PolicyBlocks.WalkIsPossible(plan.configuration, "", map[], order, k);
    hide PolicyBlocks.Possible, Targets, PolicyBlocks.ValidOrder;
    forall v ensures v in PolicyBlocks.Possible(plan.configuration, "", k) <==> Targets(plan.configuration, k, v) {
      PossibleIsTarget(plan.configuration, k, v);
    }
  }

  /** A bucket that is guarded after one order and unguarded after another is torn. */
  lemma UnstableIsTorn(plan: Plan, k: string, o1: PolicyBlocks.Order, o2: PolicyBlocks.Order, a: string)
    requires OnlyHere(plan, k)
    requires PolicyBlocks.ValidOrder(plan.configuration, o1) && PolicyBlocks.ValidOrder(plan.configuration, o2)
    requires Unsettled(Resources(plan), a) && GuardedByTarget(Resources(plan), TargetsFor(plan, o1), a)
    requires !GuardedByTarget(Resources(plan), TargetsFor(plan, o2), a)
    ensures Torn(plan, k, a, TargetOf(TargetsFor(plan, o2), k))
  {
    hide Resources, IsBlock, Complete, Targets, TargetsFor, TargetOf, OnlyHere, Unsettled, PolicyBlocks.ValidOrder;
    var rs, t1, t2 := Resources(plan), TargetsFor(plan, o1), TargetsFor(plan, o2);
    forall b | b in rs && IsBlock(b) && Complete(b) && b.address != k ensures !PointsTo(plan, b.address, a) {
      ElsewherePoints(plan, k, o1, b, a);
      ElsewherePoints(plan, k, o2, b, a);
    }
    var b :| b in rs && IsBlock(b) && Complete(b) && TargetOf(t1, b.address) == a;
    if b.address != k { ElsewherePoints(plan, k, o1, b, a); }
    EndsWithTarget(plan, o1, k);
    EndsWithTarget(plan, o2, k);
  }

  /** Two orders give a torn bucket two fates. */
  lemma TornIsUnstable(plan: Plan, k: string, v: string, w: string)
    requires OnlyHere(plan, k) && Torn(plan, k, v, w)
    ensures !GuardsAreStable(plan)
  {
    PossibleIsTarget(plan.configuration, k, v);
    PossibleIsTarget(plan.configuration, k, w);
    var o1 := PolicyBlocks.PossibleIsReached(plan.configuration, "", k, v);
    var o2 := PolicyBlocks.PossibleIsReached(plan.configuration, "", k, w);
    var rs, t1, t2 := Resources(plan), TargetsFor(plan, o1), TargetsFor(plan, o2);
    assert TargetOf(t1, k) == v && TargetOf(t2, k) == w;
    hide Resources, IsBlock, Complete, Targets, TargetsFor, TargetOf, OnlyHere, Unsettled, PointsTo;
    hide PolicyBlocks.ValidOrder, PolicyBlocks.AlwaysEndsWith, PolicyBlocks.Possible;
    forall b | b in rs && IsBlock(b) && Complete(b) ensures TargetOf(t2, b.address) != v {
      if b.address != k { ElsewherePoints(plan, k, o2, b, v); }
    }
    assert GuardedByTarget(rs, t1, v) && !GuardedByTarget(rs, t2, v);
    assert !GuardAlike(rs, t1, t2);
  }

  /** When only one address has several targets, a plan has one answer exactly when no bucket that needs a
      block to point to it can be pointed to from there and from nowhere else. */
  lemma OneAnswerUnlessTorn(plan: Plan, expected: string, k: string)
    requires OnlyHere(plan, k)
    ensures OneAnswer(plan, expected) <==> forall v, w :: !Torn(plan, k, v, w)
  {
    OneAnswerIff(plan, expected);
    hide Torn, OnlyHere, OneAnswer, Unsettled, GuardedByTarget, TargetsFor, Resources, PolicyBlocks.ValidOrder;
    if v, w :| Torn(plan, k, v, w) { TornIsUnstable(plan, k, v, w); }
    if !GuardsAreStable(plan) {
      var o1, o2 :| PolicyBlocks.ValidOrder(plan.configuration, o1) && PolicyBlocks.ValidOrder(plan.configuration, o2)
        && !GuardAlike(Resources(plan), TargetsFor(plan, o1), TargetsFor(plan, o2));
      var rs, t1, t2 := Resources(plan), TargetsFor(plan, o1), TargetsFor(plan, o2);
      var a :| Unsettled(rs, a) && (GuardedByTarget(rs, t1, a) != GuardedByTarget(rs, t2, a));
      if GuardedByTarget(rs, t1, a) { UnstableIsTorn(plan, k, o1, o2, a); } else { UnstableIsTorn(plan, k, o2, o1, a); }
    }
  }
}
