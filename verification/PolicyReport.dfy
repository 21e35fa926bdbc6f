/** The whole report, message by message: an answer says of a requirement what the resources at an
    address fail, as often as they do. */
module PolicyReport {
  import opened PolicyPlan
  import opened PolicyTotals
  import opened PolicyRules
  import opened PolicyEvaluate
  import opened PolicyRequirements
  import opened PolicyVerdict
  import opened PolicyOrder
  import opened PolicyFields
  import PolicyBlocks

  /** How often a requirement is not met by what is planned at an address. */
  ghost function Failing(plan: Plan, rs: seq<Resource>, a: string, rule: Rule): nat {
    if rs == [] then 0
    else
      var r := rs[|rs| - 1];
      Failing(plan, rs[..|rs| - 1], a, rule) + if r.address == a && !Meets(plan, r, rule) then 1 else 0
  }

  // ---- no two rules speak alike ----

  function Length(rule: Rule): nat {
    match rule
    case DatabaseInOneZone => 20
    case DatabasePublic => 37
    case DatabaseUnencrypted => 29
    case LoadBalancerPublic => 20
    case ServicePublic => 39
    case IngressOpen => 36
    case BlockIncomplete => 42
    case ImageNotPinned => 41
    case DistributionUnshielded => 39
    case CompressionUncached => 82
    case BucketUnguarded => 45
  }

  lemma MessageShape(rule: Rule)
    ensures |Message(rule)| == Length(rule)
    ensures Message(rule)[0] == match rule
                                case LoadBalancerPublic => 'A'
                                case ServicePublic => 'E'
                                case DistributionUnshielded => 'C'
                                case DatabaseInOneZone => 'R'
                                case _ => Message(rule)[0]
  {
  }

  lemma MessageTells(r1: Rule, r2: Rule)
    requires Message(r1) == Message(r2)
    ensures r1 == r2
  {
    MessageShape(r1);
    MessageShape(r2);
    hide Message;
  }

  lemma ProviderSpeaks(name: string, p: Provider, expected: string)
    ensures var vs := ProviderViolations(name, p, expected);
            |vs| <= 1 && (vs != [] ==> |vs[0].message| == 38 || |vs[0].message| == 48 || |vs[0].message| == 67)
  {
    hide IsAWS, AllowListed;
  }

  lemma DefaultSpeaks(providers: map<string, Provider>, expected: string)
    ensures var lists := AccountLists(providers, expected);
            if "aws" in providers
            then forall k :: k in lists ==> k in providers && lists[k] == ProviderViolations(k, providers[k], expected)
            else lists.Keys == {"aws"} && |lists["aws"]| == 1 && |lists["aws"][0].message| == 56
  {
    hide ProviderViolations;
  }

  lemma AccountSpeaksOther(providers: map<string, Provider>, expected: string, k: string, rule: Rule, i: nat)
    requires k in AccountLists(providers, expected) && i < |AccountLists(providers, expected)[k]|
    ensures AccountLists(providers, expected)[k][i].message != Message(rule)
  {
    hide Message, AccountLists, ProviderViolations;
    MessageShape(rule);
    DefaultSpeaks(providers, expected);
    if "aws" in providers { ProviderSpeaks(k, providers[k], expected); }
  }

  // ---- what is said of providers ----

  /** What the allow-list of this provider is reported for. */
  ghost predicate Objection(p: Provider, message: string) {
    if "allowed_account_ids" !in p.expressions then message == "AWS provider has no account allow-list"
    else if p.expressions["allowed_account_ids"].malformed
    then message == "AWS provider account allow-list cannot be proven"
    else message == "AWS provider account allow-list does not match the expected account"
  }

  lemma ProviderObjects(name: string, p: Provider, expected: string)
    ensures var vs := ProviderViolations(name, p, expected);
            if IsAWS(name) && !AllowListed(p, expected)
            then vs == [Violation("provider." + name, vs[0].message)] && Objection(p, vs[0].message)
            else vs == []
  {
    hide IsAWS, AllowListed;
  }

  lemma OneObjection(p: Provider, m1: string, m2: string)
    requires Objection(p, m1) && Objection(p, m2)
    ensures m1 == m2
  {
  }

  lemma ProviderSays(name: string, p: Provider, expected: string, message: string)
    ensures multiset(ProviderViolations(name, p, expected))[Violation("provider." + name, message)]
         == if ForAWS(name) && !AllowsOnly(p, expected) && Objection(p, message) then 1 else 0
  {
    ForAWSIff(name);
    AllowsOnlyIff(p, expected);
    ProviderObjects(name, p, expected);
    hide IsAWS, ForAWS, AllowListed, AllowsOnly, ProviderViolations, Objection;
    var vs := ProviderViolations(name, p, expected);
    if vs != [] && Objection(p, message) { OneObjection(p, vs[0].message, message); }
  }

  lemma ProviderSaysOwn(name: string, p: Provider, expected: string, a: string, message: string)
    requires a != "provider." + name
    ensures Violation(a, message) !in ProviderViolations(name, p, expected)
  {
    hide IsAWS, AllowListed;
  }

  lemma SameProvider(n1: string, n2: string)
    requires "provider." + n1 == "provider." + n2
    ensures n1 == n2
  {
    assert ("provider." + n1)[9..] == n1 && ("provider." + n2)[9..] == n2;
  }

  /** With a default AWS provider each AWS provider that does not allow exactly the expected account is
      reported once, with what is wrong with its allow-list, and nothing else is; without one only that is
      reported. */
  lemma AccountVerdict(providers: map<string, Provider>, expected: string, name: string, message: string)
    ensures "aws" in providers ==>
      AccountTotal(providers, expected)[Violation("provider." + name, message)] ==
      if name in providers && ForAWS(name) && !AllowsOnly(providers[name], expected)
         && Objection(providers[name], message)
      then 1 else 0
    ensures "aws" !in providers ==>
      AccountTotal(providers, expected) ==
      multiset{Violation("provider.aws", "default AWS provider does not prove the expected account")}
  {
    var lists := AccountLists(providers, expected);
    var m := map k | k in lists :: multiset(lists[k]);
    if "aws" in providers {
      NoDefault(providers, expected);
      hide AccountLists, ProviderViolations, ForAWS, AllowsOnly, Objection, Total;
      var v := Violation("provider." + name, message);
      forall k | k in m && k != name ensures m[k][v] == 0 {
        if "provider." + name == "provider." + k { SameProvider(name, k); }
        ProviderSaysOwn(k, providers[k], expected, v.address, message);
      }
      TotalSingle(m, name, v);
      if name in providers { ProviderSays(name, providers[name], expected, message); }
    } else {
      hide Total;
      TotalRemove(m, "aws");
      assert (m - {"aws"}).Keys == {};
      TotalEmpty(m - {"aws"});
    }
  }

  // ---- one rule in the three parts of the report ----

  lemma InAccounts(providers: map<string, Provider>, expected: string, a: string, rule: Rule)
    ensures AccountTotal(providers, expected)[Violation(a, Message(rule))] == 0
  {
    hide Message, AccountLists;
    var lists, v := AccountLists(providers, expected), Violation(a, Message(rule));
    SumHas(lists, v);
    if k :| k in lists && v in lists[k] {
      var i :| 0 <= i < |lists[k]| && lists[k][i] == v;
      AccountSpeaksOther(providers, expected, k, rule, i);
    }
  }

  lemma InBuckets(rs: seq<Resource>, targets: map<string, string>, v: Violation)
    requires v.message != Message(BucketUnguarded)
    ensures BucketTotal(rs, targets)[v] == 0
  {
    hide Message, Names, Addresses, BlocksByName, Protected, ProtectedByName, HasKnownName, Sum;
    var names, blocks, guarded := Names(rs), BlocksByName(rs), Protected(rs, targets);
    SumHas(NamedLists(names, blocks, guarded), v);
    SumHas(AddressLists(Addresses(rs), names, guarded), v);
  }

  lemma {:induction false} AtCounts(address: string, rules: seq<Rule>, a: string, rule: Rule)
    ensures multiset(At(address, rules))[Violation(a, Message(rule))]
         == if address == a then multiset(rules)[rule] else 0
  {
    hide Message;
    if rules != [] {
      var front, last := rules[..|rules| - 1], rules[|rules| - 1];
      AtCounts(address, front, a, rule);
      assert rules == front + [last];
      assert At(address, rules) == At(address, front) + [Violation(address, Message(last))];
      if Message(last) == Message(rule) { MessageTells(last, rule); }
    }
  }

  lemma {:induction false} InOwn(plan: Plan, rs: seq<Resource>, targets: map<string, string>, a: string, rule: Rule)
    ensures multiset(AllOwn(rs, ContextOf(plan, targets)))[Violation(a, Message(rule))] == Failing(plan, rs, a, rule)
  {
    hide Message, OwnRules, Meets, ContextOf, At;
    if rs != [] {
      var front, last, c := rs[..|rs| - 1], rs[|rs| - 1], ContextOf(plan, targets);
      InOwn(plan, front, targets, a, rule);
      OwnExact(plan, last, targets, rule);
      AtCounts(last.address, OwnRules(last, c), a, rule);
    }
  }

  /** In any answer, each requirement is reported at each address as often as what is planned there fails
      it: never less, never more, whatever the map orders. */
  lemma RequirementVerdict(plan: Plan, expected: string, vs: seq<Violation>, a: string, rule: Rule)
    requires Answer(plan, expected, vs) && !rule.BucketUnguarded?
    ensures multiset(vs)[Violation(a, Message(rule))] == Failing(plan, Resources(plan), a, rule)
  {
    hide Resources, Message, PlanTotal, AccountTotal, AllOwn, BucketTotal, ContextOf, TargetsFor;
    var order :| PolicyBlocks.ValidOrder(plan.configuration, order)
                 && multiset(vs) == PlanTotal(plan, expected, TargetsFor(plan, order));
    var targets := TargetsFor(plan, order);
    PlanTotalParts(plan, expected, targets);
    InAccounts(plan.providers, expected, a, rule);
    if Message(rule) == Message(BucketUnguarded) { MessageTells(rule, BucketUnguarded); }
    InBuckets(Resources(plan), targets, Violation(a, Message(rule)));
    InOwn(plan, Resources(plan), targets, a, rule);
  }
}
