/** Multisets of violations gathered from a Go map: one contribution a key, in any order. */
module PolicyTotals {
  import opened PolicyPlan

  type Contributions = map<string, multiset<Violation>>

  ghost function Total(m: Contributions): multiset<Violation>
    decreases |m.Keys|
  {
    if m.Keys == {} then multiset{}
    else
      var k :| k in m.Keys;
      var rest := m - {k};
      assert rest.Keys == m.Keys - {k};
      m[k] + Total(rest)
  }

  lemma TotalPick(m: Contributions) returns (c: string)
    requires m.Keys != {}
    ensures c in m && Total(m) == m[c] + Total(m - {c})
  {
    c :| c in m.Keys && Total(m) == m[c] + Total(m - {c});
  }

  lemma {:induction false} TotalRemove(m: Contributions, k: string)
    requires k in m
    ensures Total(m) == m[k] + Total(m - {k})
    decreases |m.Keys|
  {
    hide Total;
    var c := TotalPick(m);
    if c != k {
      assert (m - {c}).Keys == m.Keys - {c} && (m - {k}).Keys == m.Keys - {k};
      TotalRemove(m - {c}, k);
      TotalRemove(m - {k}, c);
      assert m - {c} - {k} == m - {k} - {c};
    }
  }

  lemma {:induction false} TotalEmpty(m: Contributions)
    ensures Total(m) == multiset{} <==> forall k :: k in m ==> m[k] == multiset{}
    decreases |m.Keys|
  {
    if k :| k in m {
      assert (m - {k}).Keys == m.Keys - {k};
      TotalRemove(m, k);
      TotalEmpty(m - {k});
      assert forall j :: j in m ==> j == k || j in m - {k};
    }
  }

  /** If only one key contributes a violation, the total has it as often as that key does. */
  lemma {:induction false} TotalSingle(m: Contributions, k: string, v: Violation)
    requires forall j :: j in m && j != k ==> m[j][v] == 0
    ensures Total(m)[v] == if k in m then m[k][v] else 0
    decreases |m.Keys|
  {
    if j :| j in m {
      assert (m - {j}).Keys == m.Keys - {j};
      TotalRemove(m, j);
      TotalSingle(m - {j}, k, v);
    }
  }

  /** What the loops that append in map order do, whatever order that is. */
  method Gather(m: map<string, seq<Violation>>) returns (vs: seq<Violation>)
    ensures multiset(vs) == Total(map k | k in m :: multiset(m[k]))
  {
    vs := [];
    var keys := m.Keys;
    ghost var all: Contributions := map k | k in m :: multiset(m[k]);
    ghost var rest := all;
    while keys != {}
      invariant keys == rest.Keys && keys <= m.Keys
      invariant forall k :: k in rest ==> rest[k] == multiset(m[k])
      invariant multiset(vs) + Total(rest) == Total(all)
      decreases keys
    {
      var key :| key in keys;
      TotalRemove(rest, key);
      vs := vs + m[key];
      keys := keys - {key};
      rest := rest - {key};
    }
  }
}

/** `accountViolations` and the per-resource rules. */
module PolicyRules {
  import opened PolicyPlan
  import opened PolicyTotals
  import PolicyBlocks

  /** What a violation of a resource can be about. */
  datatype Rule =
    | DatabaseInOneZone | DatabasePublic | DatabaseUnencrypted | LoadBalancerPublic | ServicePublic | IngressOpen
    | BlockIncomplete | ImageNotPinned | DistributionUnshielded | CompressionUncached | BucketUnguarded

  const BUCKET_MESSAGE := "S3 bucket has no complete public-access block"

  /** Only an unguarded bucket is reported in the words kept for it. */
  function Message(rule: Rule): (m: string)
    ensures m == BUCKET_MESSAGE <==> rule.BucketUnguarded?
  {
    match rule
    case DatabaseInOneZone => "RDS must be Multi-AZ"
    case DatabasePublic => "RDS publicly_accessible must be false"
    case DatabaseUnencrypted => "RDS storage must be encrypted"
    case LoadBalancerPublic => "ALB must be internal"
    case ServicePublic => "ECS service must not assign a public IP"
    case IngressOpen => "security-group ingress is world-open"
    case BlockIncomplete => "S3 public-access controls must all be true"
    case ImageNotPinned => "every task image must use a sha256 digest"
    case DistributionUnshielded => "CloudFront must have an AWS WAF web ACL"
    case CompressionUncached => "caching-disabled CloudFront cache policy cannot enable Accept-Encoding compression"
    case BucketUnguarded => BUCKET_MESSAGE
  }

  // ---- accounts ----

  predicate IsAWS(name: string) {
    name == "aws" || PolicyBlocks.StartsWith(name, "aws.")
  }

  predicate AllowListed(p: Provider, expected: string) {
    "allowed_account_ids" in p.expressions
    && !p.expressions["allowed_account_ids"].malformed
    && p.expressions["allowed_account_ids"].decoded.constant == Arr([Str(expected)])
  }

  function ProviderViolations(name: string, p: Provider, expected: string): seq<Violation> {
    if !IsAWS(name) || AllowListed(p, expected) then []
    else [Violation("provider." + name,
                    if "allowed_account_ids" !in p.expressions then "AWS provider has no account allow-list"
                    else if p.expressions["allowed_account_ids"].malformed
                    then "AWS provider account allow-list cannot be proven"
                    else "AWS provider account allow-list does not match the expected account")]
  }

  function AccountLists(providers: map<string, Provider>, expected: string): map<string, seq<Violation>> {
    if "aws" !in providers
    then map["aws" := [Violation("provider.aws", "default AWS provider does not prove the expected account")]]
    else map name | name in providers :: ProviderViolations(name, providers[name], expected)
  }

  ghost function AccountTotal(providers: map<string, Provider>, expected: string): multiset<Violation> {
    var lists := AccountLists(providers, expected);
    Total(map k | k in lists :: multiset(lists[k]))
  }

  method AccountViolations(providers: map<string, Provider>, expected: string) returns (vs: seq<Violation>)
    ensures multiset(vs) == AccountTotal(providers, expected)
  {
    vs := Gather(AccountLists(providers, expected));
  }

  /** The account is proven: a default AWS provider, and every AWS provider allows exactly this
      account. */
  ghost predicate AccountProven(providers: map<string, Provider>, expected: string) {
    "aws" in providers && forall name :: name in providers && IsAWS(name) ==> AllowListed(providers[name], expected)
  }

  lemma AccountProvenIff(providers: map<string, Provider>, expected: string)
    ensures AccountTotal(providers, expected) == multiset{} <==> AccountProven(providers, expected)
  {
    var lists := AccountLists(providers, expected);
    var m := map k | k in lists :: multiset(lists[k]);
    NoDefault(providers, expected);
    hide Total, IsAWS, AllowListed, ProviderViolations, AccountLists;
    TotalEmpty(m);
    if "aws" in providers {
      forall name | name in providers
        ensures m[name] == multiset{} <==> (IsAWS(name) ==> AllowListed(providers[name], expected))
      {
        ProviderIff(name, providers[name], expected);
        if lists[name] != [] { assert lists[name][0] in m[name]; }
      }
    } else {
      assert m["aws"] != multiset{};
    }
  }

  lemma NoDefault(providers: map<string, Provider>, expected: string)
    ensures var lists := AccountLists(providers, expected);
            if "aws" in providers
            then lists.Keys == providers.Keys
                 && forall name :: name in providers ==>
                      lists[name] == ProviderViolations(name, providers[name], expected)
            else lists.Keys == {"aws"} && |lists["aws"]| == 1
  {
    hide ProviderViolations;
  }

  lemma ProviderIff(name: string, p: Provider, expected: string)
    ensures ProviderViolations(name, p, expected) == [] <==> (IsAWS(name) ==> AllowListed(p, expected))
  {
    hide IsAWS, AllowListed;
  }

  // ---- one resource at a time ----

  /** What the per-resource rules look up outside their resource. */
  datatype Context = Context(
    hasWAF: bool, proofs: set<string>, containers: map<string, seq<string>>, targets: map<string, string>)

  predicate IsBucket(r: Resource) { r.kind.Bucket? }

  predicate IsBlock(r: Resource) { r.kind.PublicAccessBlock? }

  function BucketName(r: Resource): string { Text(Field(r.values, "bucket")) }

  predicate Complete(r: Resource) {
    Boolean(r.values, "block_public_acls") && Boolean(r.values, "block_public_policy")
    && Boolean(r.values, "ignore_public_acls") && Boolean(r.values, "restrict_public_buckets")
  }

  // What the rules read of one resource.

  predicate MultiAZ(r: Resource) { Boolean(r.values, "multi_az") }

  predicate KeptPrivate(r: Resource) { ExplicitFalse(r.values, "publicly_accessible") }

  predicate Encrypted(r: Resource) { Boolean(r.values, "storage_encrypted") }

  predicate Internal(r: Resource) { Boolean(r.values, "internal") }

  predicate OpenAddress(r: Resource) {
    WorldOpen(Field(r.values, "cidr_ipv4")) || WorldOpen(Field(r.values, "cidr_ipv6"))
  }

  predicate UnknownAddress(r: Resource) {
    Boolean(r.unknown, "cidr_ipv4") || Boolean(r.unknown, "cidr_ipv6")
  }

  predicate IsIngress(r: Resource) { Field(r.values, "type") == Str("ingress") }

  predicate OpenLists(r: Resource) {
    WorldOpenList(Field(r.values, "cidr_blocks")) || WorldOpenList(Field(r.values, "ipv6_cidr_blocks"))
  }

  predicate OpenInline(r: Resource) { InlineIngressIsWorldOpen(Field(r.values, "ingress")) }

  predicate PinnedInPlan(r: Resource, c: Context) {
    TaskImagesUseDigests(c.containers, Field(r.values, "container_definitions"))
  }

  predicate ImagesUnknown(r: Resource) { Boolean(r.unknown, "container_definitions") }

  predicate HasACL(r: Resource) { Text(Field(r.values, "web_acl_id")) != "" }

  predicate ACLUnknown(r: Resource) { Boolean(r.unknown, "web_acl_id") }

  predicate CompressesUncached(r: Resource) {
    CachePolicyDisablesCaching(r.values) && CachePolicyEnablesCompression(r.values)
  }

  function When(broken: bool, rule: Rule): seq<Rule> {
    if broken then [rule] else []
  }

  /** What one resource is reported for on its own. */
  function OwnRules(r: Resource, c: Context): seq<Rule> {
    match r.kind
    case DatabaseInstance =>
      When(!MultiAZ(r), DatabaseInOneZone) + When(!KeptPrivate(r), DatabasePublic)
          + When(!Encrypted(r), DatabaseUnencrypted)
    case LoadBalancer => When(!Internal(r), LoadBalancerPublic)
    case EcsService => When(EcsAssignsPublicIP(r.values), ServicePublic)
    case IngressRule => When(OpenAddress(r) || UnknownAddress(r), IngressOpen)
    case SecurityGroupRule => When(IsIngress(r) && OpenLists(r), IngressOpen)
    case SecurityGroup => When(OpenInline(r), IngressOpen)
    case PublicAccessBlock => When(!Complete(r), BlockIncomplete)
    case TaskDefinition =>
      When(!PinnedInPlan(r, c) && (!ImagesUnknown(r) || r.address !in c.proofs), ImageNotPinned)
    case Distribution => When(!HasACL(r) && (!ACLUnknown(r) || !c.hasWAF), DistributionUnshielded)
    case CachePolicy => When(CompressesUncached(r), CompressionUncached)
    case _ => []
  }

  function At(address: string, rules: seq<Rule>): (vs: seq<Violation>)
    ensures |vs| == |rules|
    ensures forall i :: 0 <= i < |vs| ==> vs[i] == Violation(address, Message(rules[i]))
  {
    seq(|rules|, i requires 0 <= i < |rules| => Violation(address, Message(rules[i])))
  }

  function AllOwn(rs: seq<Resource>, c: Context): seq<Violation> {
    if rs == [] then []
    else AllOwn(rs[..|rs| - 1], c) + At(rs[|rs| - 1].address, OwnRules(rs[|rs| - 1], c))
  }

  // ---- buckets and the blocks that protect them ----

  function AddName(names: map<string, string>, r: Resource): map<string, string> {
    if IsBucket(r) && BucketName(r) != "" then names[BucketName(r) := r.address] else names
  }

  function AddAddress(addresses: set<string>, r: Resource): set<string> {
    if IsBucket(r) then addresses + {r.address} else addresses
  }

  function AddBlock(blocks: map<string, bool>, r: Resource): map<string, bool> {
    if IsBlock(r) && BucketName(r) != "" then blocks[BucketName(r) := Complete(r)] else blocks
  }

  function TargetOf(targets: map<string, string>, address: string): string {
    if address in targets then targets[address] else ""
  }

  function AddGuard(guarded: set<string>, r: Resource, targets: map<string, string>): set<string> {
    if IsBlock(r) && Complete(r) then guarded + {TargetOf(targets, r.address)} else guarded
  }

  /** The address of the last bucket of each known name. */
  function Names(rs: seq<Resource>): map<string, string> {
    if rs == [] then map[] else AddName(Names(rs[..|rs| - 1]), rs[|rs| - 1])
  }

  function Addresses(rs: seq<Resource>): set<string> {
    if rs == [] then {} else AddAddress(Addresses(rs[..|rs| - 1]), rs[|rs| - 1])
  }

  /** Whether the last block that names a bucket is complete. */
  function BlocksByName(rs: seq<Resource>): map<string, bool> {
    if rs == [] then map[] else AddBlock(BlocksByName(rs[..|rs| - 1]), rs[|rs| - 1])
  }

  /** Bucket addresses some complete block refers to in the configuration. */
  function Protected(rs: seq<Resource>, targets: map<string, string>): set<string> {
    if rs == [] then {} else AddGuard(Protected(rs[..|rs| - 1], targets), rs[|rs| - 1], targets)
  }

  predicate ProtectedByName(blocks: map<string, bool>, name: string) {
    name in blocks && blocks[name]
  }

  predicate HasKnownName(names: map<string, string>, address: string) {
    exists n :: n in names && names[n] == address
  }

  function Unprotected(address: string): seq<Violation> {
    [Violation(address, Message(BucketUnguarded))]
  }

  function NamedLists(names: map<string, string>, blocks: map<string, bool>, guarded: set<string>)
    : map<string, seq<Violation>>
  {
    map n | n in names :: if !ProtectedByName(blocks, n) && names[n] !in guarded then Unprotected(names[n]) else []
  }

  function AddressLists(addresses: set<string>, names: map<string, string>, guarded: set<string>)
    : map<string, seq<Violation>>
  {
    map a | a in addresses :: if !HasKnownName(names, a) && a !in guarded then Unprotected(a) else []
  }

  ghost function Sum(lists: map<string, seq<Violation>>): multiset<Violation> {
    Total(map k | k in lists :: multiset(lists[k]))
  }

  ghost function ResourceTotal(rs: seq<Resource>, c: Context): multiset<Violation> {
    var names, guarded := Names(rs), Protected(rs, c.targets);
    multiset(AllOwn(rs, c))
    + Sum(NamedLists(names, BlocksByName(rs), guarded))
    + Sum(AddressLists(Addresses(rs), names, guarded))
  }

  method ResourceViolations(rs: seq<Resource>, c: Context) returns (vs: seq<Violation>)
    ensures multiset(vs) == ResourceTotal(rs, c)
  {
    hide OwnRules, AddName, AddAddress, AddBlock, AddGuard, NamedLists, AddressLists;
    vs := [];
    var names, addresses, blocks, guarded := map[], {}, map[], {};
    for i := 0 to |rs|
      invariant vs == AllOwn(rs[..i], c)
      invariant names == Names(rs[..i]) && blocks == BlocksByName(rs[..i])
      invariant addresses == Addresses(rs[..i]) && guarded == Protected(rs[..i], c.targets)
    {
      var r := rs[i];
      assert rs[..i + 1][..i] == rs[..i];
      vs := vs + At(r.address, OwnRules(r, c));
      names, addresses := AddName(names, r), AddAddress(addresses, r);
      blocks, guarded := AddBlock(blocks, r), AddGuard(guarded, r, c.targets);
    }
    assert rs[..|rs|] == rs;
    var named := Gather(NamedLists(names, blocks, guarded));
    var unnamed := Gather(AddressLists(addresses, names, guarded));
    vs := vs + named + unnamed;
  }
}
