/** A decoded saved plan: the parts of its JSON that the policy reads. */
module PolicyPlan {
  import opened Options

  /** A decoded JSON value. A number is kept as the text Go renders it with. */
  datatype Any = Null | Bool(b: bool) | Num(text: string) | Str(s: string) | Arr(items: seq<Any>) | Obj(fields: Fields)

  type Fields = map<string, Any>

  datatype Violation = Violation(address: string, message: string)

  datatype Expression = Expression(constant: Any, references: seq<string>)

  /** Undecoded JSON of an expression: what decoding it leaves behind, and whether decoding failed. */
  datatype RawExpression = RawExpression(malformed: bool, decoded: Expression)

  datatype Provider = Provider(expressions: map<string, RawExpression>)

  /** The resource types the policy knows, and any other. */
  datatype Kind =
    | DatabaseInstance      // aws_db_instance
    | LoadBalancer          // aws_lb
    | EcsService            // aws_ecs_service
    | IngressRule           // aws_vpc_security_group_ingress_rule
    | SecurityGroupRule     // aws_security_group_rule
    | SecurityGroup         // aws_security_group
    | Bucket                // aws_s3_bucket
    | PublicAccessBlock     // aws_s3_bucket_public_access_block
    | TaskDefinition        // aws_ecs_task_definition
    | Distribution          // aws_cloudfront_distribution
    | CachePolicy           // aws_cloudfront_cache_policy
    | WebACL                // aws_wafv2_web_acl
    | OtherKind(name: string)

  datatype ConfigurationResource =
    ConfigurationResource(address: string, kind: Kind, expressions: map<string, RawExpression>)

  datatype ConfigurationModule =
    ConfigurationModule(resources: seq<ConfigurationResource>, calls: map<string, ModuleCall>)

  datatype ModuleCall = ModuleCall(expressions: map<string, Expression>, body: ConfigurationModule)

  datatype Resource = Resource(address: string, kind: Kind, values: Fields, unknown: Fields)

  datatype PlannedModule = PlannedModule(resources: seq<Resource>, children: seq<PlannedModule>)

  datatype ResourceChange = ResourceChange(address: string, kind: Kind, after: Option<Fields>, afterUnknown: Fields)

  /** `containers` holds the image of every container of each string that decodes as a list of
      container definitions; other strings do not decode. */
  datatype Plan = Plan(
    providers: map<string, Provider>,
    configuration: ConfigurationModule,
    planned: PlannedModule,
    changes: seq<ResourceChange>,
    variables: map<string, Any>,
    containers: map<string, seq<string>>)

  // ---- field predicates ----

  function Field(values: Fields, field: string): Any {
    if field in values then values[field] else Null
  }

  predicate Boolean(values: Fields, field: string) {
    Field(values, field) == Bool(true)
  }

  predicate ExplicitFalse(values: Fields, field: string) {
    Field(values, field) == Bool(false)
  }

  function Text(value: Any): string {
    if value.Str? then value.s else ""
  }

  function Items(value: Any): seq<Any> {
    if value.Arr? then value.items else []
  }

  function FieldsOf(value: Any): Fields {
    if value.Obj? then value.fields else map[]
  }

  predicate WorldOpen(value: Any) {
    Text(value) == "0.0.0.0/0" || Text(value) == "::/0"
  }

  predicate WorldOpenList(value: Any) {
    exists i :: 0 <= i < |Items(value)| && WorldOpen(Items(value)[i])
  }

  predicate InlineIngressIsWorldOpen(value: Any) {
    exists i :: 0 <= i < |Items(value)| &&
      (WorldOpenList(Field(FieldsOf(Items(value)[i]), "cidr_blocks"))
       || WorldOpenList(Field(FieldsOf(Items(value)[i]), "ipv6_cidr_blocks")))
  }

  predicate EcsAssignsPublicIP(values: Fields) {
    var configurations := Items(Field(values, "network_configuration"));
    |configurations| != 1 || !ExplicitFalse(FieldsOf(configurations[0]), "assign_public_ip")
  }

  /** A JSON number decodes to binary floating point; it and a string are compared as rendered text. */
  predicate NumberIsZero(value: Any) {
    match value
    case Num(text) => text == "0" || text == "0.0"
    case Str(text) => text == "0" || text == "0.0"
    case _ => false
  }

  predicate CachePolicyDisablesCaching(values: Fields) {
    && NumberIsZero(Field(values, "default_ttl")) && NumberIsZero(Field(values, "max_ttl"))
    && NumberIsZero(Field(values, "min_ttl"))
  }

  predicate CachePolicyEnablesCompression(values: Fields) {
    var blocks := Items(Field(values, "parameters_in_cache_key_and_forwarded_to_origin"));
    blocks != [] &&
    (Boolean(FieldsOf(blocks[0]), "enable_accept_encoding_gzip")
        || Boolean(FieldsOf(blocks[0]), "enable_accept_encoding_brotli"))
  }

  predicate Digit(c: char) { '0' <= c <= '9' }

  predicate IsAccountID(s: string) {
    |s| == 12 && forall i :: 0 <= i < 12 ==> Digit(s[i])
  }

  predicate Blank(c: char) {
    c == ' ' || ('\t' <= c <= '\r')
  }

  /** A name without blanks or '@', then "@sha256:" and 64 lower-case hexadecimal digits. */
  predicate IsImageURI(s: string) {
    && |s| > 72
    && s[|s| - 72..|s| - 64] == "@sha256:"
    && (forall i :: 0 <= i < |s| - 72 ==> !Blank(s[i]) && s[i] != '@')
    && (forall i :: |s| - 64 <= i < |s| ==> Digit(s[i]) || 'a' <= s[i] <= 'f')
  }

  predicate TaskImagesUseDigests(containers: map<string, seq<string>>, value: Any) {
    Text(value) != "" && Text(value) in containers &&
    var images := containers[Text(value)];
    images != [] && forall i :: 0 <= i < |images| ==> IsImageURI(images[i])
  }

  predicate ReferencesVariable(e: Expression, name: string) {
    "var." + name in e.references
  }

  function Decode(expressions: map<string, RawExpression>, field: string): Expression {
    if field in expressions then expressions[field].decoded else Expression(Null, [])
  }

  // ---- the planned resources ----

  function Flatten(m: PlannedModule): seq<Resource>
    decreases m, 1
  {
    m.resources + FlattenAll(m.children)
  }

  function FlattenAll(children: seq<PlannedModule>): seq<Resource>
    decreases children, 0
  {
    if children == [] then [] else Flatten(children[0]) + FlattenAll(children[1..])
  }

  function ChangedResources(changes: seq<ResourceChange>): seq<Resource> {
    if changes == [] then []
    else
      var c := changes[|changes| - 1];
      ChangedResources(changes[..|changes| - 1]) +
      (if c.after.None? then [] else [Resource(c.address, c.kind, c.after.value, c.afterUnknown)])
  }

  /** The last change at an address decides what is unknown there. */
  function UnknownByAddress(changes: seq<ResourceChange>): map<string, Fields> {
    if changes == [] then map[]
    else
      var c := changes[|changes| - 1];
      UnknownByAddress(changes[..|changes| - 1])[c.address := c.afterUnknown]
  }

  function WithUnknown(r: Resource, unknown: map<string, Fields>): Resource {
    r.(unknown := if r.address in unknown then unknown[r.address] else map[])
  }

  function Annotate(rs: seq<Resource>, unknown: map<string, Fields>): (r: seq<Resource>)
    ensures |r| == |rs| && forall i :: 0 <= i < |rs| ==> r[i] == WithUnknown(rs[i], unknown)
  {
    seq(|rs|, i requires 0 <= i < |rs| => WithUnknown(rs[i], unknown))
  }

  function Resources(plan: Plan): seq<Resource> {
    var flat := Flatten(plan.planned);
    if flat == [] then ChangedResources(plan.changes)
    else Annotate(flat, UnknownByAddress(plan.changes))
  }
}

/** The (address, message) order that fixes one list per multiset. */
module ViolationOrder {
  import opened PolicyPlan
  import opened StringOrder

  predicate Before(a: Violation, b: Violation) {
    if a.address == b.address then Less(a.message, b.message) else Less(a.address, b.address)
  }

  lemma BeforeIsStrictTotal(a: Violation, b: Violation)
    ensures !(Before(a, b) && Before(b, a))
    ensures Before(a, b) || Before(b, a) || a == b
  {
    LessIsStrict(a.address, b.address);
    LessIsStrict(a.message, b.message);
  }

  lemma BeforeIsTransitive(a: Violation, b: Violation, c: Violation)
    requires Before(a, b) && Before(b, c)
    ensures Before(a, c)
  {
    LessIsStrict(a.address, b.address);
    LessIsStrict(a.address, c.address);
    if a.address == b.address == c.address {
      LessIsTransitive(a.message, b.message, c.message);
    } else if a.address != b.address && b.address != c.address {
      LessIsTransitive(a.address, b.address, c.address);
      LessIsStrict(b.address, c.address);
    }
  }

  ghost predicate Sorted(vs: seq<Violation>) {
    forall i, j :: 0 <= i < j < |vs| ==> !Before(vs[j], vs[i])
  }

  /** By address, then by message. */
  lemma SortedMeans(vs: seq<Violation>)
    ensures Sorted(vs) <==> forall i, j :: 0 <= i < j < |vs| ==>
              && (vs[i].address == vs[j].address || Less(vs[i].address, vs[j].address))
              && (vs[i].address == vs[j].address ==>
                    vs[i].message == vs[j].message || Less(vs[i].message, vs[j].message))
  {
    hide Less;
    forall i, j | 0 <= i < j < |vs|
      ensures Before(vs[j], vs[i]) <==>
              !(&& (vs[i].address == vs[j].address || Less(vs[i].address, vs[j].address))
                && (vs[i].address == vs[j].address ==>
                      vs[i].message == vs[j].message || Less(vs[i].message, vs[j].message)))
    {
      LessIsStrict(vs[i].address, vs[j].address);
      LessIsStrict(vs[i].message, vs[j].message);
    }
  }

  lemma HeadsAgree(a: seq<Violation>, b: seq<Violation>)
    requires Sorted(a) && Sorted(b) && multiset(a) == multiset(b) && a != [] && b != []
    ensures a[0] == b[0]
  {
    assert a[0] in multiset(b) && b[0] in multiset(a);
    var i :| 0 <= i < |b| && b[i] == a[0];
    var j :| 0 <= j < |a| && a[j] == b[0];
    BeforeIsStrictTotal(a[0], b[0]);
  }

  lemma WithoutHead(a: seq<Violation>)
    requires a != []
    ensures multiset(a[1..]) == multiset(a) - multiset{a[0]}
    ensures Sorted(a) ==> Sorted(a[1..])
  {
    assert a == [a[0]] + a[1..];
  }

  /** A multiset of violations has only one sorted list. */
  lemma {:induction false} SortedIsUnique(a: seq<Violation>, b: seq<Violation>)
    requires Sorted(a) && Sorted(b) && multiset(a) == multiset(b)
    ensures a == b
    decreases |a|
  {
    if a == [] || b == [] {
      assert |multiset(a)| == |a| && |multiset(b)| == |b|;
    } else {
      HeadsAgree(a, b);
      WithoutHead(a);
      WithoutHead(b);
      SortedIsUnique(a[1..], b[1..]);
      assert a == [a[0]] + a[1..] && b == [b[0]] + b[1..];
    }
  }

  lemma NotAfterTheLast(vs: seq<Violation>, v: Violation, i: nat)
    requires Sorted(vs) && i < |vs| && !Before(v, vs[|vs| - 1])
    ensures !Before(v, vs[i])
  {
    var last := vs[|vs| - 1];
    BeforeIsStrictTotal(last, v);
    if i < |vs| - 1 && Before(v, vs[i]) && Before(last, v) {
      BeforeIsTransitive(last, v, vs[i]);
    }
  }

  lemma SortedWith(vs: seq<Violation>, k: nat, v: Violation)
    requires Sorted(vs) && k <= |vs| && (k > 0 ==> !Before(v, vs[k - 1]))
    requires forall i :: k <= i < |vs| ==> Before(v, vs[i])
    ensures Sorted(vs[..k] + [v] + vs[k..])
  {
    hide Before;
    var r := vs[..k] + [v] + vs[k..];
    forall i, j | 0 <= i < j < |r| ensures !Before(r[j], r[i]) {
      if i == k {
        BeforeIsStrictTotal(v, r[j]);
      } else if j == k {
        NotAfterTheLast(vs[..k], v, i);
      }
    }
  }

  /** The place behind those violations that are not after `v`. */
  function Place(vs: seq<Violation>, v: Violation): (k: nat)
    ensures k <= |vs| && (k > 0 ==> !Before(v, vs[k - 1]))
    ensures forall i :: k <= i < |vs| ==> Before(v, vs[i])
  {
    if vs == [] || !Before(v, vs[|vs| - 1]) then |vs| else Place(vs[..|vs| - 1], v)
  }

  function Inserted(vs: seq<Violation>, v: Violation): seq<Violation> {
    var k := Place(vs, v);
    vs[..k] + [v] + vs[k..]
  }

  lemma InsertedHolds(vs: seq<Violation>, k: nat, v: Violation)
    requires k <= |vs|
    ensures multiset(vs[..k] + [v] + vs[k..]) == multiset(vs) + multiset{v}
  {
    assert vs == vs[..k] + vs[k..];
  }

  lemma InsertedIsSorted(vs: seq<Violation>, v: Violation)
    requires Sorted(vs)
    ensures Sorted(Inserted(vs, v)) && multiset(Inserted(vs, v)) == multiset(vs) + multiset{v}
  {
    hide Before, Sorted;
    var k := Place(vs, v);
    hide Place;
    SortedWith(vs, k, v);
    InsertedHolds(vs, k, v);
  }

  /** The final sort. The source calls the library's; any sort has this contract, and with
      SortedIsUnique this result. */
  method Sort(vs: seq<Violation>) returns (r: seq<Violation>)
    ensures Sorted(r) && multiset(r) == multiset(vs)
  {
    r := [];
    for i := 0 to |vs|
      invariant Sorted(r) && multiset(r) == multiset(vs[..i])
    {
      InsertedIsSorted(r, vs[i]);
      r := Inserted(r, vs[i]);
      assert vs[..i + 1] == vs[..i] + [vs[i]];
    }
    assert vs[..|vs|] == vs;
  }
}
