/** The policy down to the fields of a plan: what each kind of resource has to say, how an account is
    proven, what a pinned image is, and which bucket a block refers to, with no use of the functions that
    decide it. */
module PolicyFields {
  import opened Options
  import Strings = Text
  import opened PolicyPlan
  import opened PolicyRules
  import opened PolicyEvaluate
  import opened PolicyRequirements
  import PolicyImages
  import PolicyBlocks

  /** The field is there and has this value. */
  ghost predicate Says(values: Fields, field: string, value: Any) {
    field in values && values[field] == value
  }

  ghost predicate OpenTo(values: Fields, field: string) {
    Says(values, field, Str("0.0.0.0/0")) || Says(values, field, Str("::/0"))
  }

  ghost predicate ListOpenTo(values: Fields, field: string) {
    exists items :: Says(values, field, Arr(items)) && (Str("0.0.0.0/0") in items || Str("::/0") in items)
  }

  ghost predicate RuleOpenTo(values: Fields) {
    ListOpenTo(values, "cidr_blocks") || ListOpenTo(values, "ipv6_cidr_blocks")
  }

  // ---- what a pinned image is ----

  ghost predicate LowerHex(s: string) {
    forall i :: 0 <= i < |s| ==> '0' <= s[i] <= '9' || 'a' <= s[i] <= 'f'
  }

  /** A repository name and a digest. */
  ghost predicate NameAndDigest(uri: string, name: string, digest: string) {
    && uri == name + "@sha256:" + digest && |digest| == 64 && LowerHex(digest)
    && name != "" && forall c :: c in name ==> c != '@' && c != ' ' && !('\t' <= c <= '\r')
  }

  lemma ImageExact(uri: string)
    ensures IsImageURI(uri) <==> exists name, digest :: NameAndDigest(uri, name, digest)
  {
    if IsImageURI(uri) {
      var n := |uri| - 72;
      assert uri == uri[..n] + uri[n..n + 8] + uri[n + 8..];
      assert NameAndDigest(uri, uri[..n], uri[n + 8..]);
    }
    if name, digest :| NameAndDigest(uri, name, digest) {
      PinnedIsImage(uri, name, digest);
    }
  }

  lemma PinnedIsImage(uri: string, name: string, digest: string)
    requires NameAndDigest(uri, name, digest)
    ensures IsImageURI(uri)
  {
    var n := |name|;
    assert |uri| - 72 == n && uri[n..n + 8] == "@sha256:";
    assert uri[..n] == name && uri[n + 8..] == digest;
    forall i | 0 <= i < n ensures !Blank(uri[i]) && uri[i] != '@' { assert uri[i] == name[i] && name[i] in name; }
    forall i | n + 8 <= i < |uri| ensures Digit(uri[i]) || 'a' <= uri[i] <= 'f' {
      assert uri[i] == digest[i - (n + 8)];
    }
  }

  ghost predicate PinnedURI(uri: string) {
    exists name, digest :: NameAndDigest(uri, name, digest)
  }

  // ---- what each kind of resource has to say ----

  /** The definitions decode, and every container has a pinned image. */
  ghost predicate AllPinned(plan: Plan, values: Fields) {
    exists text ::
      && Says(values, "container_definitions", Str(text)) && text != "" && text in plan.containers
      && plan.containers[text] != [] && forall image :: image in plan.containers[text] ==> PinnedURI(image)
  }

  /** The root module's `image_uri`. */
  ghost predicate RootIs(plan: Plan, root: string) {
    if exists s :: Says(plan.variables, "image_uri", Str(s)) then Says(plan.variables, "image_uri", Str(root))
    else root == ""
  }

  ghost predicate PinnedByPath(plan: Plan, r: Resource) {
    && Says(r.unknown, "container_definitions", Bool(true))
    && exists root :: RootIs(plan, root) && PolicyImages.HasSite(plan.configuration, "", root, r.address)
  }

  ghost predicate IsZero(values: Fields, field: string) {
    || Says(values, field, Num("0")) || Says(values, field, Num("0.0"))
    || Says(values, field, Str("0")) || Says(values, field, Str("0.0"))
  }

  ghost predicate Compresses(values: Fields) {
    exists items ::
      Says(values, "parameters_in_cache_key_and_forwarded_to_origin", Arr(items)) && FirstCompresses(items)
  }

  ghost predicate FirstCompresses(items: seq<Any>) {
    && items != [] && items[0].Obj?
    && (Says(items[0].fields, "enable_accept_encoding_gzip", Bool(true))
        || Says(items[0].fields, "enable_accept_encoding_brotli", Bool(true)))
  }

  /** The policy for one resource, field by field. */
  ghost predicate FieldsMeet(plan: Plan, r: Resource) {
    var values, unknown := r.values, r.unknown;
    match r.kind
    case DatabaseInstance =>
      && Says(values, "multi_az", Bool(true)) && Says(values, "publicly_accessible", Bool(false))
      && Says(values, "storage_encrypted", Bool(true))
    case LoadBalancer => Says(values, "internal", Bool(true))
    case EcsService => NoPublicIP(values)
    case IngressRule =>
      && !OpenTo(values, "cidr_ipv4") && !OpenTo(values, "cidr_ipv6")
      && !Says(unknown, "cidr_ipv4", Bool(true)) && !Says(unknown, "cidr_ipv6", Bool(true))
    case SecurityGroupRule => Says(values, "type", Str("ingress")) ==> !RuleOpenTo(values)
    case SecurityGroup =>
      forall items, rule :: Says(values, "ingress", Arr(items)) && Obj(rule) in items ==> !RuleOpenTo(rule)
    case PublicAccessBlock =>
      && Says(values, "block_public_acls", Bool(true)) && Says(values, "block_public_policy", Bool(true))
      && Says(values, "ignore_public_acls", Bool(true)) && Says(values, "restrict_public_buckets", Bool(true))
    case TaskDefinition => AllPinned(plan, values) || PinnedByPath(plan, r)
    case Distribution =>
      || (exists id :: Says(values, "web_acl_id", Str(id)) && id != "")
      || (Says(unknown, "web_acl_id", Bool(true)) && exists w :: w in Resources(plan) && w.kind == WebACL)
    case CachePolicy =>
      IsZero(values, "default_ttl") && IsZero(values, "max_ttl") && IsZero(values, "min_ttl") ==> !Compresses(values)
    case _ => true
  }

  ghost predicate PrivateNetwork(values: Fields, network: Fields) {
    Says(values, "network_configuration", Arr([Obj(network)])) && Says(network, "assign_public_ip", Bool(false))
  }

  /** One network configuration, which says that no public address is assigned. */
  ghost predicate NoPublicIP(values: Fields) {
    exists network :: PrivateNetwork(values, network)
  }

  lemma FieldIs(values: Fields, field: string, value: Any)
    requires value != Null
    ensures Field(values, field) == value <==> Says(values, field, value)
  {
  }

  /** The requirements of one resource are those of its kind. */
  lemma CompliantByKind(plan: Plan, r: Resource)
    ensures Compliant(plan, r) <==>
      && Meets(plan, r, DatabaseInOneZone) && Meets(plan, r, DatabasePublic) && Meets(plan, r, DatabaseUnencrypted)
      && Meets(plan, r, LoadBalancerPublic) && Meets(plan, r, ServicePublic) && Meets(plan, r, IngressOpen)
      && Meets(plan, r, BlockIncomplete) && Meets(plan, r, ImageNotPinned) && Meets(plan, r, DistributionUnshielded)
      && Meets(plan, r, CompressionUncached)
  {
    assert Meets(plan, r, BucketUnguarded);
    hide Meets;
  }

  lemma OpenListIs(values: Fields, field: string)
    ensures WorldOpenList(Field(values, field)) <==> ListOpenTo(values, field)
  {
    var value := Field(values, field);
    if WorldOpenList(value) {
      var i :| 0 <= i < |Items(value)| && WorldOpen(Items(value)[i]);
      assert Says(values, field, Arr(value.items)) && value.items[i] in value.items;
    }
    if items :| Says(values, field, Arr(items)) && (Str("0.0.0.0/0") in items || Str("::/0") in items) {
      var open := if Str("0.0.0.0/0") in items then Str("0.0.0.0/0") else Str("::/0");
      var i :| 0 <= i < |items| && items[i] == open;
      assert WorldOpen(Items(value)[i]);
    }
  }

  lemma OpenRuleIs(values: Fields)
    ensures RuleOpenTo(values) <==>
      WorldOpenList(Field(values, "cidr_blocks")) || WorldOpenList(Field(values, "ipv6_cidr_blocks"))
  {
    OpenListIs(values, "cidr_blocks");
    OpenListIs(values, "ipv6_cidr_blocks");
  }

  lemma InlineIs(values: Fields)
    ensures InlineIngressIsWorldOpen(Field(values, "ingress")) <==>
            exists items, rule :: Says(values, "ingress", Arr(items)) && Obj(rule) in items && RuleOpenTo(rule)
  {
    var value := Field(values, "ingress");
    forall fields: Fields { OpenRuleIs(fields); }
    NothingOpen();
    hide WorldOpenList, RuleOpenTo;
    if InlineIngressIsWorldOpen(value) {
      var i :| 0 <= i < |Items(value)| &&
        (WorldOpenList(Field(FieldsOf(Items(value)[i]), "cidr_blocks"))
         || WorldOpenList(Field(FieldsOf(Items(value)[i]), "ipv6_cidr_blocks")));
      var rule := FieldsOf(Items(value)[i]);
      assert Says(values, "ingress", Arr(value.items)) && RuleOpenTo(rule);
      assert value.items[i] == Obj(rule);
      assert Obj(rule) in value.items;
    }
    if items, rule :| Says(values, "ingress", Arr(items)) && Obj(rule) in items && RuleOpenTo(rule) {
      var i :| 0 <= i < |items| && items[i] == Obj(rule);
      assert FieldsOf(Items(value)[i]) == rule;
    }
  }

  lemma NothingOpen()
    ensures !RuleOpenTo(map[])
  {
  }

  lemma ServiceIs(values: Fields)
    ensures !EcsAssignsPublicIP(values) <==> NoPublicIP(values)
  {
    var configurations := Items(Field(values, "network_configuration"));
    if !EcsAssignsPublicIP(values) {
      var network := FieldsOf(configurations[0]);
      assert configurations == [Obj(network)];
      assert PrivateNetwork(values, network);
    }
    if network :| PrivateNetwork(values, network) {
      assert configurations == [Obj(network)];
    }
  }

  lemma ImagesAre(plan: Plan, values: Fields)
    ensures TaskImagesUseDigests(plan.containers, Field(values, "container_definitions")) <==> AllPinned(plan, values)
  {
    var value := Field(values, "container_definitions");
    hide IsImageURI, NameAndDigest;
    forall image ensures IsImageURI(image) <==> PinnedURI(image) { ImageExact(image); }
    hide PinnedURI;
    if TaskImagesUseDigests(plan.containers, value) {
      assert Says(values, "container_definitions", Str(Text(value)));
    }
    if text :| && Says(values, "container_definitions", Str(text)) && text != "" && text in plan.containers
               && plan.containers[text] != [] && forall image :: image in plan.containers[text] ==> PinnedURI(image) {
      assert Text(value) == text;
    }
  }

  lemma RootImageIs(plan: Plan, root: string)
    ensures RootIs(plan, root) <==> root == RootImage(plan)
  {
    if "image_uri" in plan.variables && plan.variables["image_uri"].Str? {
      assert Says(plan.variables, "image_uri", Str(plan.variables["image_uri"].s));
    }
  }

  lemma PinnedIs(plan: Plan, r: Resource)
    ensures Pinned(plan, r) <==> AllPinned(plan, r.values) || PinnedByPath(plan, r)
  {
    ImagesAre(plan, r.values);
    RootImageIs(plan, RootImage(plan));
    forall root { RootImageIs(plan, root); }
    hide TaskImagesUseDigests, AllPinned, RootIs, PolicyImages.HasSite, RootImage;
  }

  lemma CompressionIs(values: Fields)
    ensures CachePolicyEnablesCompression(values) <==> Compresses(values)
  {
    var blocks := Items(Field(values, "parameters_in_cache_key_and_forwarded_to_origin"));
    if CachePolicyEnablesCompression(values) {
      assert Says(values, "parameters_in_cache_key_and_forwarded_to_origin", Arr(blocks));
    }
    if items :| Says(values, "parameters_in_cache_key_and_forwarded_to_origin", Arr(items)) && FirstCompresses(items) {
      assert blocks == items;
    }
  }

  // ---- the requirements are those ----

  lemma NetworkIs(r: Resource)
    requires r.kind.IngressRule? || r.kind.SecurityGroupRule? || r.kind.SecurityGroup?
    ensures ClosedIngress(r) <==>
      match r.kind
      case IngressRule =>
        && !OpenTo(r.values, "cidr_ipv4") && !OpenTo(r.values, "cidr_ipv6")
        && !Says(r.unknown, "cidr_ipv4", Bool(true)) && !Says(r.unknown, "cidr_ipv6", Bool(true))
      case SecurityGroupRule => Says(r.values, "type", Str("ingress")) ==> !RuleOpenTo(r.values)
      case _ =>
        forall items, rule :: Says(r.values, "ingress", Arr(items)) && Obj(rule) in items ==> !RuleOpenTo(rule)
  {
    OpenRuleIs(r.values);
    InlineIs(r.values);
    hide WorldOpenList, InlineIngressIsWorldOpen, RuleOpenTo;
  }

  lemma EdgeIs(plan: Plan, r: Resource)
    ensures Shielded(plan, r) <==>
      || (exists id :: Says(r.values, "web_acl_id", Str(id)) && id != "")
      || (Says(r.unknown, "web_acl_id", Bool(true)) && exists w :: w in Resources(plan) && w.kind == WebACL)
    ensures !CompressesUncached(r) <==>
      (IsZero(r.values, "default_ttl") && IsZero(r.values, "max_ttl") && IsZero(r.values, "min_ttl")
       ==> !Compresses(r.values))
  {
    var id := Field(r.values, "web_acl_id");
    hide Resources, CompressesUncached, IsZero, Compresses;
    assert HasACL(r) ==> Says(r.values, "web_acl_id", Str(id.s));
    CacheIs(r);
  }

  lemma ZeroIs(values: Fields, field: string)
    ensures NumberIsZero(Field(values, field)) <==> IsZero(values, field)
  {
  }

  lemma CacheIs(r: Resource)
    ensures !CompressesUncached(r) <==>
      (IsZero(r.values, "default_ttl") && IsZero(r.values, "max_ttl") && IsZero(r.values, "min_ttl")
       ==> !Compresses(r.values))
  {
    CompressionIs(r.values);
    ZeroIs(r.values, "default_ttl");
    ZeroIs(r.values, "max_ttl");
    ZeroIs(r.values, "min_ttl");
    hide CachePolicyEnablesCompression, Compresses, NumberIsZero, IsZero, Field;
  }

  lemma PlainExact(plan: Plan, r: Resource)
    requires r.kind.DatabaseInstance? || r.kind.LoadBalancer? || r.kind.PublicAccessBlock?
    ensures Compliant(plan, r) <==> FieldsMeet(plan, r)
  {
    CompliantByKind(plan, r);
    hide Compliant, Pinned, Shielded, CompressesUncached, EcsAssignsPublicIP;
    hide OpenAddress, UnknownAddress, OpenLists, OpenInline, IsIngress;
  }

  lemma NetworkExact(plan: Plan, r: Resource)
    requires r.kind.EcsService? || r.kind.IngressRule? || r.kind.SecurityGroupRule? || r.kind.SecurityGroup?
    ensures Compliant(plan, r) <==> FieldsMeet(plan, r)
  {
    CompliantByKind(plan, r);
    hide Compliant, Pinned, Shielded, CompressesUncached, EcsAssignsPublicIP, Resources;
    hide OpenAddress, UnknownAddress, OpenLists, OpenInline, IsIngress;
    hide MultiAZ, KeptPrivate, Encrypted, Internal, Complete, OpenTo, RuleOpenTo, NoPublicIP;
    if r.kind.EcsService? { ServiceIs(r.values); } else { NetworkIs(r); }
  }

  lemma LookupExact(plan: Plan, r: Resource)
    requires r.kind.TaskDefinition? || r.kind.Distribution? || r.kind.CachePolicy?
    ensures Compliant(plan, r) <==> FieldsMeet(plan, r)
  {
    CompliantByKind(plan, r);
    hide Compliant, Pinned, Shielded, CompressesUncached, EcsAssignsPublicIP, Resources;
    hide OpenAddress, UnknownAddress, OpenLists, OpenInline, IsIngress, IsZero, Compresses, AllPinned, PinnedByPath;
    hide MultiAZ, KeptPrivate, Encrypted, Internal, Complete;
    if r.kind.TaskDefinition? { PinnedIs(plan, r); } else { EdgeIs(plan, r); }
  }

  /** A resource is compliant exactly when its fields say what the policy asks of its kind. */
  lemma CompliantExact(plan: Plan, r: Resource)
    ensures Compliant(plan, r) <==> FieldsMeet(plan, r)
  {
    match r.kind
    case DatabaseInstance => PlainExact(plan, r);
    case LoadBalancer => PlainExact(plan, r);
    case PublicAccessBlock => PlainExact(plan, r);
    case EcsService => NetworkExact(plan, r);
    case IngressRule => NetworkExact(plan, r);
    case SecurityGroupRule => NetworkExact(plan, r);
    case SecurityGroup => NetworkExact(plan, r);
    case TaskDefinition => LookupExact(plan, r);
    case Distribution => LookupExact(plan, r);
    case CachePolicy => LookupExact(plan, r);
    case _ => NothingAsked(plan, r);
  }

  lemma NothingAsked(plan: Plan, r: Resource)
    requires r.kind.Bucket? || r.kind.WebACL? || r.kind.OtherKind?
    ensures Compliant(plan, r) && FieldsMeet(plan, r)
  {
  }

  // ---- accounts, names and references ----

  /** The default provider, or an alias of it. */
  ghost predicate ForAWS(name: string) {
    name == "aws" || exists alias :: name == "aws." + alias
  }

  ghost predicate AllowsOnly(p: Provider, account: string) {
    "allowed_account_ids" in p.expressions &&
    exists references ::
      p.expressions["allowed_account_ids"] == RawExpression(false, Expression(Arr([Str(account)]), references))
  }

  /** There is a default AWS provider, and all of them allow exactly this account. */
  lemma AccountExact(providers: map<string, Provider>, account: string)
    ensures AccountProven(providers, account) <==>
      "aws" in providers && forall name :: name in providers && ForAWS(name) ==> AllowsOnly(providers[name], account)
  {
    hide IsAWS, ForAWS, AllowListed, AllowsOnly;
    forall name { ForAWSIff(name); }
    forall p: Provider { AllowsOnlyIff(p, account); }
  }

  lemma ForAWSIff(name: string)
    ensures IsAWS(name) <==> ForAWS(name)
  {
    if IsAWS(name) && name != "aws" { assert name == "aws." + name[4..]; }
    if alias :| name == "aws." + alias { assert name[..4] == "aws."; }
  }

  lemma AllowsOnlyIff(p: Provider, account: string)
    ensures AllowListed(p, account) <==> AllowsOnly(p, account)
  {
    if AllowListed(p, account) {
      var raw := p.expressions["allowed_account_ids"];
      assert raw == RawExpression(false, Expression(Arr([Str(account)]), raw.decoded.references));
    }
  }

  lemma BucketNameIs(r: Resource, name: string)
    requires name != ""
    ensures BucketName(r) == name <==> Says(r.values, "bucket", Str(name))
  {
  }

  /** The reference is to this bucket, or to an attribute of it. */
  ghost predicate RefersTo(reference: string, bucket: string) {
    exists name: string ::
      && name != "" && Strings.Free(name, '.') && bucket == "aws_s3_bucket." + name
      && (reference == bucket || exists attribute :: reference == bucket + "." + attribute)
  }

  lemma RefersToParts(reference: string, name: string, rest: Option<string>)
    requires name != "" && Strings.Free(name, '.')
    requires reference == "aws_s3_bucket" + ['.'] + (name + if rest.Some? then ['.'] + rest.value else "")
    ensures PolicyBlocks.ReferencedResourceAddress(reference, PolicyBlocks.BUCKET_TYPE)
         == Some("aws_s3_bucket" + "." + name)
  {
    assert Strings.Free("aws_s3_bucket", '.');
    var tail := name + if rest.Some? then ['.'] + rest.value else "";
    Strings.SplitHead("aws_s3_bucket", tail, '.');
    if rest.Some? {
      assert tail == name + ['.'] + rest.value;
      Strings.SplitHead(name, rest.value, '.');
    } else {
      assert tail == name;
      Strings.SplitFree(name, '.');
    }
    var parts := Strings.Split(reference, '.');
    assert parts[0] == "aws_s3_bucket" && parts[1] == name;
  }

  lemma ReferenceHasName(reference: string, bucket: string)
    requires PolicyBlocks.ReferencedResourceAddress(reference, PolicyBlocks.BUCKET_TYPE) == Some(bucket)
    ensures RefersTo(reference, bucket)
  {
    var parts := Strings.Split(reference, '.');
    Strings.SplitIsFree(reference, '.');
    Strings.JoinOfSplit(reference, '.');
    hide Strings.Split, Strings.Join;
    var name := parts[1];
    assert Strings.Free(name, '.');
    if |parts| == 2 {
      assert parts == [parts[0]] + [name];
      Strings.JoinCons(parts[0], [name], '.');
      assert Strings.Join([name], '.') == name by { JoinOne(name); }
      assert reference == bucket;
    } else {
      assert parts == [parts[0]] + ([name] + parts[2..]);
      Strings.JoinCons(parts[0], [name] + parts[2..], '.');
      Strings.JoinCons(name, parts[2..], '.');
      assert reference == bucket + "." + Strings.Join(parts[2..], '.');
    }
  }

  lemma JoinOne(s: string)
    ensures Strings.Join([s], '.') == s
  {
  }

  lemma ReferenceExact(reference: string, bucket: string)
    ensures PolicyBlocks.ReferencedResourceAddress(reference, PolicyBlocks.BUCKET_TYPE) == Some(bucket)
       <==> RefersTo(reference, bucket)
  {
    hide PolicyBlocks.ReferencedResourceAddress;
    if PolicyBlocks.ReferencedResourceAddress(reference, PolicyBlocks.BUCKET_TYPE) == Some(bucket) {
      ReferenceHasName(reference, bucket);
    }
    if RefersTo(reference, bucket) {
      var name: string :| && name != "" && Strings.Free(name, '.') && bucket == "aws_s3_bucket." + name
                          && (reference == bucket || exists attribute :: reference == bucket + "." + attribute);
      assert bucket == "aws_s3_bucket" + "." + name;
      if reference == bucket {
        assert reference == "aws_s3_bucket" + ['.'] + (name + "");
        RefersToParts(reference, name, None);
      } else {
        var attribute :| reference == bucket + "." + attribute;
        assert reference == "aws_s3_bucket" + ['.'] + (name + (['.'] + attribute));
        RefersToParts(reference, name, Some(attribute));
      }
    }
  }

  /** The first of these references that is to a bucket is to this one. */
  ghost predicate FirstRefersTo(references: seq<string>, bucket: string) {
    exists i :: && 0 <= i < |references| && RefersTo(references[i], bucket)
                && forall j, other :: 0 <= j < i ==> !RefersTo(references[j], other)
  }

  lemma {:induction false} FirstBucketExact(references: seq<string>, bucket: string)
    ensures PolicyBlocks.FirstBucket(references) == Some(bucket) <==> FirstRefersTo(references, bucket)
  {
    hide RefersTo, PolicyBlocks.ReferencedResourceAddress;
    if references != [] {
      var rest := references[1..];
      var address := PolicyBlocks.ReferencedResourceAddress(references[0], PolicyBlocks.BUCKET_TYPE);
      forall other ensures RefersTo(references[0], other) <==> address == Some(other) {
        ReferenceExact(references[0], other);
      }
      if address.Some? {
        assert RefersTo(references[0], address.value);
      } else {
        FirstBucketExact(rest, bucket);
        assert forall j :: 0 <= j < |rest| ==> rest[j] == references[j + 1];
        FirstIsLater(references, bucket);
      }
    }
  }

  lemma FirstIsLater(references: seq<string>, bucket: string)
    requires references != [] && forall other :: !RefersTo(references[0], other)
    ensures FirstRefersTo(references, bucket) <==> FirstRefersTo(references[1..], bucket)
  {
    hide RefersTo;
    var rest := references[1..];
    if i :| && 0 <= i < |references| && RefersTo(references[i], bucket)
            && forall j, other :: 0 <= j < i ==> !RefersTo(references[j], other) {
      assert rest[i - 1] == references[i];
      assert forall j :: 0 <= j < i - 1 ==> rest[j] == references[j + 1];
    }
    if i :| && 0 <= i < |rest| && RefersTo(rest[i], bucket)
            && forall j, other :: 0 <= j < i ==> !RefersTo(rest[j], other) {
      assert references[i + 1] == rest[i];
      assert forall j :: 1 <= j < i + 1 ==> references[j] == rest[j - 1];
    }
  }

  /** The bucket a block of the configuration stands for. */
  lemma BlockBucketExact(r: ConfigurationResource, bucket: string)
    ensures PolicyBlocks.BlockBucket(r) == Some(bucket) <==>
      && r.kind == PublicAccessBlock && "bucket" in r.expressions
      && FirstRefersTo(r.expressions["bucket"].decoded.references, bucket)
  {
    FirstBucketExact(Decode(r.expressions, "bucket").references, bucket);
  }

  // ---- an image carried through a call ----

  /** Which tasks a carried image proves. */
  lemma TaskExact(r: ConfigurationResource, image: string)
    ensures PolicyImages.ProvenTask(r, image) <==>
      && r.kind == TaskDefinition && PinnedURI(image) && "container_definitions" in r.expressions
      && "var.image_uri" in r.expressions["container_definitions"].decoded.references
  {
    ImageExact(image);
    assert IsImageURI(image) <==> PinnedURI(image);
    hide IsImageURI, NameAndDigest, PinnedURI;
    assert "var." + "image_uri" == "var.image_uri";
  }

  const READS_IMAGE := Expression(Null, ["var.image_uri"])

  const TASK := ConfigurationResource("aws_ecs_task_definition.api", TaskDefinition,
                                      map["container_definitions" := RawExpression(false, READS_IMAGE)])

  const APP := ConfigurationModule([TASK], map[])

  /** A root module that hands `var.image_uri` to the module "app", where a task reads it. */
  const IMAGE_TREE := ConfigurationModule([], map["app" := ModuleCall(map["image_uri" := READS_IMAGE], APP)])

  lemma ReadsImage()
    ensures ReferencesVariable(READS_IMAGE, "image_uri")
  {
    assert "var." + "image_uri" == "var.image_uri";
    assert READS_IMAGE.references[0] == "var.image_uri";
  }

  lemma AppAddress()
    ensures PolicyImages.ChildPrefix("", "app") + "aws_ecs_task_definition.api"
         == "module.app.aws_ecs_task_definition.api"
  {
    assert "" + "module." + "app" + "." == "module.app.";
    assert PolicyImages.ChildPrefix("", "app") == "module.app.";
    hide PolicyImages.ChildPrefix;
    assert "module.app." + "aws_ecs_task_definition.api" == "module.app.aws_ecs_task_definition.api";
  }

  lemma AppProves(prefix: string, image: string)
    ensures prefix + "aws_ecs_task_definition.api" in PolicyImages.ImageProofs(APP, prefix, image)
       <==> IsImageURI(image)
  {
    var a := prefix + "aws_ecs_task_definition.api";
    ReadsImage();
    PolicyImages.ImagesUnfold(APP, prefix, image, a);
    assert APP.resources[0] == TASK;
    hide IsImageURI, ReferencesVariable, PolicyImages.ImageProofs;
    assert PolicyImages.ProvenTask(TASK, image) <==> IsImageURI(image);
    assert PolicyImages.ProvenTask(TASK, image) ==> PolicyImages.ProvenHere(APP, prefix, image, 1, a);
  }

  /** The task is proven exactly if the root variable is a pinned image. */
  lemma ImageIsCarried(plan: Plan, image: string)
    requires plan.configuration == IMAGE_TREE && plan.variables == map["image_uri" := Str(image)]
    ensures "module.app.aws_ecs_task_definition.api" in
              PolicyImages.ImageProofs(plan.configuration, "", RootImage(plan))
       <==> PinnedURI(image)
  {
    var prefix := PolicyImages.ChildPrefix("", "app");
    var a := prefix + "aws_ecs_task_definition.api";
    AppAddress();
    ImageExact(image);
    ReadsImage();
    AppProves(prefix, image);
    assert RootImage(plan) == image;
    assert PolicyImages.ChildImage(IMAGE_TREE.calls["app"], image) == image;
    PolicyImages.ImagesUnfold(IMAGE_TREE, "", image, a);
    hide IsImageURI, NameAndDigest, PolicyImages.ImageProofs, PolicyImages.ChildImage, PolicyImages.ChildPrefix;
    assert PolicyImages.ProvenIn(IMAGE_TREE, "", image, "app", a)
      <==> a in PolicyImages.ImageProofs(APP, prefix, image);
  }
}
