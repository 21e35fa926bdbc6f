/** `Parse`: the guards a configuration file has to pass, and the facts they leave behind. A value
    outside the known ones is an `Other`; what patterns, durations and a section's own fields come to
    is given with the file. */
module BootstrapConfig {
  import opened Options

  datatype Environment = Development | Staging | Production | OtherEnvironment
  datatype DeploymentMode = Local | Managed | OtherMode
  datatype RuntimeRole = Api | Migrate | Preflight | OtherRole
  datatype SecretsProvider = FileSecrets | Infisical | OtherSecrets
  datatype StorageProvider = Filesystem | S3 | OtherStorage
  datatype CryptoProvider = LocalKeys | AwsKms | OtherCrypto
  datatype TimeProvider = System | Linux | OtherTime

  /** `fieldsPass`: the section's other fields are right for the deployment mode. */
  datatype Section<P> = Section(provider: P, fieldsPass: bool)

  datatype DatabaseSection = DatabaseSection(fieldsPass: bool)

  datatype RawCapabilities = RawCapabilities(
    architectureProbe: Option<bool>, postgres: Option<bool>, secrets: Option<bool>, kms: Option<bool>,
    objectStorage: Option<bool>, telemetry: Option<bool>, redpanda: Option<bool>)

  datatype FileConfig = FileConfig(
    schemaVersion: int, revisionMatches: bool, environment: Environment, mode: DeploymentMode,
    cellMatches: bool, regionMatches: bool, role: RuntimeRole, capabilities: RawCapabilities,
    secrets: Option<Section<SecretsProvider>>, postgres: Option<DatabaseSection>,
    objectStorage: Option<Section<StorageProvider>>, kms: Option<Section<CryptoProvider>>,
    time: Option<Section<TimeProvider>>, checkTimeout: Option<int>, probeInterval: Option<int>)

  datatype Capabilities = Capabilities(
    architectureProbe: bool, postgres: bool, secrets: bool, kms: bool, objectStorage: bool)

  /** A section that was not asked for has no configuration. */
  datatype Config = Config(
    environment: Environment, mode: DeploymentMode, role: RuntimeRole, capabilities: Capabilities,
    secrets: Option<SecretsProvider>, database: Option<DatabaseSection>, storage: Option<StorageProvider>,
    crypto: Option<CryptoProvider>, time: TimeProvider, checkTimeout: int, probeInterval: int)

  datatype Capability = Postgres | Secrets | Kms | ObjectStorage

  datatype Refusal =
    | SchemaVersion | Revision | UnknownEnvironment | UnknownMode | MustBeManaged | CellID | Region | UnknownRole
    | CapabilitiesUnset | CapabilityUnset(capability: Capability) | Contradiction(capability: Capability)
    | TelemetryOn | RedpandaOn | NoTime | ProbeInProduction | PostgresNeedsSecrets | LocalKmsNeedsSecrets
    | CheckTimeout | ProbeInterval | BadSecrets | BadDatabase | BadStorage | BadCrypto | BadTime

  datatype Switch = Switch(capability: Capability, enabled: Option<bool>, section: bool)

  function Switches(raw: FileConfig): seq<Switch> {
    [Switch(Postgres, raw.capabilities.postgres, raw.postgres.Some?),
     Switch(Secrets, raw.capabilities.secrets, raw.secrets.Some?),
     Switch(Kms, raw.capabilities.kms, raw.kms.Some?),
     Switch(ObjectStorage, raw.capabilities.objectStorage, raw.objectStorage.Some?)]
  }

  /** The first switch that is unset or contradicts its section. */
  function BadSwitch(switches: seq<Switch>): (r: Option<Refusal>)
    ensures r.None? <==> forall i :: 0 <= i < |switches| ==> switches[i].enabled == Some(switches[i].section)
  {
    if switches == [] then None
    else if switches[0].enabled.None? then Some(CapabilityUnset(switches[0].capability))
    else if switches[0].enabled.value != switches[0].section then Some(Contradiction(switches[0].capability))
    else BadSwitch(switches[1..])
  }

  /** The switches are all set, and each says whether its section is there. */
  predicate SwitchesAgree(raw: FileConfig) {
    var c := raw.capabilities;
    && c.postgres == Some(raw.postgres.Some?) && c.secrets == Some(raw.secrets.Some?)
    && c.kms == Some(raw.kms.Some?) && c.objectStorage == Some(raw.objectStorage.Some?)
  }

  lemma NoBadSwitch(raw: FileConfig)
    ensures BadSwitch(Switches(raw)).None? <==> SwitchesAgree(raw)
  {
    var switches := Switches(raw);
    assert switches[0].section == raw.postgres.Some? && switches[1].section == raw.secrets.Some?;
    assert switches[2].section == raw.kms.Some? && switches[3].section == raw.objectStorage.Some?;
  }

  /** The sections are there exactly where these capabilities are on. */
  predicate Agrees(raw: FileConfig, c: Capabilities) {
    && c.postgres == raw.postgres.Some? && c.secrets == raw.secrets.Some? && c.kms == raw.kms.Some?
    && c.objectStorage == raw.objectStorage.Some? && raw.time.Some?
  }

  function ParseCapabilities(raw: FileConfig): (r: Result<Capabilities, Refusal>)
    ensures r.Ok? ==> Agrees(raw, r.value)
  {
    var c := raw.capabilities;
    NoBadSwitch(raw);
    if c.architectureProbe.None? || c.telemetry.None? || c.redpanda.None? then Err(CapabilitiesUnset)
    else
      var bad := BadSwitch(Switches(raw));
      if bad.Some? then Err(bad.value)
      else if c.telemetry.value then Err(TelemetryOn)
      else if c.redpanda.value then Err(RedpandaOn)
      else if raw.time.None? then Err(NoTime)
      else Ok(Capabilities(c.architectureProbe.value, c.postgres.value, c.secrets.value, c.kms.value,
          c.objectStorage.value))
  }

  predicate Positive(d: Option<int>) {
    d.Some? && d.value > 0
  }

  /** A section passes with the provider the deployment mode calls for. */
  predicate Passes<P(==)>(section: Section<P>, managed: bool, local: P, remote: P) {
    section.provider == (if managed then remote else local) && section.fieldsPass
  }

  function Parse(raw: FileConfig): Result<Config, Refusal> {
    if raw.schemaVersion != 1 then Err(SchemaVersion)
    else if !raw.revisionMatches then Err(Revision)
    else if raw.environment.OtherEnvironment? then Err(UnknownEnvironment)
    else if raw.mode.OtherMode? then Err(UnknownMode)
    else if !raw.environment.Development? && !raw.mode.Managed? then Err(MustBeManaged)
    else if !raw.cellMatches then Err(CellID)
    else if !raw.regionMatches then Err(Region)
    else if raw.role.OtherRole? then Err(UnknownRole)
    else
      var capabilities := ParseCapabilities(raw);
      if capabilities.Err? then Err(capabilities.error) else ParseSections(raw, capabilities.value)
  }

  /** Reads every section the capabilities ask for, and no other. */
  function ParseSections(raw: FileConfig, c: Capabilities): Result<Config, Refusal>
    requires Agrees(raw, c)
  {
    var managed := raw.mode.Managed?;
    if raw.environment.Production? && c.architectureProbe then Err(ProbeInProduction)
    else if c.postgres && !c.secrets then Err(PostgresNeedsSecrets)
    else if !managed && c.kms && !c.secrets then Err(LocalKmsNeedsSecrets)
    else if !Positive(raw.checkTimeout) then Err(CheckTimeout)
    else if !Positive(raw.probeInterval) then Err(ProbeInterval)
    else if c.secrets && !Passes(raw.secrets.value, managed, FileSecrets, Infisical) then Err(BadSecrets)
    else if c.postgres && !raw.postgres.value.fieldsPass then Err(BadDatabase)
    else if c.objectStorage && !Passes(raw.objectStorage.value, managed, Filesystem, S3) then Err(BadStorage)
    else if c.kms && !Passes(raw.kms.value, managed, LocalKeys, AwsKms) then Err(BadCrypto)
    else if !Passes(raw.time.value, managed, System, Linux) then Err(BadTime)
    else
      Ok(Config(raw.environment, raw.mode, raw.role, c,
                if c.secrets then Some(raw.secrets.value.provider) else None,
                if c.postgres then raw.postgres else None,
                if c.objectStorage then Some(raw.objectStorage.value.provider) else None,
                if c.kms then Some(raw.kms.value.provider) else None,
                raw.time.value.provider, raw.checkTimeout.value, raw.probeInterval.value))
  }

  /** What a file must say, with no order among the rules. */
  ghost predicate Acceptable(raw: FileConfig) {
    var c, managed := raw.capabilities, raw.mode == Managed;
    && raw.schemaVersion == 1 && raw.revisionMatches && raw.cellMatches && raw.regionMatches
    && !raw.environment.OtherEnvironment? && !raw.mode.OtherMode? && !raw.role.OtherRole?
    && (raw.environment == Staging || raw.environment == Production ==> managed)
    && c.postgres == Some(raw.postgres.Some?) && c.secrets == Some(raw.secrets.Some?)
    && c.kms == Some(raw.kms.Some?) && c.objectStorage == Some(raw.objectStorage.Some?)
    && c.telemetry == Some(false) && c.redpanda == Some(false) && c.architectureProbe.Some?
    && (raw.environment == Production ==> c.architectureProbe == Some(false))
    && (raw.postgres.Some? ==> raw.secrets.Some? && raw.postgres.value.fieldsPass)
    && (raw.kms.Some? && !managed ==> raw.secrets.Some?)
    && (raw.secrets.Some? ==> raw.secrets.value == Section(if managed then Infisical else FileSecrets, true))
    && (raw.objectStorage.Some? ==> raw.objectStorage.value == Section(if managed then S3 else Filesystem, true))
    && (raw.kms.Some? ==> raw.kms.value == Section(if managed then AwsKms else LocalKeys, true))
    && raw.time == Some(Section(if managed then Linux else System, true))
    && raw.checkTimeout.Some? && raw.checkTimeout.value > 0
    && raw.probeInterval.Some? && raw.probeInterval.value > 0
  }

  /** What an accepted file turns into: its own values, and for each section the provider its deployment
      mode calls for. */
  ghost predicate TakenFrom(config: Config, raw: FileConfig) {
    var c, managed := config.capabilities, raw.mode == Managed;
    && config.environment == raw.environment && config.mode == raw.mode && config.role == raw.role
    && raw.capabilities == RawCapabilities(Some(c.architectureProbe), Some(c.postgres), Some(c.secrets), Some(c.kms),
                                           Some(c.objectStorage), Some(false), Some(false))
    && config.secrets == (if raw.secrets.None? then None else Some(if managed then Infisical else FileSecrets))
    && config.database == raw.postgres
    && config.storage == (if raw.objectStorage.None? then None else Some(if managed then S3 else Filesystem))
    && config.crypto == (if raw.kms.None? then None else Some(if managed then AwsKms else LocalKeys))
    && config.time == (if managed then Linux else System)
    && Some(config.checkTimeout) == raw.checkTimeout && Some(config.probeInterval) == raw.probeInterval
  }

  /** What the dependencies rely on. */
  ghost predicate Sound(config: Config) {
    var c := config.capabilities;
    && (c.secrets <==> config.secrets.Some?) && (c.postgres <==> config.database.Some?)
    && (c.objectStorage <==> config.storage.Some?) && (c.kms <==> config.crypto.Some?)
    && (c.postgres ==> c.secrets)
    && (config.crypto == Some(LocalKeys) ==> c.secrets)
    && config.checkTimeout > 0 && config.probeInterval > 0
  }

  /** `Parse` accepts exactly the files that say what they must, whatever else is wrong first. */
  lemma ParseIff(raw: FileConfig)
    ensures Parse(raw).Ok? <==> Acceptable(raw)
  {
    NoBadSwitch(raw);
  }

  lemma ParseIsSound(raw: FileConfig)
    requires Parse(raw).Ok?
    ensures Sound(Parse(raw).value)
  {
    NoBadSwitch(raw);
  }

  lemma ParseTakesTheFile(raw: FileConfig)
    requires Parse(raw).Ok?
    ensures TakenFrom(Parse(raw).value, raw)
  {
    NoBadSwitch(raw);
  }

  // ---- which rule a refusal is about ----

  /** This rule is broken. */
  ghost predicate Breaks(raw: FileConfig, r: Refusal) {
    var managed := raw.mode == Managed;
    match r
    case SchemaVersion => raw.schemaVersion != 1
    case Revision => !raw.revisionMatches
    case UnknownEnvironment => raw.environment.OtherEnvironment?
    case UnknownMode => raw.mode.OtherMode?
    case MustBeManaged => raw.environment != Development && !managed
    case CellID => !raw.cellMatches
    case Region => !raw.regionMatches
    case UnknownRole => raw.role.OtherRole?
    case CapabilitiesUnset =>
      raw.capabilities.architectureProbe.None? || raw.capabilities.telemetry.None? || raw.capabilities.redpanda.None?
    case CapabilityUnset(capability) => SwitchOf(raw, capability).0.None?
    case Contradiction(capability) =>
      var (enabled, section) := SwitchOf(raw, capability);
      enabled == Some(!section)
    case TelemetryOn => raw.capabilities.telemetry == Some(true)
    case RedpandaOn => raw.capabilities.redpanda == Some(true)
    case NoTime => raw.time.None?
    case ProbeInProduction => raw.environment == Production && raw.capabilities.architectureProbe == Some(true)
    case PostgresNeedsSecrets => raw.postgres.Some? && raw.secrets.None?
    case LocalKmsNeedsSecrets => raw.kms.Some? && raw.secrets.None? && !managed
    case CheckTimeout => raw.checkTimeout.None? || raw.checkTimeout.value <= 0
    case ProbeInterval => raw.probeInterval.None? || raw.probeInterval.value <= 0
    case BadSecrets =>
      raw.secrets.Some? && raw.secrets.value != Section(if managed then Infisical else FileSecrets, true)
    case BadDatabase => raw.postgres.Some? && !raw.postgres.value.fieldsPass
    case BadStorage =>
      raw.objectStorage.Some? && raw.objectStorage.value != Section(if managed then S3 else Filesystem, true)
    case BadCrypto => raw.kms.Some? && raw.kms.value != Section(if managed then AwsKms else LocalKeys, true)
    case BadTime => raw.time.Some? && raw.time.value != Section(if managed then Linux else System, true)
  }

  /** A capability's switch, and whether its section is there. */
  function SwitchOf(raw: FileConfig, capability: Capability): (Option<bool>, bool) {
    match capability
    case Postgres => (raw.capabilities.postgres, raw.postgres.Some?)
    case Secrets => (raw.capabilities.secrets, raw.secrets.Some?)
    case Kms => (raw.capabilities.kms, raw.kms.Some?)
    case ObjectStorage => (raw.capabilities.objectStorage, raw.objectStorage.Some?)
  }

  /** The order the rules are tested in. */
  function Turn(r: Refusal): nat {
    match r
    case SchemaVersion => 0
    case Revision => 1
    case UnknownEnvironment => 2
    case UnknownMode => 3
    case MustBeManaged => 4
    case CellID => 5
    case Region => 6
    case UnknownRole => 7
    case CapabilitiesUnset => 8
    case CapabilityUnset(capability) => 10 + 2 * Index(capability)
    case Contradiction(capability) => 11 + 2 * Index(capability)
    case TelemetryOn => 20
    case RedpandaOn => 21
    case NoTime => 22
    case ProbeInProduction => 23
    case PostgresNeedsSecrets => 24
    case LocalKmsNeedsSecrets => 25
    case CheckTimeout => 26
    case ProbeInterval => 27
    case BadSecrets => 28
    case BadDatabase => 29
    case BadStorage => 30
    case BadCrypto => 31
    case BadTime => 32
  }

  function Index(capability: Capability): (n: nat)
    ensures n < 4
  {
    match capability
    case Postgres => 0
    case Secrets => 1
    case Kms => 2
    case ObjectStorage => 3
  }

  /** This rule is broken, and none tested before it is. */
  ghost predicate FirstBroken(raw: FileConfig, r: Refusal) {
    Breaks(raw, r) && forall earlier :: Breaks(raw, earlier) ==> Turn(r) <= Turn(earlier)
  }

  lemma OneFirst(raw: FileConfig, r1: Refusal, r2: Refusal)
    requires FirstBroken(raw, r1) && FirstBroken(raw, r2)
    ensures r1 == r2
  {
    hide Breaks;
    assert Turn(r1) == Turn(r2);
  }

  lemma OneSwitch(head: Switch, rest: seq<Switch>)
    ensures BadSwitch([head] + rest) ==
              if head.enabled.None? then Some(CapabilityUnset(head.capability))
              else if head.enabled.value != head.section then Some(Contradiction(head.capability))
              else BadSwitch(rest)
  {
    assert ([head] + rest)[1..] == rest;
  }

  lemma FourSwitches(raw: FileConfig)
    ensures var s, bad := Switches(raw), BadSwitch(Switches(raw));
            if s[0].enabled.None? then bad == Some(CapabilityUnset(Postgres))
            else if s[0].enabled.value != s[0].section then bad == Some(Contradiction(Postgres))
            else if s[1].enabled.None? then bad == Some(CapabilityUnset(Secrets))
            else if s[1].enabled.value != s[1].section then bad == Some(Contradiction(Secrets))
            else if s[2].enabled.None? then bad == Some(CapabilityUnset(Kms))
            else if s[2].enabled.value != s[2].section then bad == Some(Contradiction(Kms))
            else if s[3].enabled.None? then bad == Some(CapabilityUnset(ObjectStorage))
            else if s[3].enabled.value != s[3].section then bad == Some(Contradiction(ObjectStorage))
            else bad == None
  {
    var s := Switches(raw);
    OneSwitch(s[0], [s[1], s[2], s[3]]);
    OneSwitch(s[1], [s[2], s[3]]);
    OneSwitch(s[2], [s[3]]);
    OneSwitch(s[3], []);
    assert s == [s[0]] + [s[1], s[2], s[3]] && [s[1], s[2], s[3]] == [s[1]] + [s[2], s[3]];
    assert [s[2], s[3]] == [s[2]] + [s[3]] && [s[3]] == [s[3]] + [];
    assert BadSwitch([]) == None;
  }

  predicate AboutSwitch(r: Refusal) {
    r.CapabilityUnset? || r.Contradiction?
  }

  lemma BadSwitchIsFirst(raw: FileConfig, r: Refusal)
    requires AboutSwitch(r)
    ensures var bad := BadSwitch(Switches(raw));
            && (bad.Some? ==> AboutSwitch(bad.value) && Breaks(raw, bad.value))
            && (Breaks(raw, r) ==> bad.Some? && Turn(bad.value) <= Turn(r))
  {
    FourSwitches(raw);
    hide BadSwitch;
  }

  lemma GuardRefusal(raw: FileConfig, r: Refusal)
    requires BeforeCapabilities(raw)
    ensures Parse(raw).Err?
    ensures Breaks(raw, Parse(raw).error) && (Breaks(raw, r) ==> Turn(Parse(raw).error) <= Turn(r))
  {
    hide ParseCapabilities, ParseSections;
  }

  lemma CapabilityRefusal(raw: FileConfig, r: Refusal)
    requires !BeforeCapabilities(raw) && ParseCapabilities(raw).Err?
    ensures Parse(raw).Err?
    ensures Breaks(raw, Parse(raw).error) && (Breaks(raw, r) ==> Turn(Parse(raw).error) <= Turn(r))
  {
    BadSwitchIsFirst(raw, CapabilityUnset(Postgres));
    if AboutSwitch(r) { BadSwitchIsFirst(raw, r); }
    hide BadSwitch, Switches, ParseSections;
  }

  /** One of the rules tested before the capabilities is broken. */
  predicate BeforeCapabilities(raw: FileConfig) {
    || raw.schemaVersion != 1 || !raw.revisionMatches || raw.environment.OtherEnvironment? || raw.mode.OtherMode?
    || (!raw.environment.Development? && !raw.mode.Managed?) || !raw.cellMatches || !raw.regionMatches
    || raw.role.OtherRole?
  }

  lemma CapabilitiesHold(raw: FileConfig, r: Refusal)
    requires !BeforeCapabilities(raw) && ParseCapabilities(raw).Ok?
    ensures Turn(r) <= 22 ==> !Breaks(raw, r)
    ensures Parse(raw) == ParseSections(raw, ParseCapabilities(raw).value)
    ensures SwitchesAgree(raw)
    ensures raw.capabilities.architectureProbe == Some(ParseCapabilities(raw).value.architectureProbe)
  {
    NoBadSwitch(raw);
    hide BadSwitch, Switches, ParseSections;
  }

  lemma SectionsRefusal(raw: FileConfig, c: Capabilities, r: Refusal)
    requires Agrees(raw, c) && ParseSections(raw, c).Err?
    requires raw.capabilities.architectureProbe == Some(c.architectureProbe)
    ensures var e := ParseSections(raw, c).error;
            Breaks(raw, e) && Turn(e) >= 23 && (Breaks(raw, r) && Turn(r) >= 23 ==> Turn(e) <= Turn(r))
  {
  }

  lemma LateRefusal(raw: FileConfig, r: Refusal)
    requires Parse(raw).Err? && !BeforeCapabilities(raw) && ParseCapabilities(raw).Ok?
    ensures Breaks(raw, Parse(raw).error) && (Breaks(raw, r) ==> Turn(Parse(raw).error) <= Turn(r))
  {
    CapabilitiesHold(raw, r);
    SectionsRefusal(raw, ParseCapabilities(raw).value, r);
    hide Parse, ParseCapabilities, ParseSections, Breaks, Turn;
  }

  lemma RefusalIsFirst(raw: FileConfig)
    requires Parse(raw).Err?
    ensures FirstBroken(raw, Parse(raw).error)
  {
    hide Parse, ParseCapabilities, BeforeCapabilities, Breaks, Turn;
    forall r: Refusal
      ensures Breaks(raw, Parse(raw).error) && (Breaks(raw, r) ==> Turn(Parse(raw).error) <= Turn(r))
    {
      if BeforeCapabilities(raw) { GuardRefusal(raw, r); }
      else if ParseCapabilities(raw).Err? { CapabilityRefusal(raw, r); }
      else { LateRefusal(raw, r); }
    }
    assert Breaks(raw, Parse(raw).error);
  }

  /** A file is refused for the first rule it breaks, and for no other. */
  lemma RefusedForIff(raw: FileConfig, r: Refusal)
    ensures Parse(raw) == Err(r) <==> FirstBroken(raw, r)
  {
    hide Parse, FirstBroken;
    if Parse(raw).Err? {
      RefusalIsFirst(raw);
      if FirstBroken(raw, r) { OneFirst(raw, r, Parse(raw).error); }
    } else {
      AcceptedBreaksNothing(raw, r);
    }
  }

  lemma AcceptedBreaksNothing(raw: FileConfig, r: Refusal)
    requires Parse(raw).Ok?
    ensures !FirstBroken(raw, r)
  {
    NoBadSwitch(raw);
  }
}

/** `Build` and its callers: dependencies opened in order, each with its own way to fail, and one
    resource to give back. */
module BootstrapBuild {
  import opened Options
  import opened BootstrapConfig

  /** Everything that can fail while the dependencies are built and checked. */
  datatype Act =
    | HealthAtStart | OpenSource | ResolvePassword | ConfigurePool | Connect | CheckAtOpen
    | OpenStorage | ResolveKey | OpenCrypto
    | Health | CheckDatabase | CheckClock | CheckStorage | CheckCrypto

  /** Which of them succeed. */
  type Luck = Act -> bool

  /** Every pool ever opened. */
  class Ledger {
    ghost var pools: set<Pool>

    constructor ()
      ensures pools == {}
    {
      pools := {};
    }
  }

  class Pool {
    var closes: nat

    /** No pool is opened behind the ledger's back. */
    constructor (ledger: Ledger)
      modifies ledger
      ensures closes == 0 && ledger.pools == old(ledger.pools) + {this}
    {
      closes := 0;
      new;
      ledger.pools := ledger.pools + {this};
    }

    method Close()
      modifies this
      ensures closes == old(closes) + 1
    {
      closes := closes + 1;
    }
  }

  datatype Source = Source(provider: SecretsProvider)

  datatype Dependencies = Dependencies(
    database: Option<Pool>, storage: Option<StorageProvider>, crypto: Option<CryptoProvider>)

  // ---- what has to succeed ----

  function When(on: bool, acts: seq<Act>): seq<Act> {
    if on then acts else []
  }

  /** The acts a configuration asks for, in order. */
  function OpenActs(config: Config): seq<Act> {
    var c := config.capabilities;
    [HealthAtStart] + When(c.secrets, [OpenSource])
    + When(c.postgres, [ResolvePassword, ConfigurePool, Connect, CheckAtOpen])
    + When(c.objectStorage, [OpenStorage])
    + When(c.kms, When(config.crypto == Some(LocalKeys), [ResolveKey]) + [OpenCrypto])
  }

  function CheckActs(postgres: bool, objectStorage: bool, kms: bool): seq<Act> {
    [Health] + When(postgres, [CheckDatabase, CheckClock]) + When(objectStorage, [CheckStorage])
    + When(kms, [CheckCrypto])
  }

  function AllActs(config: Config): seq<Act> {
    var c := config.capabilities;
    OpenActs(config) + CheckActs(c.postgres, c.objectStorage, c.kms)
  }

  /** The first act that fails. */
  function FirstFailure(acts: seq<Act>, luck: Luck): (failure: Option<Act>)
    ensures failure.None? <==> forall a :: a in acts ==> luck(a)
  {
    if acts == [] then None else if luck(acts[0]) then FirstFailure(acts[1..], luck) else Some(acts[0])
  }

  lemma {:induction false} FailureOfBoth(a: seq<Act>, b: seq<Act>, luck: Luck)
    ensures FirstFailure(a + b, luck) ==
              if FirstFailure(a, luck).Some? then FirstFailure(a, luck) else FirstFailure(b, luck)
  {
    if a == [] {
      assert a + b == b;
    } else {
      assert (a + b)[1..] == a[1..] + b;
      FailureOfBoth(a[1..], b, luck);
    }
  }

  // ---- the steps ----

  const DATABASE_ACTS := [ResolvePassword, ConfigurePool, Connect, CheckAtOpen]

  /** The password comes from the secret source. A pool that fails its first check is closed. */
  method OpenDatabase(section: DatabaseSection, source: Source, luck: Luck, ledger: Ledger)
    returns (r: Result<Pool, Act>)
    modifies ledger
    ensures FirstFailure(DATABASE_ACTS, luck) == if r.Ok? then None else Some(r.error)
    ensures old(ledger.pools) <= ledger.pools && fresh(ledger.pools - old(ledger.pools))
    ensures ledger.pools != old(ledger.pools) <==> luck(ResolvePassword) && luck(ConfigurePool) && luck(Connect)
    ensures r.Ok? ==> ledger.pools - old(ledger.pools) == {r.value} && r.value.closes == 0
    ensures r.Err? ==> AllClosed(ledger.pools - old(ledger.pools))
  {
    if !luck(ResolvePassword) { return Err(ResolvePassword); }
    if !luck(ConfigurePool) { return Err(ConfigurePool); }
    if !luck(Connect) { return Err(Connect); }
    var pool := new Pool(ledger);
    if !luck(CheckAtOpen) {
      pool.Close();
      return Err(CheckAtOpen);
    }
    return Ok(pool);
  }

  ghost predicate AllClosed(pools: set<Pool>)
    reads pools
  {
    forall p :: p in pools ==> p.closes == 1
  }

  function CryptoActs(provider: CryptoProvider): seq<Act> {
    When(provider.LocalKeys?, [ResolveKey]) + [OpenCrypto]
  }

  /** Local keys come from the secret source, which has to be there. */
  method BuildCrypto(provider: CryptoProvider, resolver: Option<Source>, luck: Luck) returns (failure: Option<Act>)
    requires provider.LocalKeys? ==> resolver.Some?
    ensures failure == FirstFailure(CryptoActs(provider), luck)
  {
    if provider.LocalKeys? {
      var source := resolver.value;
      if !luck(ResolveKey) { return Some(ResolveKey); }
    }
    if !luck(OpenCrypto) { return Some(OpenCrypto); }
    return None;
  }

  method Check(d: Dependencies, luck: Luck) returns (failure: Option<Act>)
    ensures failure == FirstFailure(CheckActs(d.database.Some?, d.storage.Some?, d.crypto.Some?), luck)
  {
    CheckOrder(d.database.Some?, d.storage.Some?, d.crypto.Some?, luck);
    if !luck(Health) { return Some(Health); }
    if d.database.Some? {
      if !luck(CheckDatabase) { return Some(CheckDatabase); }
      if !luck(CheckClock) { return Some(CheckClock); }
    }
    if d.storage.Some? {
      if !luck(CheckStorage) { return Some(CheckStorage); }
    }
    if d.crypto.Some? {
      if !luck(CheckCrypto) { return Some(CheckCrypto); }
    }
    return None;
  }

  lemma CheckOrder(postgres: bool, objectStorage: bool, kms: bool, luck: Luck)
    ensures FirstFailure(CheckActs(postgres, objectStorage, kms), luck)
         == if !luck(Health) then Some(Health)
            else if postgres && !luck(CheckDatabase) then Some(CheckDatabase)
            else if postgres && !luck(CheckClock) then Some(CheckClock)
            else if objectStorage && !luck(CheckStorage) then Some(CheckStorage)
            else if kms && !luck(CheckCrypto) then Some(CheckCrypto)
            else None
  {
    var a, b := [Health], When(postgres, [CheckDatabase, CheckClock]);
    var c, d := When(objectStorage, [CheckStorage]), When(kms, [CheckCrypto]);
    FailureOfBoth(a + b + c, d, luck);
    FailureOfBoth(a + b, c, luck);
    FailureOfBoth(a, b, luck);
  }

  function FirstActFailure(config: Config, luck: Luck): Option<Act>
    requires config.capabilities.kms ==> config.crypto.Some?
  {
    var c := config.capabilities;
    if !luck(HealthAtStart) then Some(HealthAtStart)
    else if c.secrets && !luck(OpenSource) then Some(OpenSource)
    else FirstSourceFailure(config, luck)
  }

  function FirstSourceFailure(config: Config, luck: Luck): Option<Act>
    requires config.capabilities.kms ==> config.crypto.Some?
  {
    if config.capabilities.postgres && FirstFailure(DATABASE_ACTS, luck).Some? then FirstFailure(DATABASE_ACTS, luck)
    else FirstLateFailure(config, luck)
  }

  function FirstLateFailure(config: Config, luck: Luck): Option<Act>
    requires config.capabilities.kms ==> config.crypto.Some?
  {
    var c := config.capabilities;
    if c.objectStorage && !luck(OpenStorage) then Some(OpenStorage)
    else if c.kms && FirstFailure(CryptoActs(config.crypto.value), luck).Some?
    then FirstFailure(CryptoActs(config.crypto.value), luck)
    else FirstFailure(CheckActs(c.postgres, c.objectStorage, c.kms), luck)
  }

  lemma ActsInOrder(config: Config, luck: Luck)
    requires config.capabilities.kms ==> config.crypto.Some?
    ensures FirstFailure(AllActs(config), luck) == FirstActFailure(config, luck)
  {
    var c := config.capabilities;
    var s1, s2, s3 := [HealthAtStart], When(c.secrets, [OpenSource]), When(c.postgres, DATABASE_ACTS);
    var s4 := When(c.objectStorage, [OpenStorage]);
    var s5 := When(c.kms, When(config.crypto == Some(LocalKeys), [ResolveKey]) + [OpenCrypto]);
    var s6 := CheckActs(c.postgres, c.objectStorage, c.kms);
    assert AllActs(config) == s1 + s2 + s3 + s4 + s5 + s6;
    SingleAct(true, HealthAtStart, luck);
    SingleAct(c.secrets, OpenSource, luck);
    SingleAct(c.objectStorage, OpenStorage, luck);
    assert c.kms ==> s5 == CryptoActs(config.crypto.value);
    NoAct(luck);
    hide FirstFailure, AllActs, CheckActs, CryptoActs;
    FailureOfBoth(s1 + s2 + s3 + s4 + s5, s6, luck);
    FailureOfBoth(s1 + s2 + s3 + s4, s5, luck);
    FailureOfBoth(s1 + s2 + s3, s4, luck);
    FailureOfBoth(s1 + s2, s3, luck);
    FailureOfBoth(s1, s2, luck);
  }

  /** What a configuration asks for. */
  ghost predicate Asked(config: Config, a: Act) {
    var c := config.capabilities;
    match a
    case OpenSource => c.secrets
    case ResolvePassword => c.postgres
    case ConfigurePool => c.postgres
    case Connect => c.postgres
    case CheckAtOpen => c.postgres
    case OpenStorage => c.objectStorage
    case ResolveKey => c.kms && config.crypto == Some(LocalKeys)
    case OpenCrypto => c.kms
    case CheckDatabase => c.postgres
    case CheckClock => c.postgres
    case CheckStorage => c.objectStorage
    case CheckCrypto => c.kms
    case _ => true
  }

  /** When it is done. */
  function Moment(a: Act): nat {
    match a
    case HealthAtStart => 0
    case OpenSource => 1
    case ResolvePassword => 2
    case ConfigurePool => 3
    case Connect => 4
    case CheckAtOpen => 5
    case OpenStorage => 6
    case ResolveKey => 7
    case OpenCrypto => 8
    case Health => 9
    case CheckDatabase => 10
    case CheckClock => 11
    case CheckStorage => 12
    case CheckCrypto => 13
  }

  lemma DatabaseOrder(luck: Luck)
    ensures FirstFailure(DATABASE_ACTS, luck)
         == if !luck(ResolvePassword) then Some(ResolvePassword)
            else if !luck(ConfigurePool) then Some(ConfigurePool)
            else if !luck(Connect) then Some(Connect)
            else if !luck(CheckAtOpen) then Some(CheckAtOpen)
            else None
  {
    var a, b, c, d := [ResolvePassword], [ConfigurePool], [Connect], [CheckAtOpen];
    assert DATABASE_ACTS == a + b + c + d;
    FailureOfBoth(a + b + c, d, luck);
    FailureOfBoth(a + b, c, luck);
    FailureOfBoth(a, b, luck);
  }

  lemma CryptoOrder(provider: CryptoProvider, luck: Luck)
    ensures FirstFailure(CryptoActs(provider), luck)
         == if provider.LocalKeys? && !luck(ResolveKey) then Some(ResolveKey)
            else if !luck(OpenCrypto) then Some(OpenCrypto)
            else None
  {
    FailureOfBoth(When(provider.LocalKeys?, [ResolveKey]), [OpenCrypto], luck);
  }

  /** This act is asked for and fails, and no act asked for before it does. */
  ghost predicate FailsFirst(config: Config, luck: Luck, a: Act) {
    Asked(config, a) && !luck(a) && forall e :: Asked(config, e) && Moment(e) < Moment(a) ==> luck(e)
  }

  /** What a failure says of one act that is done between two moments. */
  ghost predicate Fits(config: Config, luck: Luck, low: nat, high: nat, failure: Option<Act>, e: Act) {
    if failure.None? then Asked(config, e) && low <= Moment(e) < high ==> luck(e)
    else
      && Asked(config, failure.value) && !luck(failure.value) && low <= Moment(failure.value) < high
      && (Asked(config, e) && low <= Moment(e) < Moment(failure.value) ==> luck(e))
  }

  lemma Compose(config: Config, luck: Luck, low: nat, mid: nat, high: nat,
                first: Option<Act>, second: Option<Act>, e: Act)
    requires low <= mid <= high && Fits(config, luck, low, mid, first, e) && Fits(config, luck, mid, high, second, e)
    ensures Fits(config, luck, low, high, if first.Some? then first else second, e)
  {
    hide Asked, Moment;
  }

  lemma OneFits(config: Config, luck: Luck, a: Act, e: Act)
    ensures Fits(config, luck, Moment(a), Moment(a) + 1, if Asked(config, a) && !luck(a) then Some(a) else None, e)
  {
    hide Asked;
    assert Moment(e) == Moment(a) ==> e == a;
  }

  lemma DatabaseFits(config: Config, luck: Luck, e: Act)
    ensures Fits(config, luck, 2, 6,
                 if config.capabilities.postgres then FirstFailure(DATABASE_ACTS, luck) else None, e)
  {
    DatabaseOrder(luck);
    hide FirstFailure;
  }

  lemma CryptoFits(config: Config, luck: Luck, e: Act)
    requires config.capabilities.kms ==> config.crypto.Some?
    ensures Fits(config, luck, 7, 9,
                 if config.capabilities.kms then FirstFailure(CryptoActs(config.crypto.value), luck) else None, e)
  {
    if config.capabilities.kms { CryptoOrder(config.crypto.value, luck); }
    hide FirstFailure, CryptoActs;
  }

  lemma ChecksFit(config: Config, luck: Luck, e: Act)
    ensures var c := config.capabilities;
            Fits(config, luck, 9, 14, FirstFailure(CheckActs(c.postgres, c.objectStorage, c.kms), luck), e)
  {
    var c := config.capabilities;
    CheckOrder(c.postgres, c.objectStorage, c.kms, luck);
    hide FirstFailure, CheckActs;
  }

  lemma FirstFits(config: Config, luck: Luck, e: Act)
    requires config.capabilities.kms ==> config.crypto.Some?
    ensures Fits(config, luck, 0, 14, FirstActFailure(config, luck), e)
  {
    var c := config.capabilities;
    OneFits(config, luck, HealthAtStart, e);
    OneFits(config, luck, OpenSource, e);
    DatabaseFits(config, luck, e);
    OneFits(config, luck, OpenStorage, e);
    CryptoFits(config, luck, e);
    ChecksFit(config, luck, e);
    hide Fits, FirstFailure, CheckActs, CryptoActs;
    var start := if !luck(HealthAtStart) then Some(HealthAtStart) else None;
    var source := if c.secrets && !luck(OpenSource) then Some(OpenSource) else None;
    var database := if c.postgres then FirstFailure(DATABASE_ACTS, luck) else None;
    var storage := if c.objectStorage && !luck(OpenStorage) then Some(OpenStorage) else None;
    var crypto := if c.kms then FirstFailure(CryptoActs(config.crypto.value), luck) else None;
    var checks := FirstFailure(CheckActs(c.postgres, c.objectStorage, c.kms), luck);
    Compose(config, luck, 7, 9, 14, crypto, checks, e);
    Compose(config, luck, 6, 7, 14, storage, if crypto.Some? then crypto else checks, e);
    Compose(config, luck, 2, 6, 14, database, FirstLateFailure(config, luck), e);
    Compose(config, luck, 1, 2, 14, source, FirstSourceFailure(config, luck), e);
    Compose(config, luck, 0, 1, 14, start, if source.Some? then source else FirstSourceFailure(config, luck), e);
  }

  lemma OneFailsFirst(config: Config, luck: Luck, a: Act, e: Act)
    requires FailsFirst(config, luck, a) && FailsFirst(config, luck, e)
    ensures a == e
  {
    hide Asked;
    assert Moment(a) == Moment(e);
  }

  lemma FirstFails(config: Config, luck: Luck, failure: Act)
    requires config.capabilities.kms ==> config.crypto.Some?
    requires FirstActFailure(config, luck) == Some(failure)
    ensures FailsFirst(config, luck, failure)
  {
    FirstFits(config, luck, failure);
    hide FirstActFailure;
    forall e | Asked(config, e) && Moment(e) < Moment(failure) ensures luck(e) { FirstFits(config, luck, e); }
  }

  /** The failure that is reported is that of the first act asked for that fails; nothing is reported
      exactly when everything asked for succeeds. */
  lemma FailureIff(config: Config, luck: Luck, a: Act)
    requires config.capabilities.kms ==> config.crypto.Some?
    ensures FirstFailure(AllActs(config), luck) == Some(a) <==> FailsFirst(config, luck, a)
    ensures FirstFailure(AllActs(config), luck) == None <==> forall e :: Asked(config, e) ==> luck(e)
  {
    hide FirstFailure, AllActs, FirstActFailure, Asked, Moment, FailsFirst;
    ActsInOrder(config, luck);
    var failure := FirstActFailure(config, luck);
    if failure.Some? {
      FirstFails(config, luck, failure.value);
      if FailsFirst(config, luck, a) { OneFailsFirst(config, luck, a, failure.value); }
      FailedIsAsked(config, luck, failure.value);
    } else {
      NothingFails(config, luck);
      if FailsFirst(config, luck, a) { FailedIsAsked(config, luck, a); }
    }
  }

  lemma FailedIsAsked(config: Config, luck: Luck, a: Act)
    requires FailsFirst(config, luck, a)
    ensures Asked(config, a) && !luck(a)
  {
  }

  lemma NothingFails(config: Config, luck: Luck)
    requires config.capabilities.kms ==> config.crypto.Some?
    requires FirstActFailure(config, luck).None?
    ensures forall e :: Asked(config, e) ==> luck(e)
  {
    hide FirstActFailure;
    forall e | Asked(config, e) ensures luck(e) { FirstFits(config, luck, e); }
  }

  lemma NoAct(luck: Luck)
    ensures FirstFailure([], luck) == None
  {
  }

  lemma SingleAct(on: bool, act: Act, luck: Luck)
    ensures FirstFailure(When(on, [act]), luck) == if on && !luck(act) then Some(act) else None
  {
  }

  /** A configuration `Parse` has accepted. */
  ghost predicate Parsed(config: Config) {
    exists raw :: Parse(raw) == Ok(config)
  }

  lemma ParsedIsSound(config: Config)
    requires Parsed(config)
    ensures Sound(config)
  {
    var raw :| Parse(raw) == Ok(config);
    ParseIsSound(raw);
  }

  /** The pools a set of dependencies holds. */
  function Held(d: Dependencies): set<Pool> {
    if d.database.Some? then {d.database.value} else {}
  }

  /** What `Build` does once the database is there or not asked for: on a failure the pool, if any, is
      closed. */
  method Finish(config: Config, database: Option<Pool>, resolver: Option<Source>, luck: Luck)
    returns (r: Result<Dependencies, Act>)
    requires Sound(config) && (database.Some? <==> config.capabilities.postgres)
    requires config.capabilities.secrets ==> resolver.Some?
    modifies Held(Dependencies(database, None, None))
    ensures FirstLateFailure(config, luck) == if r.Ok? then None else Some(r.error)
    ensures r.Ok? ==> r.value == Dependencies(database, config.storage, config.crypto)
    ensures database.Some? ==> database.value.closes == old(database.value.closes) + if r.Ok? then 0 else 1
  {
    hide FirstFailure, CheckActs, CryptoActs;
    var failure: Option<Act> := None;
    if config.capabilities.objectStorage && !luck(OpenStorage) { failure := Some(OpenStorage); }
    if failure.None? && config.capabilities.kms {
      failure := BuildCrypto(config.crypto.value, resolver, luck);
    }
    var d := Dependencies(database, config.storage, config.crypto);
    if failure.None? {
      failure := Check(d, luck);
    }
    if failure.Some? {
      if database.Some? { database.value.Close(); }
      return Err(failure.value);
    }
    return Ok(d);
  }

  /** A pool is opened: nothing before that fails. */
  predicate Connects(config: Config, luck: Luck) {
    config.capabilities.postgres && luck(HealthAtStart) && luck(OpenSource)
    && luck(ResolvePassword) && luck(ConfigurePool) && luck(Connect)
  }

  /** The dependencies are those asked for, and their pools are all that was opened, none closed. */
  ghost predicate AsAsked(d: Dependencies, config: Config, pools: set<Pool>)
    reads pools
  {
    && (d.database.Some? <==> config.capabilities.postgres)
    && d.storage == config.storage && (d.storage.Some? <==> config.capabilities.objectStorage)
    && d.crypto == config.crypto && (d.crypto.Some? <==> config.capabilities.kms)
    && pools == Held(d) && forall p :: p in pools ==> p.closes == 0
  }

  /** What `Build` does from the database on. */
  method WithSource(config: Config, resolver: Option<Source>, luck: Luck, ledger: Ledger)
    returns (r: Result<Dependencies, Act>)
    requires Sound(config) && (config.capabilities.secrets ==> resolver.Some?)
    modifies ledger
    ensures FirstSourceFailure(config, luck) == if r.Ok? then None else Some(r.error)
    ensures old(ledger.pools) <= ledger.pools && fresh(ledger.pools - old(ledger.pools))
    ensures ledger.pools != old(ledger.pools) <==>
              config.capabilities.postgres && luck(ResolvePassword) && luck(ConfigurePool) && luck(Connect)
    ensures if r.Ok? then AsAsked(r.value, config, ledger.pools - old(ledger.pools))
            else AllClosed(ledger.pools - old(ledger.pools))
  {
    hide FirstFailure, FirstLateFailure;
    if config.capabilities.postgres {
      var db := OpenDatabase(config.database.value, resolver.value, luck, ledger);
      if db.Err? { return Err(db.error); }
      r := Finish(config, Some(db.value), resolver, luck);
    } else {
      r := Finish(config, None, resolver, luck);
    }
  }

  /** Either everything asked for is there, open and checked, or the first failure is reported and
      every pool that was opened is closed, once. */
  method Build(config: Config, luck: Luck, ledger: Ledger) returns (r: Result<Dependencies, Act>)
    requires Parsed(config)
    modifies ledger
    ensures FirstFailure(AllActs(config), luck) == if r.Ok? then None else Some(r.error)
    ensures old(ledger.pools) <= ledger.pools && fresh(ledger.pools - old(ledger.pools))
    ensures ledger.pools != old(ledger.pools) <==> Connects(config, luck)
    ensures if r.Ok? then AsAsked(r.value, config, ledger.pools - old(ledger.pools))
            else AllClosed(ledger.pools - old(ledger.pools))
  {
    ParsedIsSound(config);
    ActsInOrder(config, luck);
    hide Parsed, FirstFailure, AllActs, FirstSourceFailure, AsAsked, AllClosed;
    if !luck(HealthAtStart) { return Err(HealthAtStart); }
    var resolver: Option<Source> := None;
    if config.capabilities.secrets {
      if !luck(OpenSource) { return Err(OpenSource); }
      resolver := Some(Source(config.secrets.value));
    }
    r := WithSource(config, resolver, luck, ledger);
  }

  method Close(d: Dependencies)
    modifies Held(d)
    ensures forall p :: p in Held(d) ==> p.closes == old(p.closes) + 1
  {
    if d.database.Some? { d.database.value.Close(); }
  }

  /** Whatever happens, every pool that was opened ends closed, once. */
  method Preflight(config: Config, luck: Luck, ledger: Ledger) returns (failure: Option<Act>)
    requires Parsed(config)
    modifies ledger
    ensures failure == FirstFailure(AllActs(config), luck)
    ensures old(ledger.pools) <= ledger.pools && fresh(ledger.pools - old(ledger.pools))
    ensures AllClosed(ledger.pools - old(ledger.pools))
    ensures ledger.pools != old(ledger.pools) <==> Connects(config, luck)
  {
    var r := Build(config, luck, ledger);
    if r.Err? { return Some(r.error); }
    Close(r.value);
    return None;
  }

  /** Serving may end any way it likes; the dependencies are open until it does. */
  method Serve(d: Dependencies, outcome: bool) returns (ok: bool)
    requires forall p :: p in Held(d) ==> p.closes == 0
    ensures ok == outcome
  {
    ok := outcome;
  }

  method BootstrapAndServe(config: Config, luck: Luck, outcome: bool, ledger: Ledger) returns (ok: bool)
    requires Parsed(config)
    modifies ledger
    ensures ok <==> FirstFailure(AllActs(config), luck).None? && outcome
    ensures old(ledger.pools) <= ledger.pools && fresh(ledger.pools - old(ledger.pools))
    ensures AllClosed(ledger.pools - old(ledger.pools))
    ensures ledger.pools != old(ledger.pools) <==> Connects(config, luck)
  {
    var r := Build(config, luck, ledger);
    if r.Err? { return false; }
    ok := Serve(r.value, outcome);
    Close(r.value);
  }

  // ---- why the guards are needed ----

  /** An act that calls the secret source, before any that opens it. */
  ghost predicate UsesNilSource(acts: seq<Act>) {
    exists i :: 0 <= i < |acts| && (acts[i].ResolvePassword? || acts[i].ResolveKey?) && OpenSource !in acts[..i]
  }

  /** The acts of a configuration would call a secret source that is not there exactly when a guard of
      `Parse` about secrets is broken. */
  lemma GuardsAreExact(config: Config)
    requires config.capabilities.kms <==> config.crypto.Some?
    ensures var c := config.capabilities;
            UsesNilSource(OpenActs(config)) <==> !c.secrets && (c.postgres || config.crypto == Some(LocalKeys))
  {
    var c, acts := config.capabilities, OpenActs(config);
    if c.secrets {
      assert acts[1] == OpenSource;
      forall i | 0 <= i < |acts| && (acts[i].ResolvePassword? || acts[i].ResolveKey?) ensures OpenSource in acts[..i] {
        assert i > 1;
        assert acts[..i][1] == OpenSource;
      }
    } else {
      assert OpenSource !in acts;
      if c.postgres {
        assert acts[1] == ResolvePassword;
      } else if config.crypto == Some(LocalKeys) {
        var i := if c.objectStorage then 2 else 1;
        assert acts[i] == ResolveKey;
      }
    }
  }
}
