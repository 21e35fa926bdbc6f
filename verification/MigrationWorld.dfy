/** Any number of migrators, with any catalogues and windows, sharing one server: one event is one
    statement of one run, a new session, or the end of a session at any point. */
module MigrationWorld {
  import opened Options
  import opened SchemaState
  import opened Catalogues
  import opened MigrationSteps

  datatype Run = Run(binary: Binary, pc: Pc)

  /** A clean row written, and by which binary. */
  datatype Final = Final(binary: Binary, version: int)

  /** `finals` is the history of clean rows written; the server does not store it. */
  datatype World = World(server: Server, runs: map<Session, Run>, finals: seq<Final>)

  datatype Event =
    | Start(p: Session, binary: Binary)
    | Statement(p: Session, luck: Luck)
    | SessionEnds(p: Session)

  const INITIAL := World(Server(None, 0, Missing), map[], [])

  ghost predicate Enabled(w: World, e: Event) {
    match e
    case Start(p, b) => p !in w.runs && ValidBinary(b)
    case Statement(p, _) => p in w.runs && !Over(w.runs[p].pc)
    case SessionEnds(p) => p in w.runs
  }

  function Step(w: World, e: Event): World {
    match e
    case Start(p, b) => w.(runs := w.runs[p := Run(b, TryLock)])
    case Statement(p, luck) =>
      if p !in w.runs then w
      else
        var Run(b, pc) := w.runs[p];
        var (server, next) := Advance(b, p, pc, w.server, luck);
        World(server, w.runs[p := Run(b, next)],
              if Finalizes(pc, w.server, luck) then w.finals + [Final(b, pc.version)] else w.finals)
    case SessionEnds(p) =>
      if p !in w.runs then w
      else w.(server := if w.server.lock == Some(p) then w.server.(lock := None) else w.server,
              runs := w.runs[p := w.runs[p].(pc := Crashed)])
  }

  ghost predicate Legal(w: World, events: seq<Event>)
    decreases |events|
  {
    events == [] || (Enabled(w, events[0]) && Legal(Step(w, events[0]), events[1..]))
  }

  function After(w: World, events: seq<Event>): World
    decreases |events|
  {
    if events == [] then w else After(Step(w, events[0]), events[1..])
  }

  // ---- the invariant ----

  function LastFinal(finals: seq<Final>): int {
    if finals == [] then 0 else finals[|finals| - 1].version
  }

  function LastVersion(c: seq<Migration>): int {
    if c == [] then 0 else c[|c| - 1].version
  }

  /** Each clean row written is inside its writer's window, is the last version of its catalogue,
      and is above the one before it. */
  ghost predicate FinalsInOrder(finals: seq<Final>) {
    && (forall i :: 0 <= i < |finals| ==>
          var f := finals[i];
          && ValidBinary(f.binary)
          && f.binary.window.minimum <= f.version <= f.binary.window.maximum
          && f.version == LastVersion(f.binary.catalogue))
    && (forall i, j :: 0 <= i < j < |finals| ==> finals[i].version < finals[j].version)
  }

  /** The shared facts: a clean row at a positive version is goose's version, and the row's version
      is always the last one finalised. */
  ghost predicate Settled(s: Server, finals: seq<Final>) {
    && 0 <= LastFinal(finals) <= s.goose
    && !s.table.NoRow?
    && (s.table.Missing? ==> finals == [])
    && (s.table.Row? ==> s.table.version == LastFinal(finals))
    && (s.table.Row? && !s.table.dirty && 0 < s.table.version ==> s.table.version == s.goose)
    && FinalsInOrder(finals)
  }

  /** No reader with a positive minimum accepts this table. */
  predicate Unsettled(t: Table) {
    t.Row? ==> t.dirty || t.version == 0
  }

  /** From its first migration until its clean row. */
  predicate Migrating(pc: Pc) {
    pc.Apply? || pc.ReadBack? || pc.Finalize?
  }

  /** What the holder of the lock knows about the server at each statement. */
  ghost predicate Local(b: Binary, pc: Pc, s: Server, finals: seq<Final>) {
    match pc
    case ReadState(current) => current == s.goose && Pending(b.catalogue, current) == []
    case ProbeTable(current) => current == s.goose && Pending(b.catalogue, current) != []
    case MarkDirty(current) => current == s.goose && Pending(b.catalogue, current) != []
    case Apply(current) =>
      && Unsettled(s.table)
      && LastFinal(finals) <= current <= s.goose <= LastVersion(b.catalogue)
      && (current == s.goose ==> Pending(b.catalogue, current) != [])
    case ReadBack(current) =>
      && Unsettled(s.table)
      && LastFinal(finals) <= current < s.goose == LastVersion(b.catalogue)
    case Finalize(current, version) =>
      && Unsettled(s.table)
      && LastFinal(finals) <= current < s.goose == LastVersion(b.catalogue) == version
      && b.window.minimum <= version <= b.window.maximum
    case _ => true
  }

  ghost predicate Inv(w: World) {
    && Settled(w.server, w.finals)
    && (w.server.lock.Some? ==> w.server.lock.value in w.runs)
    && (forall p :: p in w.runs ==> ValidBinary(w.runs[p].binary))
    && (forall p :: p in w.runs && Holding(w.runs[p].pc) ==> w.server.lock == Some(p))
    && (forall p :: p in w.runs ==> Local(w.runs[p].binary, w.runs[p].pc, w.server, w.finals))
  }

  /** A nonempty pending part puts the current version below the catalogue's last one. */
  lemma BelowLast(c: seq<Migration>, current: int)
    requires ValidCatalogue(c)
    ensures Pending(c, current) != [] <==> c != [] && current < LastVersion(c)
  {
    if c != [] { PendingEmptyIff(c, current); }
  }

  /** The statement of a migration keeps what its run and the readers rely on. */
  lemma ApplyKeeps(b: Binary, p: Session, current: int, s: Server, finals: seq<Final>)
    requires ValidBinary(b) && Settled(s, finals) && Local(b, Apply(current), s, finals)
    ensures var (s', pc') := Execute(b, p, Apply(current), s);
            Settled(s', finals) && Local(b, pc', s', finals) && s'.lock == s.lock
  {
    var c := b.catalogue;
    BelowLast(c, s.goose);
    if Pending(c, s.goose) != [] {
      PendingAdvances(c, s.goose);
      var m := Pending(c, s.goose)[0];
      BelowLast(c, m.version);
      assert m.version <= LastVersion(c) by {
        var i :| 0 <= i < |c| && c[i] == m;
      }
    }
  }

  /** The clean row is above every earlier one. */
  lemma FinalizeKeeps(b: Binary, p: Session, pc: Pc, s: Server, finals: seq<Final>)
    requires ValidBinary(b) && Settled(s, finals) && pc.Finalize? && Local(b, pc, s, finals) && s.table.Row?
    ensures Settled(Execute(b, p, pc, s).0, finals + [Final(b, pc.version)])
  {
    var finals' := finals + [Final(b, pc.version)];
    forall i, j | 0 <= i < j < |finals'| ensures finals'[i].version < finals'[j].version {
      if j == |finals| { assert finals[i].version <= LastFinal(finals); }
    }
  }

  lemma ExecuteKeeps(b: Binary, p: Session, pc: Pc, s: Server, finals: seq<Final>)
    requires ValidBinary(b) && Settled(s, finals) && Local(b, pc, s, finals) && !Over(pc)
    requires Holding(pc) ==> s.lock == Some(p)
    ensures var (s', pc') := Execute(b, p, pc, s);
            var finals' := if Finalizes(pc, s, Fine) then finals + [Final(b, pc.version)] else finals;
            && Settled(s', finals') && Local(b, pc', s', finals')
            && (Holding(pc') ==> s'.lock == Some(p))
            && (s'.lock == s.lock || (s'.lock == None && s.lock == Some(p)) || (s.lock == None && s'.lock == Some(p)))
  {
    match pc
    case Apply(current) => ApplyKeeps(b, p, current, s, finals);
    case ProbeTable(current) => BelowLast(b.catalogue, current);
    case MarkDirty(current) => BelowLast(b.catalogue, current);
    case Finalize(_, _) => if s.table.Row? { FinalizeKeeps(b, p, pc, s, finals); }
    case _ =>
  }

  /** A lost answer leaves the server either as it was or as the statement would have left it. */
  lemma AdvanceKeeps(b: Binary, p: Session, pc: Pc, s: Server, luck: Luck, finals: seq<Final>)
    requires ValidBinary(b) && Settled(s, finals) && Local(b, pc, s, finals) && !Over(pc)
    requires Holding(pc) ==> s.lock == Some(p)
    ensures var (s', pc') := Advance(b, p, pc, s, luck);
            var finals' := if Finalizes(pc, s, luck) then finals + [Final(b, pc.version)] else finals;
            && Settled(s', finals') && Local(b, pc', s', finals')
            && (Holding(pc') ==> s'.lock == Some(p))
            && (s'.lock == s.lock || (s'.lock == None && s.lock == Some(p)) || (s.lock == None && s'.lock == Some(p)))
  {
    hide Execute, Settled, Local;
    ExecuteKeeps(b, p, pc, s, finals);
    if luck.Lost? {
      StoppedKnowsNothing(b, Advance(b, p, pc, s, luck).1, s, finals);
      var (s', pc') := Advance(b, p, pc, s, luck);
      StoppedKnowsNothing(b, pc', s', if Finalizes(pc, s, luck) then finals + [Final(b, pc.version)] else finals);
      if Holding(pc) && !pc.Unlock? { LostKeepsLock(b, p, pc, s); }
    }
  }

  /** A run about to unlock, or over, relies on nothing. */
  lemma StoppedKnowsNothing(b: Binary, pc: Pc, s: Server, finals: seq<Final>)
    requires pc.Unlock? || Over(pc)
    ensures Local(b, pc, s, finals)
  {
  }

  lemma LostKeepsLock(b: Binary, p: Session, pc: Pc, s: Server)
    requires Holding(pc) && !pc.Unlock? && s.lock == Some(p)
    ensures Execute(b, p, pc, s).0.lock == Some(p)
  {
  }

  /** A session that meets a lock held by another leaves everything as it is. */
  lemma LockedOut(b: Binary, p: Session, pc: Pc, s: Server, luck: Luck)
    requires !Over(pc) && !Holding(pc) && s.lock.Some? && s.lock != Some(p)
    ensures Advance(b, p, pc, s, luck) == (s, Ended(Refused(LockUnavailable))) && !Finalizes(pc, s, luck)
  {
  }

  /** A run that is not past the lock relies on nothing. */
  lemma OutsideKnowsNothing(b: Binary, pc: Pc, s: Server, finals: seq<Final>)
    requires !Holding(pc)
    ensures Local(b, pc, s, finals)
  {
  }

  /** One run moves; the others are either outside the lock or see the same server. */
  lemma ReplaceRun(w: World, p: Session, pc: Pc, server: Server, finals: seq<Final>)
    requires Inv(w) && p in w.runs
    requires Settled(server, finals) && Local(w.runs[p].binary, pc, server, finals)
    requires Holding(pc) ==> server.lock == Some(p)
    requires server.lock.Some? ==> server.lock.value in w.runs
    requires forall q :: q in w.runs && q != p && Holding(w.runs[q].pc) ==> server == w.server && finals == w.finals
    ensures Inv(World(server, w.runs[p := Run(w.runs[p].binary, pc)], finals))
  {
    var w' := World(server, w.runs[p := Run(w.runs[p].binary, pc)], finals);
    forall q | q in w'.runs ensures Local(w'.runs[q].binary, w'.runs[q].pc, server, finals) {
      if q != p && !Holding(w.runs[q].pc) {
        OutsideKnowsNothing(w.runs[q].binary, w.runs[q].pc, server, finals);
      }
    }
  }

  lemma StatementKeeps(w: World, p: Session, luck: Luck)
    requires Inv(w) && Enabled(w, Statement(p, luck))
    ensures Inv(Step(w, Statement(p, luck)))
  {
    var Run(b, pc) := w.runs[p];
    AdvanceKeeps(b, p, pc, w.server, luck, w.finals);
    var (server, next) := Advance(b, p, pc, w.server, luck);
    var finals := if Finalizes(pc, w.server, luck) then w.finals + [Final(b, pc.version)] else w.finals;
    forall q | q in w.runs && q != p && Holding(w.runs[q].pc)
      ensures server == w.server && finals == w.finals
    {
      LockedOut(b, p, pc, w.server, luck);
    }
    ReplaceRun(w, p, next, server, finals);
  }

  lemma SettledIgnoresLock(s: Server, finals: seq<Final>)
    ensures Settled(s, finals) <==> Settled(s.(lock := None), finals)
  {
  }

  lemma SessionEndKeeps(w: World, p: Session)
    requires Inv(w) && p in w.runs
    ensures Inv(Step(w, SessionEnds(p)))
  {
    SettledIgnoresLock(w.server, w.finals);
    var server := if w.server.lock == Some(p) then w.server.(lock := None) else w.server;
    ReplaceRun(w, p, Crashed, server, w.finals);
  }

  lemma StepKeeps(w: World, e: Event)
    requires Inv(w) && Enabled(w, e)
    ensures Inv(Step(w, e))
  {
    match e
    case Start(p, b) =>
      StartKeeps(w, p, b);
    case Statement(p, luck) => StatementKeeps(w, p, luck);
    case SessionEnds(p) => SessionEndKeeps(w, p);
  }

  lemma StartKeeps(w: World, p: Session, b: Binary)
    requires Inv(w) && p !in w.runs && ValidBinary(b)
    ensures Inv(Step(w, Start(p, b)))
  {
    OutsideKnowsNothing(b, TryLock, w.server, w.finals);
  }

  /** Every run from an invariant world keeps the invariant. */
  lemma {:induction false} RunKeeps(w: World, events: seq<Event>)
    requires Inv(w) && Legal(w, events)
    ensures Inv(After(w, events))
    decreases |events|
  {
    if events != [] {
      StepKeeps(w, events[0]);
      RunKeeps(Step(w, events[0]), events[1..]);
    }
  }

  // ---- what every reachable world promises ----

  /** A reader whose two statements fall anywhere in any run accepts only a schema that is wholly at
      the version it saw, while no migrator is between its first migration and its clean row. */
  lemma CheckIsSafe(w: Window, before: seq<Event>, between: seq<Event>)
    requires 0 < w.minimum
    requires Legal(INITIAL, before + between)
    requires Check(w, After(INITIAL, before).server.table, After(INITIAL, before + between).server.table) == Supported
    ensures var now := After(INITIAL, before + between);
            && now.server.table == Row(now.server.goose, false)
            && w.minimum <= now.server.goose <= w.maximum
            && (forall p :: p in now.runs ==>
                  !now.runs[p].pc.Apply? && !now.runs[p].pc.ReadBack? && !now.runs[p].pc.Finalize?)
  {
    RunKeeps(INITIAL, before + between);
  }

  /** At most one run is past the lock. */
  lemma MutualExclusion(events: seq<Event>, p: Session, q: Session)
    requires Legal(INITIAL, events)
    requires var now := After(INITIAL, events);
             p in now.runs && q in now.runs && Holding(now.runs[p].pc) && Holding(now.runs[q].pc)
    ensures p == q
  {
    RunKeeps(INITIAL, events);
  }

  ghost predicate LiveLock(w: World) {
    w.server.lock.Some? ==> w.server.lock.value in w.runs && !w.runs[w.server.lock.value].pc.Crashed?
  }

  lemma {:induction false} LiveLockOn(w: World, events: seq<Event>)
    requires LiveLock(w) && Legal(w, events)
    ensures LiveLock(After(w, events))
    decreases |events|
  {
    if events != [] { LiveLockOn(Step(w, events[0]), events[1..]); }
  }

  /** The lock never outlives its session: in every interleaving its holder's session has not ended, and
      with the end of that session it is free. */
  lemma LockDiesWithSession(events: seq<Event>, p: Session)
    requires Legal(INITIAL, events) && After(INITIAL, events).server.lock == Some(p)
    ensures var w := After(INITIAL, events);
            && Enabled(w, SessionEnds(p)) && !w.runs[p].pc.Crashed?
            && Step(w, SessionEnds(p)).server == w.server.(lock := None)
  {
    LiveLockOn(INITIAL, events);
  }

  /** A statement that changes the row or goose's version is one of three, and goose only rises. */
  lemma WritingStatements(b: Binary, p: Session, pc: Pc, s: Server, luck: Luck)
    requires ValidBinary(b) && !Over(pc)
    ensures var s' := Advance(b, p, pc, s, luck).0;
            && s.goose <= s'.goose
            && (s.goose != s'.goose || s.table != s'.table ==> pc.MarkDirty? || pc.Apply? || pc.Finalize?)
  {
    if pc.Apply? && Pending(b.catalogue, s.goose) != [] {
      PendingAdvances(b.catalogue, s.goose);
    }
  }

  /** Only the lock holder, and only in its three writing statements, changes the row or goose's
      version; goose's version never decreases. */
  lemma OnlyTheHolderWrites(events: seq<Event>, e: Event)
    requires Legal(INITIAL, events) && Enabled(After(INITIAL, events), e)
    ensures var now := After(INITIAL, events);
            var next := Step(now, e);
            && now.server.goose <= next.server.goose
            && (now.server.goose != next.server.goose || now.server.table != next.server.table ==>
                  && e.Statement? && e.p in now.runs && now.server.lock == Some(e.p)
                  && (now.runs[e.p].pc.MarkDirty? || now.runs[e.p].pc.Apply? || now.runs[e.p].pc.Finalize?))
  {
    RunKeeps(INITIAL, events);
    var now := After(INITIAL, events);
    if e.Statement? {
      var Run(b, pc) := now.runs[e.p];
      WritingStatements(b, e.p, pc, now.server, e.luck);
    }
  }

  /** Successive clean rows have strictly increasing versions, each inside the window of the binary
      that wrote it and at the end of its catalogue; the row always carries the last of them. */
  lemma FinalisedVersions(events: seq<Event>)
    requires Legal(INITIAL, events)
    ensures var now := After(INITIAL, events);
            && FinalsInOrder(now.finals)
            && LastFinal(now.finals) <= now.server.goose
            && (now.server.table.Row? ==> now.server.table.version == LastFinal(now.finals))
  {
    RunKeeps(INITIAL, events);
  }

  /** A run that was refused, or that found nothing pending: what it may still do. */
  predicate Quiet(pc: Pc) {
    pc.ReadState? || pc.Unlock? || Over(pc)
  }

  lemma QuietStep(w: World, e: Event, p: Session)
    requires p in w.runs && Quiet(w.runs[p].pc) && Enabled(w, e)
    ensures p in Step(w, e).runs && Quiet(Step(w, e).runs[p].pc)
  {
  }

  lemma {:induction false} QuietStays(w: World, events: seq<Event>, p: Session)
    requires p in w.runs && Quiet(w.runs[p].pc) && Legal(w, events)
    ensures p in After(w, events).runs && Quiet(After(w, events).runs[p].pc)
    decreases |events|
  {
    if events != [] {
      QuietStep(w, events[0], p);
      QuietStays(Step(w, events[0]), events[1..], p);
    }
  }

  /** The statements after which a run is quiet: a lock it does not get, and a version with nothing
      pending above it. */
  lemma BecomesQuiet(b: Binary, p: Session, s: Server, luck: Luck)
    ensures s.lock.Some? ==> Quiet(Advance(b, p, TryLock, s, luck).1)
    ensures Pending(b.catalogue, s.goose) == [] ==> Quiet(Advance(b, p, ReadVersion, s, luck).1)
  {
  }

  /** In every interleaving, whatever others do meanwhile, such a run writes neither the row nor
      goose's version from then on. */
  lemma QuietRunWritesNothing(w: World, events: seq<Event>, p: Session, luck: Luck)
    requires p in w.runs && Quiet(w.runs[p].pc) && Legal(w, events)
    requires Enabled(After(w, events), Statement(p, luck))
    ensures var now := After(w, events);
            var next := Step(now, Statement(p, luck));
            next.server.goose == now.server.goose && next.server.table == now.server.table && next.finals == now.finals
  {
    QuietStays(w, events, p);
  }
}
