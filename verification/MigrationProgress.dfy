/** What becomes of migrators that all carry one catalogue: when a run recovers, when it refuses,
    and the state from which no run ever recovers. */
module MigrationProgress {
  import opened Options
  import opened SchemaState
  import opened Catalogues
  import opened MigrationSteps
  import opened MigrationWorld
  import opened MigrationRun

  /** A catalogue that starts with platform_init and ends inside the binary's window. */
  ghost predicate CellBinary(b: Binary) {
    && ValidBinary(b) && b.catalogue != [] && b.catalogue[0].createsState
    && b.window.minimum <= LastVersion(b.catalogue) <= b.window.maximum
  }

  ghost predicate OneCatalogue(c: seq<Migration>, events: seq<Event>) {
    forall i :: 0 <= i < |events| && events[i].Start? ==> events[i].binary.catalogue == c
  }

  /** With one catalogue goose stands at one of its versions, and the row exists from the first
      migration on. */
  ghost predicate Footing(c: seq<Migration>, s: Server) {
    && (s.goose == 0 || InCatalogue(c, s.goose))
    && (s.goose == 0 <==> s.table.Missing?)
    && !s.table.NoRow?
  }

  ghost predicate Coherent(c: seq<Migration>, w: World) {
    && Footing(c, w.server)
    && (forall p :: p in w.runs ==> w.runs[p].binary.catalogue == c && ValidBinary(w.runs[p].binary))
  }

  lemma ExecuteKeepsFooting(b: Binary, p: Session, pc: Pc, s: Server)
    requires ValidBinary(b) && b.catalogue != [] && b.catalogue[0].createsState && Footing(b.catalogue, s)
    ensures Footing(b.catalogue, Execute(b, p, pc, s).0)
  {
    var c := b.catalogue;
    if pc.Apply? && Pending(c, s.goose) != [] {
      PendingAdvances(c, s.goose);
      var m := Pending(c, s.goose)[0];
      assert InCatalogue(c, m.version) by { var i :| 0 <= i < |c| && c[i] == m; }
      if s.goose == 0 { assert m == c[0]; }
    }
  }

  lemma CoherentStep(c: seq<Migration>, w: World, e: Event)
    requires ValidCatalogue(c) && c != [] && c[0].createsState
    requires Coherent(c, w) && Enabled(w, e) && (e.Start? ==> e.binary.catalogue == c)
    ensures Coherent(c, Step(w, e))
  {
    if e.Statement? {
      ExecuteKeepsFooting(w.runs[e.p].binary, e.p, w.runs[e.p].pc, w.server);
    }
  }

  lemma {:induction false} CoherentRun(c: seq<Migration>, w: World, events: seq<Event>)
    requires ValidCatalogue(c) && c != [] && c[0].createsState
    requires Coherent(c, w) && Legal(w, events) && OneCatalogue(c, events)
    ensures Coherent(c, After(w, events))
    decreases |events|
  {
    if events != [] {
      CoherentStep(c, w, events[0]);
      CoherentRun(c, Step(w, events[0]), events[1..]);
    }
  }

  lemma LastIsLargest(c: seq<Migration>, version: int)
    requires ValidCatalogue(c) && InCatalogue(c, version)
    ensures 0 < version <= LastVersion(c)
  {
    var i :| 0 <= i < |c| && c[i].version == version;
  }

  /** From its first migration on, a run without faults reaches the clean row at the last version. */
  lemma {:induction false} ApplyFinishes(b: Binary, p: Session, current: int, s: Server, i: nat)
    requires CellBinary(b) && s.lock == Some(p)
    requires s.goose <= LastVersion(b.catalogue)
    requires s.table.Row? || Pending(b.catalogue, s.goose) == b.catalogue
    ensures Complete(b, p, Apply(current), s, [], i) ==
            (Server(None, LastVersion(b.catalogue), Row(LastVersion(b.catalogue), false)), Succeeded)
    decreases |Pending(b.catalogue, s.goose)|
  {
    var c := b.catalogue;
    BelowLast(c, s.goose);
    if Pending(c, s.goose) != [] {
      PendingAdvances(c, s.goose);
      var m := Pending(c, s.goose)[0];
      assert InCatalogue(c, m.version) by { var k :| 0 <= k < |c| && c[k] == m; }
      LastIsLargest(c, m.version);
      ApplyFinishes(b, p, current, ApplyMigration(s, m), i + 1);
    } else {
      var last := LastVersion(c);
      assert Complete(b, p, Apply(current), s, [], i) == Complete(b, p, ReadBack(current), s, [], i + 1);
      assert Complete(b, p, ReadBack(current), s, [], i + 1) == Complete(b, p, Finalize(current, last), s, [], i + 2);
      var s1 := s.(table := Row(last, false));
      assert Complete(b, p, Finalize(current, last), s, [], i + 2) == Complete(b, p, Unlock(Succeeded), s1, [], i + 3);
      assert Complete(b, p, Unlock(Succeeded), s1, [], i + 3)
          == Complete(b, p, Ended(Succeeded), s1.(lock := None), [], i + 4);
    }
  }

  /** The first five statements without faults, on a free lock. */
  lemma Opening(b: Binary, p: Session, s: Server)
    requires ValidBinary(b) && s.lock.None?
    ensures Complete(b, p, TryLock, s, [], 0) == Complete(b, p, ReadVersion, s.(lock := Some(p)), [], 4)
  {
    var t := s.(lock := Some(p));
    assert Complete(b, p, TryLock, s, [], 0) == Complete(b, p, SetZone, t, [], 1);
    assert Complete(b, p, SetZone, t, [], 1) == Complete(b, p, ReadZone, t, [], 2);
    assert Complete(b, p, ReadZone, t, [], 2) == Complete(b, p, SetSearchPath, t, [], 3);
  }

  /** A migration is pending, or the row is already clean at the last version. */
  predicate Recoverable(c: seq<Migration>, s: Server) {
    s.goose < LastVersion(c) || s.table == Row(LastVersion(c), false)
  }

  lemma FromPending(b: Binary, p: Session, s: Server)
    requires CellBinary(b) && Footing(b.catalogue, s) && s.lock.None? && 0 <= s.goose < LastVersion(b.catalogue)
    ensures Complete(b, p, TryLock, s, [], 0) ==
            (Server(None, LastVersion(b.catalogue), Row(LastVersion(b.catalogue), false)), Succeeded)
  {
    var t := s.(lock := Some(p));
    Opening(b, p, s);
    BelowLast(b.catalogue, s.goose);
    assert Complete(b, p, ReadVersion, t, [], 4) == Complete(b, p, ProbeTable(s.goose), t, [], 5);
    if s.table.Missing? {
      ApplyFinishes(b, p, s.goose, t, 6);
    } else {
      assert Complete(b, p, ProbeTable(s.goose), t, [], 5) == Complete(b, p, MarkDirty(s.goose), t, [], 6);
      ApplyFinishes(b, p, s.goose, t.(table := Row(s.table.version, true)), 7);
    }
  }

  lemma FromIdle(b: Binary, p: Session, s: Server)
    requires CellBinary(b) && s.lock.None? && s.goose == LastVersion(b.catalogue)
    ensures Complete(b, p, TryLock, s, [], 0) == (s, CurrentOutcome(b, s.goose, s.table))
  {
    var t := s.(lock := Some(p));
    Opening(b, p, s);
    BelowLast(b.catalogue, s.goose);
    assert Complete(b, p, ReadVersion, t, [], 4) == Complete(b, p, ReadState(s.goose), t, [], 5);
    assert Complete(b, p, ReadState(s.goose), t, [], 5)
        == Complete(b, p, Unlock(CurrentOutcome(b, s.goose, s.table)), t, [], 6);
  }

  /** From any reachable state with the lock free, a run without faults succeeds, leaving the clean
      row at the last version, exactly when the state is recoverable; otherwise it refuses and
      changes nothing. */
  lemma FaultFreeRun(events: seq<Event>, b: Binary, p: Session)
    requires CellBinary(b) && Legal(INITIAL, events) && OneCatalogue(b.catalogue, events)
    requires After(INITIAL, events).server.lock.None?
    ensures var s := After(INITIAL, events).server;
            var last := LastVersion(b.catalogue);
            var (s', outcome) := Complete(b, p, TryLock, s, [], 0);
            && (outcome == Succeeded <==> Recoverable(b.catalogue, s))
            && s' == if Recoverable(b.catalogue, s) then Server(None, last, Row(last, false)) else s
  {
    CoherentRun(b.catalogue, INITIAL, events);
    RunKeeps(INITIAL, events);
    var s := After(INITIAL, events).server;
    if s.goose != 0 { LastIsLargest(b.catalogue, s.goose); }
    if s.goose < LastVersion(b.catalogue) {
      FromPending(b, p, s);
    } else {
      FromIdle(b, p, s);
    }
  }

  // ---- the state no run leaves ----

  /** Everything is applied, but no clean row was written and nobody is about to write one. */
  ghost predicate Wedged(c: seq<Migration>, w: World) {
    && w.server.goose == LastVersion(c)
    && !Recoverable(c, w.server)
    && (forall p :: p in w.runs ==> !Migrating(w.runs[p].pc))
  }

  lemma WedgedAdvance(b: Binary, p: Session, pc: Pc, s: Server, luck: Luck, finals: seq<Final>)
    requires ValidBinary(b) && Local(b, pc, s, finals) && !Over(pc) && !Migrating(pc)
    requires s.goose == LastVersion(b.catalogue)
    ensures var (s', pc') := Advance(b, p, pc, s, luck);
            s'.goose == s.goose && s'.table == s.table && !Migrating(pc')
  {
    BelowLast(b.catalogue, s.goose);
  }

  lemma WedgeStep(c: seq<Migration>, w: World, e: Event)
    requires Inv(w) && Coherent(c, w) && Wedged(c, w) && Enabled(w, e)
    ensures Wedged(c, Step(w, e))
    ensures Step(w, e).server.goose == w.server.goose && Step(w, e).server.table == w.server.table
  {
    if e.Statement? {
      var Run(b, pc) := w.runs[e.p];
      WedgedAdvance(b, e.p, pc, w.server, e.luck, w.finals);
    }
  }

  /** No reader with a positive minimum accepts a wedged schema. */
  lemma WedgedIsRefused(c: seq<Migration>, w: World, window: Window, atProbe: Table)
    requires Inv(w) && Wedged(c, w) && 0 < window.minimum
    ensures Check(window, atProbe, w.server.table) != Supported
  {
  }

  /** However many migrators with this catalogue run afterwards, and however they interleave, the
      row is never clean at goose's version again: the wedge is permanent. */
  lemma {:induction false} WedgeIsForever(c: seq<Migration>, w: World, events: seq<Event>)
    requires ValidCatalogue(c) && c != [] && c[0].createsState
    requires Inv(w) && Coherent(c, w) && Wedged(c, w) && Legal(w, events) && OneCatalogue(c, events)
    ensures Wedged(c, After(w, events))
    ensures After(w, events).server.goose == w.server.goose && After(w, events).server.table == w.server.table
    decreases |events|
  {
    if events != [] {
      StepKeeps(w, events[0]);
      CoherentStep(c, w, events[0]);
      WedgeStep(c, w, events[0]);
      WedgeIsForever(c, Step(w, events[0]), events[1..]);
    }
  }

  /** Every statement answers until the version is read back; that answer is lost. */
  ghost predicate StopsAt(fate: seq<Luck>, i: nat, k: nat) {
    && (forall j: nat {:trigger LuckAt(fate, j)} :: i <= j && j != k ==> LuckAt(fate, j) == Fine)
    && LuckAt(fate, k) == Lost(false)
  }

  lemma {:induction false} ApplyStops(b: Binary, p: Session, s: Server, fate: seq<Luck>, i: nat, k: nat)
    requires CellBinary(b) && s.lock == Some(p) && s.goose <= LastVersion(b.catalogue)
    requires s.table == Row(0, false) || (s.table.Missing? && s.goose == 0)
    requires StopsAt(fate, i, k) && k == i + |Pending(b.catalogue, s.goose)| + 1
    ensures Complete(b, p, Apply(0), s, fate, i) ==
            (Server(None, LastVersion(b.catalogue), Row(0, false)), Refused(VersionUnreadable))
    decreases |Pending(b.catalogue, s.goose)|
  {
    var c := b.catalogue;
    BelowLast(c, s.goose);
    assert LuckAt(fate, i) == Fine;
    if Pending(c, s.goose) != [] {
      PendingAdvances(c, s.goose);
      var m := Pending(c, s.goose)[0];
      assert InCatalogue(c, m.version) by { var j :| 0 <= j < |c| && c[j] == m; }
      LastIsLargest(c, m.version);
      ApplyStops(b, p, ApplyMigration(s, m), fate, i + 1, k);
    } else {
      assert InCatalogue(c, c[|c| - 1].version);
      LastIsLargest(c, LastVersion(c));
      var lost := Refused(VersionUnreadable);
      assert Complete(b, p, Apply(0), s, fate, i) == Complete(b, p, ReadBack(0), s, fate, k);
      assert Complete(b, p, ReadBack(0), s, fate, k) == Complete(b, p, Unlock(lost), s, fate, k + 1);
      assert LuckAt(fate, k + 1) == Fine;
      assert Complete(b, p, Unlock(lost), s, fate, k + 1) == Complete(b, p, Ended(lost), s.(lock := None), fate, k + 2);
    }
  }

  /** The very first run, cut off after its last migration and before its clean row. */
  lemma FirstRunStops(b: Binary, p: Session, fate: seq<Luck>)
    requires CellBinary(b) && StopsAt(fate, 0, |b.catalogue| + 7)
    ensures Complete(b, p, TryLock, INITIAL.server, fate, 0) ==
            (Server(None, LastVersion(b.catalogue), Row(0, false)), Refused(VersionUnreadable))
  {
    var c := b.catalogue;
    var t := Server(Some(p), 0, Missing);
    assert InCatalogue(c, c[|c| - 1].version);
    LastIsLargest(c, LastVersion(c));
    BelowLast(c, 0);
    assert LuckAt(fate, 0) == LuckAt(fate, 1) == LuckAt(fate, 2) == LuckAt(fate, 3) == LuckAt(fate, 4)
        == LuckAt(fate, 5) == Fine;
    assert Complete(b, p, TryLock, INITIAL.server, fate, 0) == Complete(b, p, SetZone, t, fate, 1);
    assert Complete(b, p, SetZone, t, fate, 1) == Complete(b, p, ReadZone, t, fate, 2);
    assert Complete(b, p, ReadZone, t, fate, 2) == Complete(b, p, SetSearchPath, t, fate, 3);
    assert Complete(b, p, SetSearchPath, t, fate, 3) == Complete(b, p, ReadVersion, t, fate, 4);
    assert Complete(b, p, ReadVersion, t, fate, 4) == Complete(b, p, ProbeTable(0), t, fate, 5);
    assert Complete(b, p, ProbeTable(0), t, fate, 5) == Complete(b, p, Apply(0), t, fate, 6);
    ApplyStops(b, p, t, fate, 6, |c| + 7);
  }

  /** Every such catalogue has a run into the wedge. */
  lemma WedgeIsReachable(b: Binary, p: Session)
    requires CellBinary(b)
    ensures exists events :: && Legal(INITIAL, events) && OneCatalogue(b.catalogue, events)
                             && Wedged(b.catalogue, After(INITIAL, events))
  {
    var k := |b.catalogue| + 7;
    var fate := seq(k, j => Fine) + [Lost(false)];
    FirstRunStops(b, p, fate);
    var w := Step(INITIAL, Start(p, b));
    CompleteIsARun(w, p, fate, 0);
    var tail := Script(b, p, TryLock, w.server, fate, 0);
    var events := [Start(p, b)] + tail;
    assert events[1..] == tail;
    assert InCatalogue(b.catalogue, b.catalogue[|b.catalogue| - 1].version);
    LastIsLargest(b.catalogue, LastVersion(b.catalogue));
    assert Legal(INITIAL, events);
    assert After(INITIAL, events) == After(w, tail);
    assert forall i :: 1 <= i < |events| ==> events[i] == tail[i - 1];
    assert Wedged(b.catalogue, After(INITIAL, events));
  }

  // ---- what a failed migration leaves behind ----

  predicate IsDirty(t: Table) {
    t.Row? && t.dirty
  }

  /** Up to the mark the row may still be marked; from the first migration on it stays as it is. */
  predicate Unmarked(pc: Pc) {
    || pc.TryLock? || pc.SetZone? || pc.ReadZone? || pc.SetSearchPath? || pc.ReadVersion? || pc.ProbeTable?
    || pc.MarkDirty?
  }

  const FAILED := Refused(MigrationFailed)

  /** What the rest of a run that reports a failed migration says about the row. */
  lemma {:induction false} FailureFrom(b: Binary, p: Session, pc: Pc, s: Server, fate: seq<Luck>, i: nat)
    requires ValidCatalogue(b.catalogue) && !pc.Crashed?
    ensures var (s', outcome) := Complete(b, p, pc, s, fate, i);
            && (pc.Unlock? ==> outcome == pc.outcome && s'.table == s.table)
            && (outcome == FAILED && Unmarked(pc) ==> (IsDirty(s'.table) <==> s.table.Row?))
            && (outcome == FAILED && pc.Apply? ==> (IsDirty(s'.table) <==> IsDirty(s.table)))
            && (pc.ReadState? || pc.ReadBack? || pc.Finalize? ==> outcome != FAILED)
    decreases Rank(pc), |Pending(b.catalogue, s.goose)|
  {
    if !pc.Ended? {
      AdvanceDescends(b, p, pc, s, LuckAt(fate, i));
      var (s', pc') := Advance(b, p, pc, s, LuckAt(fate, i));
      FailureFrom(b, p, pc', s', fate, i + 1);
    }
  }

  /** When a run reports a failed migration the row is left dirty exactly if it was there when the run
      began; the table's absence, which the run tests for, is the one way out of marking it. */
  lemma FailureIsDirtyIff(b: Binary, p: Session, s: Server, fate: seq<Luck>)
    requires ValidBinary(b)
    ensures var (s', outcome) := Complete(b, p, TryLock, s, fate, 0);
            outcome == FAILED ==> (IsDirty(s'.table) <==> s.table.Row?)
  {
    FailureFrom(b, p, TryLock, s, fate, 0);
  }

  /** On a new database a catalogue of two or more migrations has such a run that fails at the second
      and leaves a clean row. */
  lemma FailureLeavesCleanRow(b: Binary, p: Session, fate: seq<Luck>)
    requires ValidBinary(b) && |b.catalogue| >= 2 && b.catalogue[0].createsState
    requires fate == [Fine, Fine, Fine, Fine, Fine, Fine, Fine, Lost(false)]
    ensures Complete(b, p, TryLock, INITIAL.server, fate, 0)
         == (Server(None, b.catalogue[0].version, Row(0, false)), FAILED)
  {
    var c := b.catalogue;
    var t := Server(Some(p), 0, Missing);
    var u := Server(Some(p), c[0].version, Row(0, false));
    assert Pending(c, 0) == c;
    PendingAdvances(c, 0);
    assert ApplyMigration(t, c[0]) == u;
    assert Complete(b, p, TryLock, INITIAL.server, fate, 0) == Complete(b, p, SetZone, t, fate, 1);
    assert Complete(b, p, SetZone, t, fate, 1) == Complete(b, p, ReadZone, t, fate, 2);
    assert Complete(b, p, ReadZone, t, fate, 2) == Complete(b, p, SetSearchPath, t, fate, 3);
    assert Complete(b, p, SetSearchPath, t, fate, 3) == Complete(b, p, ReadVersion, t, fate, 4);
    assert Complete(b, p, ReadVersion, t, fate, 4) == Complete(b, p, ProbeTable(0), t, fate, 5);
    assert Complete(b, p, ProbeTable(0), t, fate, 5) == Complete(b, p, Apply(0), t, fate, 6);
    assert Complete(b, p, Apply(0), t, fate, 6) == Complete(b, p, Apply(0), u, fate, 7);
    assert Complete(b, p, Apply(0), u, fate, 7) == Complete(b, p, Unlock(FAILED), u, fate, 8);
    assert Complete(b, p, Unlock(FAILED), u, fate, 8) == Complete(b, p, Ended(FAILED), u.(lock := None), fate, 9);
  }
}
