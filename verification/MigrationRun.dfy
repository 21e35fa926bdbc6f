/** One run from its first statement to its last, as a function of the answers it gets. */
module MigrationRun {
  import opened Options
  import opened SchemaState
  import opened Catalogues
  import opened MigrationSteps
  import opened MigrationWorld

  /** The fate of the i-th statement; beyond the list nothing goes wrong. */
  function LuckAt(fate: seq<Luck>, i: nat): Luck {
    if i < |fate| then fate[i] else Fine
  }

  lemma AdvanceDescends(b: Binary, p: Session, pc: Pc, s: Server, luck: Luck)
    requires ValidCatalogue(b.catalogue) && !Over(pc)
    ensures var (s', pc') := Advance(b, p, pc, s, luck);
            && !pc'.Crashed?
            && (Rank(pc') < Rank(pc)
                || (Rank(pc') == Rank(pc) && |Pending(b.catalogue, s'.goose)| < |Pending(b.catalogue, s.goose)|))
  {
    if pc.Apply? && Pending(b.catalogue, s.goose) != [] {
      PendingAdvances(b.catalogue, s.goose);
    }
  }

  /** The rest of a run that nobody else interleaves with. */
  ghost function Complete(b: Binary, p: Session, pc: Pc, s: Server, fate: seq<Luck>, i: nat): (Server, Outcome)
    requires ValidCatalogue(b.catalogue) && !pc.Crashed?
    decreases Rank(pc), |Pending(b.catalogue, s.goose)|
  {
    if pc.Ended? then (s, pc.outcome)
    else
      AdvanceDescends(b, p, pc, s, LuckAt(fate, i));
      var (s', pc') := Advance(b, p, pc, s, LuckAt(fate, i));
      Complete(b, p, pc', s', fate, i + 1)
  }

  /** The same run as events of the shared world. */
  ghost function Script(b: Binary, p: Session, pc: Pc, s: Server, fate: seq<Luck>, i: nat): seq<Event>
    requires ValidCatalogue(b.catalogue) && !pc.Crashed?
    decreases Rank(pc), |Pending(b.catalogue, s.goose)|
  {
    if pc.Ended? then []
    else
      AdvanceDescends(b, p, pc, s, LuckAt(fate, i));
      var (s', pc') := Advance(b, p, pc, s, LuckAt(fate, i));
      [Statement(p, LuckAt(fate, i))] + Script(b, p, pc', s', fate, i + 1)
  }

  /** A run alone is one of the interleavings: everything proved about the world holds of it. */
  lemma {:induction false} CompleteIsARun(w: World, p: Session, fate: seq<Luck>, i: nat)
    requires p in w.runs && ValidBinary(w.runs[p].binary) && !w.runs[p].pc.Crashed?
    ensures var Run(b, pc) := w.runs[p];
            var events := Script(b, p, pc, w.server, fate, i);
            var done := After(w, events);
            var (s', outcome) := Complete(b, p, pc, w.server, fate, i);
            && Legal(w, events)
            && done.server == s' && done.runs == w.runs[p := Run(b, Ended(outcome))]
            && (forall k :: 0 <= k < |events| ==> events[k].Statement?)
    decreases Rank(w.runs[p].pc), |Pending(w.runs[p].binary.catalogue, w.server.goose)|
  {
    var Run(b, pc) := w.runs[p];
    if !pc.Ended? {
      var luck := LuckAt(fate, i);
      AdvanceDescends(b, p, pc, w.server, luck);
      var e := Statement(p, luck);
      CompleteIsARun(Step(w, e), p, fate, i + 1);
      var tail := Script(b, p, Step(w, e).runs[p].pc, Step(w, e).server, fate, i + 1);
      assert ([e] + tail)[1..] == tail;
    }
  }

  /** A run refused at the lock, or one with nothing pending, leaves the row and goose's version
      alone whatever happens to its statements. */
  lemma RefusedOrIdleWritesNothing(b: Binary, p: Session, s: Server, fate: seq<Luck>)
    requires ValidBinary(b)
    requires (s.lock.Some? && s.lock != Some(p)) || Pending(b.catalogue, s.goose) == []
    ensures var s' := Complete(b, p, TryLock, s, fate, 0).0;
            s'.goose == s.goose && s'.table == s.table
  {
    IdleFrom(b, p, TryLock, s, fate, 0);
  }

  predicate Reading(pc: Pc) {
    !pc.ProbeTable? && !pc.MarkDirty? && !Migrating(pc) && !pc.Crashed?
  }

  lemma {:induction false} IdleFrom(b: Binary, p: Session, pc: Pc, s: Server, fate: seq<Luck>, i: nat)
    requires ValidBinary(b) && Reading(pc)
    requires (pc.TryLock? && s.lock.Some? && s.lock != Some(p)) || Pending(b.catalogue, s.goose) == [] || pc.Ended?
    ensures var s' := Complete(b, p, pc, s, fate, i).0;
            s'.goose == s.goose && s'.table == s.table
    decreases Rank(pc)
  {
    if !pc.Ended? {
      AdvanceDescends(b, p, pc, s, LuckAt(fate, i));
      var (s', pc') := Advance(b, p, pc, s, LuckAt(fate, i));
      IdleFrom(b, p, pc', s', fate, i + 1);
    }
  }

  // ---- what an answer tells ----

  /** Everything in the catalogue is applied, and the row is clean at goose's version inside the window. */
  ghost predicate CleanAtTheEnd(b: Binary, s: Server) {
    && s.table == Row(s.goose, false)
    && b.window.minimum <= s.goose <= b.window.maximum
    && Pending(b.catalogue, s.goose) == []
  }

  /** What a run knows when it has come as far as the reads that can lead to success. */
  ghost predicate MaySucceed(b: Binary, pc: Pc, s: Server) {
    && (pc.ReadState? ==> pc.current == s.goose && Pending(b.catalogue, s.goose) == [])
    && (pc.ReadBack? ==> Pending(b.catalogue, s.goose) == [])
    && (pc.Finalize? ==> pc.version == s.goose && Pending(b.catalogue, s.goose) == []
                         && b.window.minimum <= s.goose <= b.window.maximum)
    && ((pc.Unlock? || pc.Ended?) && pc.outcome == Succeeded ==> CleanAtTheEnd(b, s))
  }

  lemma {:induction false} SuccessFrom(b: Binary, p: Session, pc: Pc, s: Server, fate: seq<Luck>, i: nat)
    requires ValidCatalogue(b.catalogue) && !pc.Crashed? && MaySucceed(b, pc, s)
    ensures var (s', outcome) := Complete(b, p, pc, s, fate, i);
            outcome == Succeeded ==> CleanAtTheEnd(b, s')
    decreases Rank(pc), |Pending(b.catalogue, s.goose)|
  {
    if !pc.Ended? {
      AdvanceDescends(b, p, pc, s, LuckAt(fate, i));
      var (s', pc') := Advance(b, p, pc, s, LuckAt(fate, i));
      SuccessFrom(b, p, pc', s', fate, i + 1);
    }
  }

  /** A run that answers success, whatever faults it met and whatever server it found, leaves everything
      applied and a clean row inside its window. */
  lemma SuccessMeansClean(b: Binary, p: Session, s: Server, fate: seq<Luck>)
    requires ValidBinary(b)
    ensures var (s', outcome) := Complete(b, p, TryLock, s, fate, 0);
            outcome == Succeeded ==>
              && s'.table == Row(s'.goose, false)
              && b.window.minimum <= s'.goose <= b.window.maximum
              && Pending(b.catalogue, s'.goose) == []
  {
    SuccessFrom(b, p, TryLock, s, fate, 0);
  }

  /** A lost answer anywhere before the unlock rules success out: what succeeds with faults succeeds
      without them, and leaves the same row and version. */
  lemma {:induction false} SuccessIsFaultFree(b: Binary, p: Session, pc: Pc, s: Server, fate: seq<Luck>, i: nat)
    requires ValidCatalogue(b.catalogue) && !pc.Crashed?
    requires Complete(b, p, pc, s, fate, i).1 == Succeeded
    ensures var faulty, fine := Complete(b, p, pc, s, fate, i), Complete(b, p, pc, s, [], i);
            fine.1 == Succeeded && fine.0.table == faulty.0.table && fine.0.goose == faulty.0.goose
    decreases Rank(pc), |Pending(b.catalogue, s.goose)|
  {
    if !pc.Ended? {
      var luck := LuckAt(fate, i);
      AdvanceDescends(b, p, pc, s, luck);
      AdvanceDescends(b, p, pc, s, Fine);
      var (s', pc') := Advance(b, p, pc, s, luck);
      if luck.Fine? {
        SuccessIsFaultFree(b, p, pc', s', fate, i + 1);
      } else {
        EndsAsUnlocked(b, p, pc', s', fate, i + 1);
        EndsAsUnlocked(b, p, Execute(b, p, pc, s).1, Execute(b, p, pc, s).0, [], i + 1);
      }
    }
  }

  /** From the unlock on the answer, the row and the version stand. */
  lemma EndsAsUnlocked(b: Binary, p: Session, pc: Pc, s: Server, fate: seq<Luck>, i: nat)
    requires ValidCatalogue(b.catalogue)
    ensures pc.Unlock? || pc.Ended? ==>
              var (s', outcome) := Complete(b, p, pc, s, fate, i);
              outcome == pc.outcome && s'.table == s.table && s'.goose == s.goose
  {
  }

  predicate Untouched(before: Server, s: Server) {
    s.goose == before.goose && s.table == before.table
  }

  predicate Inside(w: Window, version: int) {
    w.minimum <= version <= w.maximum
  }

  /** How far a run has come that gives this reason, and what it has left behind. */
  ghost predicate Tells(b: Binary, before: Server, s: Server, reason: Reason) {
    var idle, done := Pending(b.catalogue, before.goose) == [], Pending(b.catalogue, s.goose) == [];
    match reason
    case LockUnavailable => Untouched(before, s)
    case SessionUnsafe => Untouched(before, s)
    case StateMismatch => idle && Untouched(before, s)
    case StateUnreadable => !idle && Untouched(before, s)
    case NotMarkedDirty =>
      && !idle && s.goose == before.goose
      && (s.table == before.table || (before.table.Row? && s.table == Row(before.table.version, true)))
    case MigrationFailed => !idle
    case VersionUnreadable => done || Untouched(before, s)
    case Unsupported =>
      done && (!Inside(b.window, s.goose) || (Untouched(before, s) && s.table == Row(s.goose, true)))
    case NotFinalized => !idle && done && Inside(b.window, s.goose)
  }

  /** What a run knows on the way. */
  ghost predicate SoFar(b: Binary, before: Server, pc: Pc, s: Server) {
    var idle, done := Pending(b.catalogue, before.goose) == [], Pending(b.catalogue, s.goose) == [];
    match pc
    case ReadState(current) => idle && current == s.goose && Untouched(before, s)
    case ProbeTable(_) => !idle && Untouched(before, s)
    case MarkDirty(_) => !idle && Untouched(before, s)
    case Apply(_) => !idle
    case ReadBack(_) => !idle && done
    case Finalize(_, _) => !idle && done && Inside(b.window, s.goose)
    case Unlock(outcome) => outcome.Refused? ==> Tells(b, before, s, outcome.reason)
    case Ended(outcome) => outcome.Refused? ==> Tells(b, before, s, outcome.reason)
    case Crashed => true
    case _ => Untouched(before, s)
  }

  lemma {:induction false} RefusalFrom(b: Binary, p: Session, before: Server, pc: Pc, s: Server,
                                       fate: seq<Luck>, i: nat)
    requires ValidCatalogue(b.catalogue) && !pc.Crashed? && SoFar(b, before, pc, s)
    ensures var (s', outcome) := Complete(b, p, pc, s, fate, i);
            outcome.Refused? ==> Tells(b, before, s', outcome.reason)
    decreases Rank(pc), |Pending(b.catalogue, s.goose)|
  {
    if !pc.Ended? {
      AdvanceDescends(b, p, pc, s, LuckAt(fate, i));
      var (s', pc') := Advance(b, p, pc, s, LuckAt(fate, i));
      RefusalFrom(b, p, before, pc', s', fate, i + 1);
    }
  }

  /** The error a run returns tells how far it came and what it left, whatever faults it met. */
  lemma RefusalTells(b: Binary, p: Session, s: Server, fate: seq<Luck>)
    requires ValidBinary(b)
    ensures var (s', outcome) := Complete(b, p, TryLock, s, fate, 0);
            outcome.Refused? ==> Tells(b, s, s', outcome.reason)
  {
    RefusalFrom(b, p, s, TryLock, s, fate, 0);
  }
}

/** `runFS` as it is written: statements on one session, early returns, a deferred unlock. */
module Migrator {
  import opened Options
  import opened SchemaState
  import opened Catalogues
  import opened MigrationSteps
  import opened MigrationRun

  class Database {
    var lock: Option<Session>
    var goose: int
    var table: Table

    ghost function State(): Server
      reads this
    {
      Server(lock, goose, table)
    }

    constructor ()
      ensures State() == Server(None, 0, Missing)
    {
      lock, goose, table := None, 0, Missing;
    }

    method TryAdvisoryLock(p: Session, luck: Luck) returns (ok: bool, locked: bool)
      modifies this`lock
      ensures ok == luck.Fine?
      ensures locked == old(lock).None?
      ensures lock == if old(lock).None? && (luck.Fine? || luck.effect) then Some(p) else old(lock)
    {
      locked := lock.None?;
      if locked && (luck.Fine? || luck.effect) { lock := Some(p); }
      ok := luck.Fine?;
    }

    method AdvisoryUnlock(p: Session, luck: Luck)
      modifies this`lock
      ensures lock == if old(lock) == Some(p) && (luck.Fine? || luck.effect) then None else old(lock)
    {
      if lock == Some(p) && (luck.Fine? || luck.effect) { lock := None; }
    }

    /** An UPDATE of the one row; `None` is an SQL error, otherwise the number of rows changed. */
    method UpdateRow(version: Option<int>, dirty: bool, luck: Luck) returns (rows: Option<nat>)
      modifies this`table
      ensures rows == if luck.Fine? && !table.Missing? then Some(if table.Row? then 1 else 0) else None
      ensures table == if old(table).Row? && (luck.Fine? || luck.effect)
                       then Row(if version.Some? then version.value else old(table).version, dirty)
                       else old(table)
    {
      rows := if luck.Fine? && !table.Missing? then Some(if table.Row? then 1 else 0) else None;
      if table.Row? && (luck.Fine? || luck.effect) {
        table := Row(if version.Some? then version.value else table.version, dirty);
      }
    }

    /** One migration of goose's Up, committed with its version. */
    method ApplyNext(m: Migration, luck: Luck) returns (ok: bool)
      modifies this`goose, this`table
      ensures ok == luck.Fine?
      ensures State() == if luck.Fine? || luck.effect then ApplyMigration(old(State()), m) else old(State())
    {
      if luck.Fine? || luck.effect {
        goose := m.version;
        if m.createsState && !table.Row? { table := Row(0, false); }
      }
      ok := luck.Fine?;
    }
  }

  /** `markStateDirtyIfPresent`: at most two statements. */
  method MarkStateDirtyIfPresent(db: Database, p: Session, b: Binary, fate: seq<Luck>, i: nat, current: int)
    returns (error: Option<Reason>, n: nat)
    requires ValidBinary(b)
    modifies db`table
    ensures Complete(b, p, ProbeTable(current), old(db.State()), fate, i) ==
            Complete(b, p, if error.Some? then Unlock(Refused(error.value)) else Apply(current), db.State(), fate, n)
    ensures error.None? <==>
      LuckAt(fate, i).Fine? && (old(db.table).Missing? || (old(db.table).Row? && LuckAt(fate, i + 1).Fine?))
    ensures error.None? && old(db.table).Row? ==> db.table == Row(old(db.table).version, true)
    ensures !old(db.table).Row? ==> db.table == old(db.table)
  {
    if LuckAt(fate, i).Lost? { return Some(StateUnreadable), i + 1; }
    if db.table.Missing? { return None, i + 1; }
    var rows := db.UpdateRow(None, true, LuckAt(fate, i + 1));
    if rows != Some(1) { return Some(NotMarkedDirty), i + 2; }
    return None, i + 2;
  }

  /** `goose.Up`: re-reads the version and applies the next migration until none is left. */
  method Up(db: Database, p: Session, b: Binary, fate: seq<Luck>, i: nat, ghost current: int)
    returns (ok: bool, n: nat)
    requires ValidBinary(b)
    modifies db`goose, db`table
    ensures Complete(b, p, Apply(current), old(db.State()), fate, i) ==
            Complete(b, p, if ok then ReadBack(current) else Unlock(Refused(MigrationFailed)), db.State(), fate, n)
    ensures ok ==> Pending(b.catalogue, db.goose) == []
  {
    n := i;
    while true
      invariant Complete(b, p, Apply(current), old(db.State()), fate, i)
                == Complete(b, p, Apply(current), db.State(), fate, n)
      decreases |Pending(b.catalogue, db.goose)|
    {
      var rest := Pending(b.catalogue, db.goose);
      if rest == [] {
        ok := LuckAt(fate, n).Fine?;
        n := n + 1;
        return;
      }
      PendingAdvances(b.catalogue, db.goose);
      ok := db.ApplyNext(rest[0], LuckAt(fate, n));
      n := n + 1;
      if !ok { return; }
    }
  }

  /** `validateCurrentState`: one read. */
  method ValidateCurrentState(db: Database, b: Binary, luck: Luck, current: int) returns (outcome: Outcome)
    ensures outcome == if luck.Fine? then CurrentOutcome(b, current, db.table) else Refused(StateMismatch)
    ensures outcome == Succeeded <==>
      luck.Fine? && db.table == Row(current, false) && b.window.minimum <= current <= b.window.maximum
    ensures outcome == Refused(Unsupported) <==>
      && luck.Fine? && db.table.Row? && db.table.version == current
      && (db.table.dirty || current < b.window.minimum || b.window.maximum < current)
    ensures outcome.Refused? ==> outcome.reason.StateMismatch? || outcome.reason.Unsupported?
  {
    if luck.Lost? || !db.table.Row? || db.table.version != current { return Refused(StateMismatch); }
    if ValidateSchemaState(b.window, db.table.version, db.table.dirty) != Supported { return Refused(Unsupported); }
    return Succeeded;
  }

  /** Reads the version back, holds it against the window, writes the clean row. */
  method FinalizeVersion(db: Database, p: Session, b: Binary, fate: seq<Luck>, i: nat, ghost current: int)
    returns (outcome: Outcome, n: nat)
    requires ValidBinary(b)
    modifies db`table
    ensures Complete(b, p, ReadBack(current), old(db.State()), fate, i) ==
            Complete(b, p, Unlock(outcome), db.State(), fate, n)
    ensures outcome == Succeeded <==>
      && old(db.table).Row? && b.window.minimum <= db.goose <= b.window.maximum
      && LuckAt(fate, i).Fine? && LuckAt(fate, i + 1).Fine?
    ensures outcome == Succeeded ==> db.table == Row(db.goose, false)
  {
    if LuckAt(fate, i).Lost? { return Refused(VersionUnreadable), i + 1; }
    var version := db.goose;
    if ValidateSchemaState(b.window, version, false) != Supported { return Refused(Unsupported), i + 1; }
    var rows := db.UpdateRow(Some(version), false, LuckAt(fate, i + 1));
    if rows != Some(1) { return Refused(NotFinalized), i + 2; }
    return Succeeded, i + 2;
  }

  /** Everything between taking the lock and the deferred unlock. */
  method Locked(db: Database, p: Session, b: Binary, fate: seq<Luck>) returns (outcome: Outcome, n: nat)
    requires ValidBinary(b)
    modifies db`goose, db`table
    ensures Complete(b, p, SetZone, old(db.State()), fate, 1) ==
            Complete(b, p, Unlock(outcome), db.State(), fate, n)
  {
    ghost var s := db.State();
    if LuckAt(fate, 1).Lost? { return Refused(SessionUnsafe), 2; }
    assert Complete(b, p, SetZone, s, fate, 1) == Complete(b, p, ReadZone, s, fate, 2);
    if LuckAt(fate, 2).Lost? { return Refused(SessionUnsafe), 3; }
    assert Complete(b, p, ReadZone, s, fate, 2) == Complete(b, p, SetSearchPath, s, fate, 3);
    if LuckAt(fate, 3).Lost? { return Refused(SessionUnsafe), 4; }
    assert Complete(b, p, SetSearchPath, s, fate, 3) == Complete(b, p, ReadVersion, s, fate, 4);
    if LuckAt(fate, 4).Lost? { return Refused(VersionUnreadable), 5; }
    var current := db.goose;
    if Pending(b.catalogue, current) == [] {
      assert Complete(b, p, ReadVersion, s, fate, 4) == Complete(b, p, ReadState(current), s, fate, 5);
      outcome := ValidateCurrentState(db, b, LuckAt(fate, 5), current);
      return outcome, 6;
    }
    var error: Option<Reason>;
    error, n := MarkStateDirtyIfPresent(db, p, b, fate, 5, current);
    if error.Some? { return Refused(error.value), n; }
    var ok: bool;
    ok, n := Up(db, p, b, fate, n, current);
    if !ok { return Refused(MigrationFailed), n; }
    outcome, n := FinalizeVersion(db, p, b, fate, n, current);
  }

  /** The whole run: exactly the sequence of statements that `Complete` describes. */
  method RunFS(db: Database, p: Session, b: Binary, fate: seq<Luck>) returns (outcome: Outcome)
    requires ValidBinary(b)
    modifies db
    ensures (db.State(), outcome) == Complete(b, p, TryLock, old(db.State()), fate, 0)
    ensures outcome == Succeeded ==>
      && db.table == Row(db.goose, false)
      && b.window.minimum <= db.goose <= b.window.maximum
      && Pending(b.catalogue, db.goose) == []
  {
    SuccessMeansClean(b, p, db.State(), fate);
    var ok, locked := db.TryAdvisoryLock(p, LuckAt(fate, 0));
    if !ok || !locked { return Refused(LockUnavailable); }
    var n: nat;
    outcome, n := Locked(db, p, b, fate);
    db.AdvisoryUnlock(p, LuckAt(fate, n));
  }
}
