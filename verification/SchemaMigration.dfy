/** `runFS`, one SQL statement at a time: the server it talks to, the point it has reached, and
    what a statement does when it succeeds or when its answer is lost. */
module MigrationSteps {
  import opened Options
  import opened SchemaState
  import opened Catalogues

  type Session = nat

  datatype Binary = Binary(catalogue: seq<Migration>, window: Window)

  /** What all migrators share: the advisory lock, goose's version, the state table. */
  datatype Server = Server(lock: Option<Session>, goose: int, table: Table)

  datatype Reason =
    | LockUnavailable | SessionUnsafe | VersionUnreadable | StateMismatch | Unsupported
    | StateUnreadable | NotMarkedDirty | MigrationFailed | NotFinalized

  datatype Outcome = Succeeded | Refused(reason: Reason)

  /** The next statement of a run. `current` is the version read before anything was applied. */
  datatype Pc =
    | TryLock | SetZone | ReadZone | SetSearchPath | ReadVersion
    | ReadState(current: int)
    | ProbeTable(current: int) | MarkDirty(current: int)
    | Apply(current: int)
    | ReadBack(current: int) | Finalize(current: int, version: int)
    | Unlock(outcome: Outcome)
    | Ended(outcome: Outcome)
    | Crashed

  /** A statement either runs and answers, or its answer is lost with or without the statement
      having taken effect on the server. */
  datatype Luck = Fine | Lost(effect: bool)

  ghost predicate ValidBinary(b: Binary) {
    ValidCatalogue(b.catalogue) && 0 < b.window.minimum
  }

  /** A run holds the lock from the first statement after TryLock until its unlock. */
  predicate Holding(pc: Pc) {
    !pc.TryLock? && !pc.Ended? && !pc.Crashed?
  }

  predicate Over(pc: Pc) {
    pc.Ended? || pc.Crashed?
  }

  /** A migration commits together with its goose version. The platform_init statements create the
      table and the row `(0, clean)` where they are absent. */
  function ApplyMigration(s: Server, m: Migration): Server {
    Server(s.lock, m.version, if m.createsState && !s.table.Row? then Row(0, false) else s.table)
  }

  /** `validateCurrentState`: what a run with nothing pending answers. */
  function CurrentOutcome(b: Binary, current: int, table: Table): Outcome {
    if !table.Row? || table.version != current then Refused(StateMismatch)
    else if ValidateSchemaState(b.window, table.version, table.dirty) != Supported then Refused(Unsupported)
    else Succeeded
  }

  /** One statement that runs and answers. */
  function Execute(b: Binary, p: Session, pc: Pc, s: Server): (Server, Pc) {
    match pc
    case TryLock =>
      if s.lock.None? then (s.(lock := Some(p)), SetZone) else (s, Ended(Refused(LockUnavailable)))
    case SetZone => (s, ReadZone)
    case ReadZone => (s, SetSearchPath)
    case SetSearchPath => (s, ReadVersion)
    case ReadVersion =>
      (s, if Pending(b.catalogue, s.goose) == [] then ReadState(s.goose) else ProbeTable(s.goose))
    case ReadState(current) => (s, Unlock(CurrentOutcome(b, current, s.table)))
    case ProbeTable(current) => (s, if s.table.Missing? then Apply(current) else MarkDirty(current))
    case MarkDirty(current) =>
      if s.table.Row? then (s.(table := Row(s.table.version, true)), Apply(current))
      else (s, Unlock(Refused(NotMarkedDirty)))
    case Apply(current) =>
      var rest := Pending(b.catalogue, s.goose);
      if rest == [] then (s, ReadBack(current)) else (ApplyMigration(s, rest[0]), Apply(current))
    case ReadBack(current) =>
      (s, if ValidateSchemaState(b.window, s.goose, false) == Supported then Finalize(current, s.goose)
          else Unlock(Refused(Unsupported)))
    case Finalize(current, version) =>
      if s.table.Row? then (s.(table := Row(version, false)), Unlock(Succeeded))
      else (s, Unlock(Refused(NotFinalized)))
    case Unlock(outcome) => (if s.lock == Some(p) then s.(lock := None) else s, Ended(outcome))
    case Ended(_) => (s, pc)
    case Crashed => (s, pc)
  }

  /** The error a run reports when the answer to this statement is lost. */
  function LostReason(pc: Pc): Reason {
    match pc
    case TryLock => LockUnavailable
    case SetZone => SessionUnsafe
    case ReadZone => SessionUnsafe
    case SetSearchPath => SessionUnsafe
    case ReadVersion => VersionUnreadable
    case ReadState(_) => StateMismatch
    case ProbeTable(_) => StateUnreadable
    case MarkDirty(_) => NotMarkedDirty
    case Apply(_) => MigrationFailed
    case ReadBack(_) => VersionUnreadable
    case _ => NotFinalized
  }

  /** One statement, whatever becomes of its answer. A lost lock request or unlock may leave the
      lock with the session; it is freed when the session ends. */
  function Advance(b: Binary, p: Session, pc: Pc, s: Server, luck: Luck): (Server, Pc) {
    if luck.Fine? || Over(pc) then Execute(b, p, pc, s)
    else (if luck.effect then Execute(b, p, pc, s).0 else s,
          if pc.TryLock? then Ended(Refused(LockUnavailable))
          else if pc.Unlock? then Ended(pc.outcome)
          else Unlock(Refused(LostReason(pc))))
  }

  /** This statement writes the clean row. */
  predicate Finalizes(pc: Pc, s: Server, luck: Luck) {
    pc.Finalize? && s.table.Row? && (luck.Fine? || luck.effect)
  }

  function Rank(pc: Pc): nat {
    match pc
    case TryLock => 11
    case SetZone => 10
    case ReadZone => 9
    case SetSearchPath => 8
    case ReadVersion => 7
    case ReadState(_) => 6
    case ProbeTable(_) => 6
    case MarkDirty(_) => 5
    case Apply(_) => 4
    case ReadBack(_) => 3
    case Finalize(_, _) => 2
    case Unlock(_) => 1
    case Ended(_) => 0
    case Crashed => 0
  }
}
