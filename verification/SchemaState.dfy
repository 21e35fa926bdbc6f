/** The schema-state table and the window a binary compares it with. */
module SchemaState {

  /** `public.accountable_schema_state`: absent, present without its one row, or present with it. */
  datatype Table = Missing | NoRow | Row(version: int, dirty: bool)

  /** The lowest and highest schema version compiled into a binary. */
  datatype Window = Window(minimum: int, maximum: int)

  datatype Verdict = Supported | Dirty | Behind | Ahead | Unavailable

  function ValidateSchemaState(w: Window, version: int, dirty: bool): Verdict {
    if dirty then Dirty
    else if version < w.minimum then Behind
    else if version > w.maximum then Ahead
    else Supported
  }

  /** `Database.Check` asks twice: whether the table exists, then for its row. Other sessions may
      move between the two statements, so each has its own table. */
  function Check(w: Window, atProbe: Table, atRead: Table): Verdict {
    if atProbe.Missing? then Behind
    else match atRead
      case Missing => Unavailable
      case NoRow => Behind
      case Row(version, dirty) => ValidateSchemaState(w, version, dirty)
  }

  /** Every branch of the reader, seen from its answer. */
  lemma CheckSupportedIff(w: Window, atProbe: Table, atRead: Table)
    ensures Check(w, atProbe, atRead) == Supported <==>
            !atProbe.Missing? && atRead.Row? && !atRead.dirty && w.minimum <= atRead.version <= w.maximum
  {
  }

  /** And from each answer that refuses: a schema is behind where the table or its row is not there yet or
      its version is too low, and ahead only where its version is too high. */
  lemma CheckRefusedIff(w: Window, atProbe: Table, atRead: Table)
    ensures Check(w, atProbe, atRead) == Dirty <==> !atProbe.Missing? && atRead.Row? && atRead.dirty
    ensures Check(w, atProbe, atRead) == Behind <==>
            atProbe.Missing? || atRead.NoRow? || (atRead.Row? && !atRead.dirty && atRead.version < w.minimum)
    ensures Check(w, atProbe, atRead) == Ahead <==>
            && !atProbe.Missing? && atRead.Row? && !atRead.dirty
            && w.minimum <= atRead.version && w.maximum < atRead.version
    ensures Check(w, atProbe, atRead) == Unavailable <==> !atProbe.Missing? && atRead.Missing?
  {
  }
}

/** Migration catalogues as goose walks them: ascending versions, applied one at a time. */
module Catalogues {

  /** `createsState` marks a migration that runs the platform_init statements. */
  datatype Migration = Migration(version: int, createsState: bool)

  ghost predicate ValidCatalogue(c: seq<Migration>) {
    && (forall i :: 0 <= i < |c| ==> 0 < c[i].version)
    && (forall i, j :: 0 <= i < j < |c| ==> c[i].version < c[j].version)
  }

  /** The part of an ascending catalogue above the current version. */
  function Pending(c: seq<Migration>, current: int): (rest: seq<Migration>) {
    if c == [] then []
    else if c[0].version > current then c
    else Pending(c[1..], current)
  }

  ghost predicate InCatalogue(c: seq<Migration>, version: int) {
    exists i :: 0 <= i < |c| && c[i].version == version
  }

  /** `Pending` is the filter goose describes: exactly the migrations above the current version. */
  lemma {:induction false} PendingIsFilter(c: seq<Migration>, current: int, m: Migration)
    requires ValidCatalogue(c)
    ensures m in Pending(c, current) <==> m in c && m.version > current
  {
    if c != [] && c[0].version <= current {
      PendingIsFilter(c[1..], current, m);
      assert c == [c[0]] + c[1..];
    }
  }

  lemma {:induction false} PendingIsSuffix(c: seq<Migration>, current: int)
    requires ValidCatalogue(c)
    ensures |Pending(c, current)| <= |c|
    ensures Pending(c, current) == c[|c| - |Pending(c, current)|..]
    ensures ValidCatalogue(Pending(c, current))
  {
    if c != [] && c[0].version <= current {
      PendingIsSuffix(c[1..], current);
    }
  }

  /** Applying the first pending migration leaves the others pending. */
  lemma {:induction false} PendingAdvances(c: seq<Migration>, current: int)
    requires ValidCatalogue(c) && Pending(c, current) != []
    ensures var rest := Pending(c, current);
            rest[0].version > current && rest[0] in c && Pending(c, rest[0].version) == rest[1..]
  {
    if c[0].version > current {
      assert c[0].version <= c[0].version;
      if |c| > 1 { assert c[1].version > c[0].version; }
    } else {
      PendingAdvances(c[1..], current);
    }
  }

  /** Nothing is pending exactly when the current version has reached the last one. */
  lemma {:induction false} PendingEmptyIff(c: seq<Migration>, current: int)
    requires ValidCatalogue(c) && c != []
    ensures Pending(c, current) == [] <==> c[|c| - 1].version <= current
  {
    if c[0].version <= current && |c| > 1 {
      PendingEmptyIff(c[1..], current);
    }
  }
}
