/** `mergeSources`: the migration files of every owner, in one tree. */
module MigrationFiles {
  import opened Options
  import opened StringOrder
  import opened Catalogues

  type Bytes = seq<bv8>

  /** A directory entry; a file may turn out not to be readable. */
  datatype Entry = Entry(name: string, isDir: bool, content: Option<Bytes>)

  /** An owner's tree, if it can be listed. */
  datatype Source = Source(owner: string, entries: Option<seq<Entry>>)

  datatype Refusal =
    | CannotList(owner: string)
    | BadName(owner: string, name: string)
    | VersionClash(version: string, owner: string)
    | NameClash(name: string, owner: string)
    | CannotRead(owner: string, name: string)

  // ---- the file name contract ----

  predicate IsDigit(c: char) { '0' <= c <= '9' }

  predicate IsLower(c: char) { 'a' <= c <= 'z' || IsDigit(c) }

  predicate AllDigits(s: string) {
    forall i :: 0 <= i < |s| ==> IsDigit(s[i])
  }

  predicate AllLower(s: string) {
    forall i :: 0 <= i < |s| ==> IsLower(s[i])
  }

  predicate AllLowerOrBar(s: string) {
    forall i :: 0 <= i < |s| ==> IsLower(s[i]) || s[i] == '_'
  }

  const DIGITS := 14

  /** Fourteen digits, a bar, an owner without bars, a bar, a title, and the suffix. */
  predicate Matches(name: string) {
    && |name| > DIGITS + 1 + 4
    && AllDigits(name[..DIGITS])
    && name[DIGITS] == '_'
    && name[|name| - 4..] == ".sql"
    && TwoParts(name[DIGITS + 1..|name| - 4])
  }

  predicate TwoParts(body: string) {
    exists k :: 0 < k < |body| - 1 && body[k] == '_' && AllLower(body[..k]) && AllLowerOrBar(body[k + 1..])
  }

  function Version(name: string): string
    requires Matches(name)
  {
    name[..DIGITS]
  }

  /** The name as the pattern reads it: a version of fourteen digits, an owner, a title. */
  ghost predicate Spells(name: string, version: string, owner: string, title: string) {
    && name == version + "_" + owner + "_" + title + ".sql"
    && |version| == 14 && (forall i :: 0 <= i < |version| ==> '0' <= version[i] <= '9')
    && owner != "" && (forall i :: 0 <= i < |owner| ==> 'a' <= owner[i] <= 'z' || '0' <= owner[i] <= '9')
    && title != ""
    && (forall i :: 0 <= i < |title| ==> 'a' <= title[i] <= 'z' || '0' <= title[i] <= '9' || title[i] == '_')
  }

  lemma MatchesExact(name: string)
    ensures Matches(name) <==> exists version, owner, title :: Spells(name, version, owner, title)
  {
    hide Matches, Spells;
    if Matches(name) {
      var version, owner, title := PartsOf(name);
    }
    if version, owner, title :| Spells(name, version, owner, title) {
      VersionExact(name, version, owner, title);
    }
  }

  lemma PartsOf(name: string) returns (version: string, owner: string, title: string)
    requires Matches(name)
    ensures Spells(name, version, owner, title)
  {
    hide Spells, TwoParts;
    version := name[..14];
    owner, title := BodyParts(name[15..|name| - 4]);
    NameParts(name, version, owner, title);
    SpellsParts(name, version, owner, title);
  }

  lemma BodyParts(body: string) returns (owner: string, title: string)
    requires TwoParts(body)
    ensures body == owner + "_" + title && owner != "" && AllLower(owner) && title != "" && AllLowerOrBar(title)
  {
    var k :| 0 < k < |body| - 1 && body[k] == '_' && AllLower(body[..k]) && AllLowerOrBar(body[k + 1..]);
    owner, title := body[..k], body[k + 1..];
    assert body == owner + "_" + title;
  }

  lemma SpellsParts(name: string, version: string, owner: string, title: string)
    requires name == version + "_" + owner + "_" + title + ".sql"
    requires |version| == 14 && AllDigits(version)
    requires owner != "" && AllLower(owner) && title != "" && AllLowerOrBar(title)
    ensures Spells(name, version, owner, title)
  {
  }

  lemma NameParts(name: string, version: string, owner: string, title: string)
    requires |name| >= 19 && name[..14] == version && name[14] == '_' && name[|name| - 4..] == ".sql"
    requires name[15..|name| - 4] == owner + "_" + title
    ensures name == version + "_" + owner + "_" + title + ".sql"
  {
    assert name == name[..14] + [name[14]] + name[15..|name| - 4] + name[|name| - 4..];
  }

  lemma VersionExact(name: string, version: string, owner: string, title: string)
    requires Spells(name, version, owner, title)
    ensures Matches(name) && Version(name) == version
  {
    var body := owner + "_" + title;
    assert name == version + "_" + body + ".sql";
    assert name[..14] == version && name[14] == '_' && name[|name| - 4..] == ".sql";
    assert name[15..|name| - 4] == body;
    assert body[..|owner|] == owner && body[|owner|] == '_' && body[|owner| + 1..] == title;
  }

  // ---- what the loops meet, in order ----

  datatype Item = Listing(owner: string) | File(owner: string, name: string, content: Option<Bytes>)

  function FileItems(owner: string, entries: seq<Entry>): seq<Item> {
    if entries == [] then []
    else
      var last := entries[|entries| - 1];
      FileItems(owner, entries[..|entries| - 1])
      + if last.isDir then [] else [File(owner, last.name, last.content)]
  }

  function SourceItems(source: Source): seq<Item> {
    if source.entries.None? then [Listing(source.owner)] else FileItems(source.owner, source.entries.value)
  }

  function Items(sources: seq<Source>): seq<Item> {
    if sources == [] then []
    else Items(sources[..|sources| - 1]) + SourceItems(sources[|sources| - 1])
  }

  predicate Usable(item: Item) {
    item.File? && Matches(item.name) && item.content.Some?
  }

  predicate HasVersion(item: Item, version: string) {
    item.File? && Matches(item.name) && Version(item.name) == version
  }

  predicate Taken(seen: seq<Item>, version: string) {
    exists j :: 0 <= j < |seen| && HasVersion(seen[j], version)
  }

  /** This item can be merged behind those already seen. */
  predicate Fits(seen: seq<Item>, item: Item) {
    Usable(item) && !Taken(seen, Version(item.name))
  }

  predicate AllFit(items: seq<Item>) {
    items == [] || (AllFit(items[..|items| - 1]) && Fits(items[..|items| - 1], items[|items| - 1]))
  }

  /** What is said about the first item that does not fit. A shared name is never what is said. */
  function Blame(seen: seq<Item>, item: Item): (r: Refusal)
    requires !Fits(seen, item)
    ensures !r.NameClash?
  {
    if item.Listing? then CannotList(item.owner)
    else if !Matches(item.name) then BadName(item.owner, item.name)
    else if Taken(seen, Version(item.name)) then VersionClash(Version(item.name), item.owner)
    else CannotRead(item.owner, item.name)
  }

  /** Which test each refusal is about, and that a later test is reached only past the earlier ones. */
  lemma BlameTells(seen: seq<Item>, item: Item)
    requires !Fits(seen, item)
    ensures var r := Blame(seen, item);
            match item
            case Listing(owner) => r == CannotList(owner)
            case File(owner, name, content) =>
              && (r == BadName(owner, name) <==> !Matches(name))
              && (Matches(name) ==>
                    (r == VersionClash(Version(name), owner) <==>
                     exists j :: 0 <= j < |seen| && HasVersion(seen[j], Version(name))))
              && (r == CannotRead(owner, name) <==> Matches(name) && !Taken(seen, Version(name)))
              && (r.CannotRead? ==> content.None?)
  {
    hide Matches, Version;
  }

  ghost predicate Blamed(items: seq<Item>, i: nat, r: Refusal)
    requires i < |items|
  {
    AllFit(items[..i]) && !Fits(items[..i], items[i]) && r == Blame(items[..i], items[i])
  }

  /** Where the loops stand: `files` is the tree so far. */
  datatype Tables = Tables(files: map<string, Bytes>, owners: map<string, string>, versions: map<string, string>)

  ghost predicate Named(item: Item, name: string) {
    item.File? && item.name == name
  }

  /** Every file once, with its own bytes, and nothing else. */
  ghost predicate Holds(files: map<string, Bytes>, items: seq<Item>) {
    && (forall i :: 0 <= i < |items| && Usable(items[i]) ==>
          items[i].name in files && files[items[i].name] == items[i].content.value)
    && (forall name :: name in files ==> exists i :: 0 <= i < |items| && Named(items[i], name))
  }

  ghost predicate Stands(t: Tables, seen: seq<Item>) {
    && AllFit(seen)
    && Holds(t.files, seen)
    && t.owners.Keys == t.files.Keys
    && (forall v :: v in t.versions <==> Taken(seen, v))
  }

  lemma {:induction false} FittingIsUsable(items: seq<Item>, i: nat)
    requires AllFit(items) && i < |items|
    ensures Usable(items[i])
  {
    if i < |items| - 1 { FittingIsUsable(items[..|items| - 1], i); }
  }

  /** A name that is taken means that its version is taken: the test of the name cannot fail once the
      test of the version has passed. */
  lemma TakenNameTakenVersion(t: Tables, seen: seq<Item>, name: string)
    requires Stands(t, seen) && Matches(name) && name in t.owners
    ensures Version(name) in t.versions
  {
    var i :| 0 <= i < |seen| && Named(seen[i], name);
    FittingIsUsable(seen, i);
    assert HasVersion(seen[i], Version(name));
  }

  lemma OneMoreStands(t: Tables, seen: seq<Item>, item: Item, t': Tables)
    requires Stands(t, seen) && Fits(seen, item) && item.name !in t.owners
    requires t'.files == t.files[item.name := item.content.value]
    requires t'.owners.Keys == t.owners.Keys + {item.name} && t'.versions.Keys == t.versions.Keys + {Version(item.name)}
    ensures Stands(t', seen + [item])
  {
    var more := seen + [item];
    assert more[..|seen|] == seen;
    forall v ensures Taken(more, v) <==> Taken(seen, v) || v == Version(item.name) {
      TakenMore(seen, item, v);
    }
    HoldsMore(t.files, seen, item);
  }

  lemma TakenMore(seen: seq<Item>, item: Item, v: string)
    ensures Taken(seen + [item], v) <==> Taken(seen, v) || HasVersion(item, v)
  {
    var more := seen + [item];
    if j :| 0 <= j < |seen| && HasVersion(seen[j], v) { assert HasVersion(more[j], v); }
    if HasVersion(item, v) { assert HasVersion(more[|seen|], v); }
  }

  lemma HoldsMore(files: map<string, Bytes>, seen: seq<Item>, item: Item)
    requires Holds(files, seen) && Usable(item) && item.name !in files
    ensures Holds(files[item.name := item.content.value], seen + [item])
  {
    var more := seen + [item];
    var files' := files[item.name := item.content.value];
    forall name | name in files' ensures exists i :: 0 <= i < |more| && Named(more[i], name) {
      if name == item.name {
        assert Named(more[|seen|], name);
      } else {
        var i :| 0 <= i < |seen| && Named(seen[i], name);
        assert Named(more[i], name);
      }
    }
  }

  /** The tests of one file, in the source's order, and its entry in the tables. */
  method MergeFile(t: Tables, owner: string, entry: Entry, ghost seen: seq<Item>) returns (r: Result<Tables, Refusal>)
    requires Stands(t, seen)
    ensures var item := File(owner, entry.name, entry.content);
            && (r.Ok? <==> Fits(seen, item))
            && (r.Ok? ==> Stands(r.value, seen + [item]))
            && (r.Err? ==> r.error == Blame(seen, item))
  {
    var name := entry.name;
    if !Matches(name) { return Err(BadName(owner, name)); }
    var version := Version(name);
    if name in t.owners { TakenNameTakenVersion(t, seen, name); }
    var refusal :=
      if version in t.versions then Some(VersionClash(version, owner))
      else if name in t.owners then Some(NameClash(name, owner))
      else if entry.content.None? then Some(CannotRead(owner, name))
      else None;
    if refusal.Some? { return Err(refusal.value); }
    var t' := Tables(t.files[name := entry.content.value], t.owners[name := owner],
        t.versions[version := owner + "/" + name]);
    OneMoreStands(t, seen, File(owner, name, entry.content), t');
    return Ok(t');
  }

  lemma ItemsOn(sources: seq<Source>, i: nat)
    requires i < |sources|
    ensures Items(sources[..i + 1]) == Items(sources[..i]) + SourceItems(sources[i])
  {
    assert sources[..i + 1][..i] == sources[..i];
  }

  /** The refusal is what is said about the first item that does not fit. */
  ghost predicate Refused(items: seq<Item>, r: Refusal) {
    exists i :: 0 <= i < |items| && Blamed(items, i, r)
  }

  /** One owner's directory. */
  method MergeSource(t: Tables, source: Source, ghost seen: seq<Item>) returns (r: Result<Tables, Refusal>)
    requires Stands(t, seen)
    ensures r.Ok? ==> Stands(r.value, seen + SourceItems(source))
    ensures r.Err? ==> Refused(seen + SourceItems(source), r.error)
  {
    if source.entries.None? {
      BlamedLater(seen, Listing(source.owner), []);
      assert seen + [Listing(source.owner)] + [] == seen + SourceItems(source);
      return Err(CannotList(source.owner));
    }
    var entries := source.entries.value;
    assert seen + SourceFront(source, 0) == seen;
    hide Stands, SourceFront, Refused, Fits, Blame;
    var now := t;
    for j := 0 to |entries|
      invariant Stands(now, seen + SourceFront(source, j))
    {
      SourceOn(seen, source, j);
      if entries[j].isDir { continue; }
      var next := MergeFile(now, source.owner, entries[j], seen + SourceFront(source, j));
      if next.Err? {
        SourceRefused(now, seen, source, j);
        return next;
      }
      now := next.value;
    }
    WholeSource(source);
    return Ok(now);
  }

  ghost function SourceFront(source: Source, j: nat): seq<Item>
    requires source.entries.Some? && j <= |source.entries.value|
  {
    FileItems(source.owner, source.entries.value[..j])
  }

  ghost function ItemAt(source: Source, j: nat): Item
    requires source.entries.Some? && j < |source.entries.value|
  {
    File(source.owner, source.entries.value[j].name, source.entries.value[j].content)
  }

  lemma WholeSource(source: Source)
    requires source.entries.Some?
    ensures SourceFront(source, |source.entries.value|) == SourceItems(source)
  {
    assert source.entries.value[..|source.entries.value|] == source.entries.value;
  }

  lemma SourceOn(seen: seq<Item>, source: Source, j: nat)
    requires source.entries.Some? && j < |source.entries.value|
    ensures seen + SourceFront(source, j + 1)
         == if source.entries.value[j].isDir then seen + SourceFront(source, j)
             else seen + SourceFront(source, j) + [ItemAt(source, j)]
  {
    var entries := source.entries.value;
    assert entries[..j + 1][..j] == entries[..j];
  }

  lemma SourceRefused(t: Tables, seen: seq<Item>, source: Source, j: nat)
    requires source.entries.Some? && j < |source.entries.value| && !source.entries.value[j].isDir
    requires Stands(t, seen + SourceFront(source, j)) && !Fits(seen + SourceFront(source, j), ItemAt(source, j))
    ensures Refused(seen + SourceItems(source), Blame(seen + SourceFront(source, j), ItemAt(source, j)))
  {
    hide Fits, Blame, AllFit, Refused, Matches, Taken, Usable;
    var entries := source.entries.value;
    var rest := FilesFrom(source.owner, entries, j + 1);
    SourceOn(seen, source, j);
    BlamedLater(seen + SourceFront(source, j), ItemAt(source, j), rest);
    assert seen + (SourceFront(source, j + 1) + rest) == (seen + SourceFront(source, j + 1)) + rest;
  }

  lemma BlamedLater(seen: seq<Item>, item: Item, rest: seq<Item>)
    requires AllFit(seen) && !Fits(seen, item)
    ensures Refused(seen + [item] + rest, Blame(seen, item))
  {
    var items := seen + [item] + rest;
    assert items[..|seen|] == seen && items[|seen|] == item;
    assert Blamed(items, |seen|, Blame(seen, item));
  }

  lemma RefusedLater(front: seq<Item>, rest: seq<Item>, r: Refusal)
    requires Refused(front, r)
    ensures Refused(front + rest, r)
  {
    hide Fits, Blame, AllFit;
    var k :| 0 <= k < |front| && Blamed(front, k, r);
    assert (front + rest)[..k] == front[..k];
    assert Blamed(front + rest, k, r);
  }

  lemma {:induction false} FilesFrom(owner: string, entries: seq<Entry>, j: nat) returns (rest: seq<Item>)
    requires j <= |entries|
    ensures FileItems(owner, entries) == FileItems(owner, entries[..j]) + rest
    decreases |entries|
  {
    if j == |entries| {
      assert entries[..j] == entries;
      rest := [];
    } else {
      var front := entries[..|entries| - 1];
      var r := FilesFrom(owner, front, j);
      assert front[..j] == entries[..j];
      var last := entries[|entries| - 1];
      rest := r + if last.isDir then [] else [File(owner, last.name, last.content)];
    }
  }

  lemma {:induction false} ItemsFrom(sources: seq<Source>, n: nat) returns (rest: seq<Item>)
    requires n <= |sources|
    ensures Items(sources) == Items(sources[..n]) + rest
    decreases |sources|
  {
    hide SourceItems;
    if n == |sources| {
      assert sources[..n] == sources;
      rest := [];
    } else {
      var front := sources[..|sources| - 1];
      var r := ItemsFrom(front, n);
      assert front[..n] == sources[..n];
      rest := r + SourceItems(sources[|sources| - 1]);
    }
  }

  // ---- what success means ----

  /** Every tree can be listed, every file name meets the contract, every file can be read, and no
      two files, of one owner or of two, have one version. */
  ghost predicate Mergeable(items: seq<Item>) {
    && (forall i :: 0 <= i < |items| ==> Usable(items[i]))
    && (forall i, j :: 0 <= i < j < |items| && Usable(items[i]) && Usable(items[j]) ==>
          Version(items[i].name) != Version(items[j].name))
  }

  lemma {:induction false} AllFitIff(items: seq<Item>)
    ensures AllFit(items) <==> Mergeable(items)
  {
    if items != [] {
      var front, last := items[..|items| - 1], items[|items| - 1];
      AllFitIff(front);
      assert items == front + [last];
      if Usable(last) && Taken(front, Version(last.name)) {
        var j :| 0 <= j < |front| && HasVersion(front[j], Version(last.name));
        assert items[j] == front[j];
      }
      if Mergeable(items) {
        assert forall i :: 0 <= i < |front| ==> front[i] == items[i];
      }
      if Mergeable(front) && Fits(front, last) {
        forall i, j | 0 <= i < j < |items| ensures Version(items[i].name) != Version(items[j].name) {
          if j == |items| - 1 { assert !HasVersion(front[i], Version(last.name)); }
        }
      }
    }
  }

  // The same of the sources themselves.

  predicate IsFile(entries: seq<Entry>, j: int) {
    0 <= j < |entries| && !entries[j].isDir
  }

  /** The files are well named and readable, no two of one version. */
  ghost predicate CleanEntries(entries: seq<Entry>) {
    && (forall j :: IsFile(entries, j) ==> Matches(entries[j].name) && entries[j].content.Some?)
    && (forall j, k :: IsFile(entries, j) && IsFile(entries, k) && j < k ==> DifferentVersions(entries[j], entries[k]))
  }

  ghost predicate CleanSource(source: Source) {
    source.entries.Some? && CleanEntries(source.entries.value)
  }

  ghost predicate DifferentVersions(a: Entry, b: Entry) {
    Matches(a.name) && Matches(b.name) ==> Version(a.name) != Version(b.name)
  }

  ghost predicate SourcesApart(a: Source, b: Source) {
    a.entries.Some? && b.entries.Some? ==>
      forall j, k :: IsFile(a.entries.value, j) && IsFile(b.entries.value, k) ==>
        DifferentVersions(a.entries.value[j], b.entries.value[k])
  }

  ghost predicate CleanSources(sources: seq<Source>) {
    && (forall i :: 0 <= i < |sources| ==> CleanSource(sources[i]))
    && (forall i, k :: 0 <= i < k < |sources| ==> SourcesApart(sources[i], sources[k]))
  }

  ghost predicate FileOf(source: Source, name: string, content: Option<Bytes>) {
    source.entries.Some? &&
    exists j :: IsFile(source.entries.value, j) && source.entries.value[j].name == name
                && source.entries.value[j].content == content
  }

  /** The tree holds the sources' files, each with its bytes, and nothing else. */
  ghost predicate Merged(files: map<string, Bytes>, sources: seq<Source>) {
    forall name: string, content: Bytes ::
      name in files && files[name] == content <==>
      exists i :: 0 <= i < |sources| && FileOf(sources[i], name, Some(content))
  }

  ghost predicate Apart(a: seq<Item>, b: seq<Item>) {
    forall x, y :: x in a && y in b && Usable(x) && Usable(y) ==> Version(x.name) != Version(y.name)
  }

  lemma MergeableJoin(a: seq<Item>, b: seq<Item>)
    ensures Mergeable(a + b) <==> Mergeable(a) && Mergeable(b) && Apart(a, b)
  {
    hide Matches, Version;
    var all := a + b;
    assert forall i :: 0 <= i < |a| ==> all[i] == a[i];
    assert forall i :: 0 <= i < |b| ==> all[|a| + i] == b[i];
  }

  lemma {:induction false} FileItemsHold(owner: string, entries: seq<Entry>, x: Item)
    ensures x in FileItems(owner, entries) <==>
            exists j :: IsFile(entries, j) && x == File(owner, entries[j].name, entries[j].content)
  {
    if entries != [] {
      var front, n := entries[..|entries| - 1], |entries| - 1;
      FileItemsHold(owner, front, x);
      var last := if entries[n].isDir then [] else [File(owner, entries[n].name, entries[n].content)];
      assert FileItems(owner, entries) == FileItems(owner, front) + last;
      hide FileItems;
      assert x in FileItems(owner, entries) <==> x in FileItems(owner, front) || x in last;
      assert forall j :: 0 <= j < n ==> front[j] == entries[j];
      assert forall j :: IsFile(front, j) <==> IsFile(entries, j) && j < n;
    }
  }

  lemma {:induction false} CleanEntriesIff(owner: string, entries: seq<Entry>)
    ensures Mergeable(FileItems(owner, entries)) <==> CleanEntries(entries)
  {
    if entries != [] {
      var front, n := entries[..|entries| - 1], |entries| - 1;
      var last := File(owner, entries[n].name, entries[n].content);
      CleanEntriesIff(owner, front);
      CleanMore(entries);
      assert FileItems(owner, entries) == FileItems(owner, front) + if entries[n].isDir then [] else [last];
      assert FileItems(owner, front) + [] == FileItems(owner, front);
      hide Matches, Version, CleanEntries, DifferentVersions, Apart;
      if !entries[n].isDir {
        MergeableJoin(FileItems(owner, front), [last]);
        MergeableOne(last);
        hide Mergeable;
        if CleanEntries(front) { ApartFromLast(owner, front, entries[n]); }
      }
    }
  }

  lemma MergeableOne(item: Item)
    ensures Mergeable([item]) <==> Usable(item)
  {
    hide Matches;
    assert [item][0] == item;
  }

  lemma CleanMore(entries: seq<Entry>)
    requires entries != []
    ensures var front, last := entries[..|entries| - 1], entries[|entries| - 1];
            CleanEntries(entries) <==>
              && CleanEntries(front)
              && (last.isDir || (&& Matches(last.name) && last.content.Some?
                                 && forall j :: IsFile(front, j) ==> DifferentVersions(front[j], last)))
  {
    hide Matches, Version, DifferentVersions;
    var front, n := entries[..|entries| - 1], |entries| - 1;
    assert forall j :: 0 <= j < n ==> front[j] == entries[j];
    assert forall j :: IsFile(front, j) <==> IsFile(entries, j) && j < n;
  }

  lemma ApartFromLast(owner: string, front: seq<Entry>, last: Entry)
    requires CleanEntries(front)
    ensures var item := File(owner, last.name, last.content);
            Usable(item) ==>
              (Apart(FileItems(owner, front), [item]) <==>
               forall j :: IsFile(front, j) ==> DifferentVersions(front[j], last))
  {
    hide Matches, Version;
    var item := File(owner, last.name, last.content);
    forall j | IsFile(front, j)
      ensures File(owner, front[j].name, front[j].content) in FileItems(owner, front)
    {
      FileItemsHold(owner, front, File(owner, front[j].name, front[j].content));
    }
    forall x | x in FileItems(owner, front)
      ensures exists j :: IsFile(front, j) && x == File(owner, front[j].name, front[j].content)
    {
      FileItemsHold(owner, front, x);
    }
    assert item in [item];
  }

  lemma CleanSourceIff(source: Source)
    ensures Mergeable(SourceItems(source)) <==> CleanSource(source)
  {
    if source.entries.Some? {
      CleanEntriesIff(source.owner, source.entries.value);
    } else {
      assert !Usable(SourceItems(source)[0]);
    }
  }

  lemma SourceItemsHold(source: Source, x: Item)
    requires source.entries.Some?
    ensures x in SourceItems(source) <==>
            exists j :: IsFile(source.entries.value, j)
                        && x == File(source.owner, source.entries.value[j].name, source.entries.value[j].content)
  {
    FileItemsHold(source.owner, source.entries.value, x);
  }

  lemma ApartIff(a: Source, b: Source)
    requires CleanSource(a) && CleanSource(b)
    ensures Apart(SourceItems(a), SourceItems(b)) <==> SourcesApart(a, b)
  {
    hide Matches, Version, SourceItems;
    forall x { SourceItemsHold(a, x); }
    forall x { SourceItemsHold(b, x); }
    if Apart(SourceItems(a), SourceItems(b)) {
      forall j, k | IsFile(a.entries.value, j) && IsFile(b.entries.value, k)
        ensures DifferentVersions(a.entries.value[j], b.entries.value[k])
      {
        var e, f := a.entries.value[j], b.entries.value[k];
        assert File(a.owner, e.name, e.content) in SourceItems(a) && File(b.owner, f.name, f.content) in SourceItems(b);
      }
    }
  }

  lemma {:induction false} ItemsHold(sources: seq<Source>, x: Item)
    ensures x in Items(sources) <==> exists i :: 0 <= i < |sources| && x in SourceItems(sources[i])
  {
    hide SourceItems;
    if sources != [] {
      var front, n := sources[..|sources| - 1], |sources| - 1;
      ItemsHold(front, x);
      assert forall i :: 0 <= i < n ==> front[i] == sources[i];
    }
  }

  lemma ApartFromAll(front: seq<Source>, b: seq<Item>)
    ensures Apart(Items(front), b) <==> forall i :: 0 <= i < |front| ==> Apart(SourceItems(front[i]), b)
  {
    hide SourceItems, Matches, Version, Usable;
    forall x { ItemsHold(front, x); }
  }

  /** The items can be merged exactly when the sources are clean. */
  lemma {:induction false} CleanSourcesIff(sources: seq<Source>)
    ensures Mergeable(Items(sources)) <==> CleanSources(sources)
  {
    if sources != [] {
      var front, n := sources[..|sources| - 1], |sources| - 1;
      CleanSourcesIff(front);
      CleanSourceIff(sources[n]);
      CleanSourcesMore(sources);
      MergeableJoin(Items(front), SourceItems(sources[n]));
      ApartFromAll(front, SourceItems(sources[n]));
      hide SourceItems, Matches, Version, Mergeable, CleanSource, CleanSources, SourcesApart, Apart;
      if CleanSources(front) && CleanSource(sources[n]) {
        ApartFromClean(front, sources[n]);
      }
    }
  }

  lemma CleanSourcesMore(sources: seq<Source>)
    requires sources != []
    ensures var front, last := sources[..|sources| - 1], sources[|sources| - 1];
            CleanSources(sources) <==>
              && CleanSources(front) && CleanSource(last)
              && forall i :: 0 <= i < |front| ==> SourcesApart(front[i], last)
  {
    hide CleanSource, SourcesApart;
    var front, n := sources[..|sources| - 1], |sources| - 1;
    assert forall i :: 0 <= i < n ==> front[i] == sources[i];
  }

  lemma ApartFromClean(front: seq<Source>, last: Source)
    requires CleanSources(front) && CleanSource(last)
    ensures (forall i :: 0 <= i < |front| ==> Apart(SourceItems(front[i]), SourceItems(last)))
       <==> (forall i :: 0 <= i < |front| ==> SourcesApart(front[i], last))
  {
    hide CleanSource, SourcesApart, SourceItems, Apart;
    forall i | 0 <= i < |front|
      ensures Apart(SourceItems(front[i]), SourceItems(last)) <==> SourcesApart(front[i], last)
    {
      ApartIff(front[i], last);
    }
  }

  lemma HoldsIsMerged(files: map<string, Bytes>, sources: seq<Source>)
    requires Holds(files, Items(sources)) && Mergeable(Items(sources)) && CleanSources(sources)
    ensures Merged(files, sources)
  {
    hide SourceItems, Matches, Version, Items;
    var items := Items(sources);
    forall name: string, content: Bytes
      ensures name in files && files[name] == content
         <==> exists i :: 0 <= i < |sources| && FileOf(sources[i], name, Some(content))
    {
      if name in files && files[name] == content {
        var k :| 0 <= k < |items| && Named(items[k], name);
        assert Usable(items[k]);
        ItemsHold(sources, items[k]);
        var i :| 0 <= i < |sources| && items[k] in SourceItems(sources[i]);
        assert CleanSource(sources[i]);
        SourceItemsHold(sources[i], items[k]);
        assert FileOf(sources[i], name, Some(content));
      }
      if i :| 0 <= i < |sources| && FileOf(sources[i], name, Some(content)) {
        var j :| IsFile(sources[i].entries.value, j) && sources[i].entries.value[j].name == name
                 && sources[i].entries.value[j].content == Some(content);
        var x := File(sources[i].owner, name, Some(content));
        SourceItemsHold(sources[i], x);
        ItemsHold(sources, x);
        var k :| 0 <= k < |items| && items[k] == x;
      }
    }
  }

  /** A refusal of some kind fits exactly the sources that cannot be merged, and none ever speaks of a
      shared name. */
  lemma RefusedIff(items: seq<Item>)
    ensures (exists r :: Refused(items, r)) <==> !Mergeable(items)
    ensures forall r :: Refused(items, r) ==> !r.NameClash?
  {
    AllFitIff(items);
    if r :| Refused(items, r) {
      var i :| 0 <= i < |items| && Blamed(items, i, r);
      FrontFits(items, i + 1);
      assert items[..i + 1][..i] == items[..i];
    }
    if !Mergeable(items) {
      var i := FirstMisfit(items);
      var r := Blame(items[..i], items[i]);
      assert Blamed(items, i, r);
      assert Refused(items, r);
    }
  }

  lemma {:induction false} FirstMisfit(items: seq<Item>) returns (i: nat)
    requires !AllFit(items)
    ensures i < |items| && AllFit(items[..i]) && !Fits(items[..i], items[i])
    decreases |items|
  {
    var front := items[..|items| - 1];
    if AllFit(front) {
      i := |items| - 1;
    } else {
      i := FirstMisfit(front);
      assert front[..i] == items[..i];
    }
  }

  lemma {:induction false} FrontFits(items: seq<Item>, n: nat)
    requires n <= |items|
    ensures AllFit(items) ==> AllFit(items[..n])
    decreases |items|
  {
    if n < |items| {
      FrontFits(items[..|items| - 1], n);
      assert items[..|items| - 1][..n] == items[..n];
    } else {
      assert items[..n] == items;
    }
  }

  lemma NothingStands(t: Tables)
    requires t.files == map[] && t.owners == map[] && t.versions == map[]
    ensures Stands(t, [])
  {
  }

  method MergeSources(sources: seq<Source>) returns (r: Result<map<string, Bytes>, Refusal>)
    ensures r.Ok? <==> CleanSources(sources)
    ensures r.Ok? ==> Merged(r.value, sources)
    ensures r.Err? ==> !r.error.NameClash?
    ensures r.Err? ==> Refused(Items(sources), r.error)
  {
    hide SourceItems, Fits, Holds, Mergeable, Refused, Matches, Taken, Usable, CleanSources, Merged;
    var t := Tables(map[], map[], map[]);
    NothingStands(t);
    for i := 0 to |sources|
      invariant Stands(t, Items(sources[..i]))
    {
      ItemsOn(sources, i);
      var next := MergeSource(t, sources[i], Items(sources[..i]));
      if next.Err? {
        ghost var rest := ItemsFrom(sources, i + 1);
        RefusedLater(Items(sources[..i + 1]), rest, next.error);
        RefusedIff(Items(sources));
        CleanSourcesIff(sources);
        return Err(next.error);
      }
      t := next.value;
    }
    assert sources[..|sources|] == sources;
    AllFitIff(Items(sources));
    CleanSourcesIff(sources);
    HoldsIsMerged(t.files, sources);
    return Ok(t.files);
  }

  // ---- file order ----

  function Number(digits: string): nat
    requires AllDigits(digits)
  {
    if digits == "" then 0
    else 10 * Number(digits[..|digits| - 1]) + (digits[|digits| - 1] - '0') as nat
  }

  lemma OneMoreDigit(digits: string, c: char)
    requires AllDigits(digits) && IsDigit(c)
    ensures AllDigits(digits + [c]) && Number(digits + [c]) == 10 * Number(digits) + (c - '0') as nat
  {
    var longer := digits + [c];
    assert longer[..|longer| - 1] == digits;
  }

  /** Comparing strings of one length is comparing their fronts, and then their ends. */
  lemma {:induction false} LessByEnd(a: string, b: string)
    requires |a| == |b| > 0
    ensures var n := |a| - 1;
            Less(a, b) <==> Less(a[..n], b[..n]) || (a[..n] == b[..n] && a[n] < b[n])
  {
    var n := |a| - 1;
    if n == 0 {
      assert a[..0] == b[..0] == "";
    } else {
      LessByEnd(a[1..], b[1..]);
      assert a[1..][..n - 1] == a[..n][1..] && b[1..][..n - 1] == b[..n][1..];
      assert a[..n] == [a[0]] + a[..n][1..] && b[..n] == [b[0]] + b[..n][1..];
    }
  }

  lemma {:induction false} DigitsInOrder(a: string, b: string)
    requires |a| == |b| && AllDigits(a) && AllDigits(b)
    ensures Less(a, b) <==> Number(a) < Number(b)
    ensures a == b <==> Number(a) == Number(b)
  {
    if a != "" {
      var n := |a| - 1;
      DigitsInOrder(a[..n], b[..n]);
      LessByEnd(a, b);
      assert a == a[..n] + [a[n]] && b == b[..n] + [b[n]];
    }
  }

  lemma {:induction false} LessByFront(a: string, b: string, n: nat)
    requires n <= |a| && n <= |b| && a[..n] != b[..n]
    ensures Less(a, b) <==> Less(a[..n], b[..n])
  {
    if a[0] == b[0] {
      assert a[..n] == [a[0]] + a[1..][..n - 1] && b[..n] == [b[0]] + b[1..][..n - 1];
      LessByFront(a[1..], b[1..], n - 1);
      assert a[..n][1..] == a[1..][..n - 1] && b[..n][1..] == b[1..][..n - 1];
    }
  }

  /** Files with different versions come in the same order by name as by the number of the version. */
  lemma NamesInVersionOrder(a: string, b: string)
    requires Matches(a) && Matches(b) && Version(a) != Version(b)
    ensures Less(a, b) <==> Number(Version(a)) < Number(Version(b))
  {
    LessByFront(a, b, DIGITS);
    DigitsInOrder(Version(a), Version(b));
  }

  /** The migrations goose finds in the merged tree, listed by name. */
  function CatalogueOf(names: seq<string>, createsState: string -> bool): seq<Migration>
    requires forall i :: 0 <= i < |names| ==> Matches(names[i])
  {
    seq(|names|, i requires 0 <= i < |names| => Migration(Number(Version(names[i])), createsState(names[i])))
  }

  /** Listed by name, merged files with positive versions are a catalogue as the migrators need it:
      each version above the one before. */
  lemma SortedNamesAreACatalogue(names: seq<string>, createsState: string -> bool)
    requires forall i :: 0 <= i < |names| ==> Matches(names[i]) && Number(Version(names[i])) > 0
    requires forall i, j :: 0 <= i < j < |names| ==> Less(names[i], names[j]) && Version(names[i]) != Version(names[j])
    ensures ValidCatalogue(CatalogueOf(names, createsState))
  {
    forall i, j | 0 <= i < j < |names| ensures Number(Version(names[i])) < Number(Version(names[j])) {
      NamesInVersionOrder(names[i], names[j]);
    }
  }

  const PLATFORM_INIT := "20260801000000_platform_init.sql"

  lemma FourDigits(d: string, a: char, b: char, c: char, e: char)
    requires AllDigits(d) && IsDigit(a) && IsDigit(b) && IsDigit(c) && IsDigit(e)
    ensures AllDigits(d + [a, b, c, e])
    ensures Number(d + [a, b, c, e]) == 10000 * Number(d) + 1000 * (a - '0') as nat + 100 * (b - '0') as nat
                                        + 10 * (c - '0') as nat + (e - '0') as nat
  {
    hide Number, AllDigits;
    OneMoreDigit(d, a);
    OneMoreDigit(d + [a], b);
    OneMoreDigit(d + [a] + [b], c);
    OneMoreDigit(d + [a] + [b] + [c], e);
    assert d + [a, b, c, e] == d + [a] + [b] + [c] + [e];
  }

  lemma ShippedVersion()
    ensures AllDigits("20260801000000") && Number("20260801000000") == 20260801000000
  {
    assert Number("") == 0;
    hide Number;
    FourDigits("", '2', '0', '2', '6');
    FourDigits("2026", '0', '8', '0', '1');
    FourDigits("20260801", '0', '0', '0', '0');
    OneMoreDigit("202608010000", '0');
    OneMoreDigit("2026080100000", '0');
    assert "" + ['2', '0', '2', '6'] == "2026" && "2026" + ['0', '8', '0', '1'] == "20260801";
    assert "20260801" + ['0', '0', '0', '0'] == "202608010000";
    assert "202608010000" + ['0'] == "2026080100000" && "2026080100000" + ['0'] == "20260801000000";
  }

  /** The one file the program ships is merged, and gives the version its window is compiled with. */
  lemma ShippedCatalogue(content: Bytes, createsState: string -> bool)
    ensures CleanSources([Source("platform/database", Some([Entry(PLATFORM_INIT, false, Some(content))]))])
    ensures Matches(PLATFORM_INIT)
    ensures CatalogueOf([PLATFORM_INIT], createsState) == [Migration(20260801000000, createsState(PLATFORM_INIT))]
  {
    ShippedName();
    ShippedVersion();
    hide Matches, Version, Number, AllDigits;
    var names := [PLATFORM_INIT];
    assert names[0] == PLATFORM_INIT;
  }

  lemma ShippedName()
    ensures Matches(PLATFORM_INIT) && Version(PLATFORM_INIT) == "20260801000000"
  {
    VersionExact(PLATFORM_INIT, "20260801000000", "platform", "init");
  }
}
