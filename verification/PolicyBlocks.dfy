/** `walkConfigurationS3Blocks`: the bucket each public-access block refers to in the configuration.
    The map of calls is walked in any order, and later visits overwrite earlier ones. */
module PolicyBlocks {
  import opened Options
  import opened Text
  import opened PolicyPlan
  import opened PolicyImages

  /** How a reference to a bucket begins. */
  const BUCKET_TYPE := "aws_s3_bucket"

  /** The first two parts of a reference to a resource of this type. */
  function ReferencedResourceAddress(reference: string, resourceType: string): Option<string> {
    var parts := Split(reference, '.');
    if |parts| < 2 || parts[0] != resourceType || parts[1] == "" then None else Some(parts[0] + "." + parts[1])
  }

  function FirstBucket(references: seq<string>): Option<string> {
    if references == [] then None
    else
      var address := ReferencedResourceAddress(references[0], BUCKET_TYPE);
      if address.Some? then address else FirstBucket(references[1..])
  }

  /** The bucket a block of this configuration protects, inside its own module. */
  function BlockBucket(r: ConfigurationResource): Option<string> {
    if r.kind.PublicAccessBlock? then FirstBucket(Decode(r.expressions, "bucket").references) else None
  }

  function LocalBlocks(rs: seq<ConfigurationResource>, prefix: string,
                       targets: map<string, string>): map<string, string> {
    if rs == [] then targets
    else
      var r := rs[|rs| - 1];
      var before := LocalBlocks(rs[..|rs| - 1], prefix, targets);
      if BlockBucket(r).None? then before else before[prefix + r.address := prefix + BlockBucket(r).value]
  }

  /** The order in which one execution visits the calls of every module. */
  datatype Order = Order(turns: seq<Turn>)
  datatype Turn = Turn(name: string, inner: Order)

  function Visited(turns: seq<Turn>): set<string> {
    if turns == [] then {} else Visited(turns[..|turns| - 1]) + {turns[|turns| - 1].name}
  }

  /** Calls of this module, none twice, each with an order of its own. */
  ghost predicate ValidTurns(m: ConfigurationModule, turns: seq<Turn>)
    decreases m, 0, |turns|
  {
    turns == [] ||
    (var last := turns[|turns| - 1];
     && ValidTurns(m, turns[..|turns| - 1])
     && last.name in m.calls && last.name !in Visited(turns[..|turns| - 1])
     && ValidOrder(Body(m, last.name), last.inner))
  }

  ghost predicate ValidOrder(m: ConfigurationModule, o: Order)
    decreases m, 1, 0
  {
    ValidTurns(m, o.turns) && Visited(o.turns) == m.calls.Keys
  }

  ghost function WalkBlocks(m: ConfigurationModule, prefix: string, targets: map<string, string>,
                            o: Order): map<string, string>
    decreases m, 1, 0
  {
    WalkTurns(m, prefix, LocalBlocks(m.resources, prefix, targets), o.turns)
  }

  ghost function WalkTurns(m: ConfigurationModule, prefix: string, targets: map<string, string>,
                           turns: seq<Turn>): map<string, string>
    decreases m, 0, |turns|
  {
    if turns == [] then targets
    else
      var last := turns[|turns| - 1];
      var before := WalkTurns(m, prefix, targets, turns[..|turns| - 1]);
      if last.name !in m.calls then before
      else WalkBlocks(Body(m, last.name), ChildPrefix(prefix, last.name), before, last.inner)
  }

  lemma OneMoreTurn(m: ConfigurationModule, prefix: string, here: map<string, string>, turns: seq<Turn>,
                    name: string, inner: Order)
    requires ValidTurns(m, turns) && name in m.calls && name !in Visited(turns) && ValidOrder(Body(m, name), inner)
    ensures var longer := turns + [Turn(name, inner)];
            && ValidTurns(m, longer) && Visited(longer) == Visited(turns) + {name}
            && WalkTurns(m, prefix, here, longer)
               == WalkBlocks(Body(m, name), ChildPrefix(prefix, name), WalkTurns(m, prefix, here, turns), inner)
  {
    var longer := turns + [Turn(name, inner)];
    assert longer[..|longer| - 1] == turns;
  }

  method OwnBlocks(rs: seq<ConfigurationResource>, prefix: string, found: map<string, string>)
    returns (targets: map<string, string>)
    ensures targets == LocalBlocks(rs, prefix, found)
  {
    targets := found;
    for i := 0 to |rs|
      invariant targets == LocalBlocks(rs[..i], prefix, found)
    {
      assert rs[..i + 1][..i] == rs[..i];
      var bucket := BlockBucket(rs[i]);
      if bucket.Some? {
        targets := targets[prefix + rs[i].address := prefix + bucket.value];
      }
    }
    assert rs[..|rs|] == rs;
  }

  method WalkConfigurationS3Blocks(m: ConfigurationModule, prefix: string, found: map<string, string>)
    returns (targets: map<string, string>, ghost order: Order)
    ensures ValidOrder(m, order)
    ensures targets == WalkBlocks(m, prefix, found, order)
    decreases m, 1
  {
    targets := OwnBlocks(m.resources, prefix, found);
    ghost var turns;
    targets, turns := WalkCalls(m, prefix, targets);
    order := Order(turns);
  }

  /** The loop over the calls; each pass picks any call not yet visited. */
  method WalkCalls(m: ConfigurationModule, prefix: string, here: map<string, string>)
    returns (targets: map<string, string>, ghost turns: seq<Turn>)
    ensures ValidTurns(m, turns) && Visited(turns) == m.calls.Keys
    ensures targets == WalkTurns(m, prefix, here, turns)
    decreases m, 0
  {
    targets, turns := here, [];
    var names := m.calls.Keys;
    while names != {}
      invariant Progress(m, prefix, here, names, targets, turns)
      decreases names
    {
      var name :| name in names;
      ghost var inner, before, seen := Order([]), targets, turns;
      targets, inner := WalkConfigurationS3Blocks(Body(m, name), ChildPrefix(prefix, name), targets);
      turns := turns + [Turn(name, inner)];
      OneMoreCall(m, prefix, here, names, before, seen, name, inner);
      names := names - {name};
    }
  }

  ghost predicate Progress(m: ConfigurationModule, prefix: string, here: map<string, string>, names: set<string>,
                           targets: map<string, string>, turns: seq<Turn>)
  {
    && ValidTurns(m, turns)
    && names <= m.calls.Keys && Visited(turns) == m.calls.Keys - names
    && targets == WalkTurns(m, prefix, here, turns)
  }

  lemma OneMoreCall(m: ConfigurationModule, prefix: string, here: map<string, string>, names: set<string>,
                    targets: map<string, string>, turns: seq<Turn>, name: string, inner: Order)
    requires Progress(m, prefix, here, names, targets, turns)
    requires name in names && ValidOrder(Body(m, name), inner)
    ensures Progress(m, prefix, here, names - {name},
                     WalkBlocks(Body(m, name), ChildPrefix(prefix, name), targets, inner), turns + [Turn(name, inner)])
  {
    OneMoreTurn(m, prefix, here, turns, name, inner);
  }

  // ---- what the order can change ----

  function LocalTarget(rs: seq<ConfigurationResource>, prefix: string, key: string): Option<string> {
    if rs == [] then None
    else
      var r := rs[|rs| - 1];
      if BlockBucket(r).Some? && prefix + r.address == key then Some(prefix + BlockBucket(r).value)
      else LocalTarget(rs[..|rs| - 1], prefix, key)
  }

  /** The targets one key can end with: any that some called module ends with, and otherwise what
      the module itself says. */
  ghost function Possible(m: ConfigurationModule, prefix: string, key: string): set<string>
    decreases m, 1
  {
    var own := LocalTarget(m.resources, prefix, key);
    if Below(m, prefix, key) != {} then Below(m, prefix, key)
    else if own.Some? then {own.value} else {}
  }

  ghost function Below(m: ConfigurationModule, prefix: string, key: string): set<string>
    decreases m, 0
  {
    set n, v | n in m.calls && v in Possible(Body(m, n), ChildPrefix(prefix, n), key) :: v
  }

  ghost function PossibleIn(m: ConfigurationModule, prefix: string, n: string, key: string): set<string> {
    if n in m.calls then Possible(Body(m, n), ChildPrefix(prefix, n), key) else {}
  }

  lemma BelowUnfold(m: ConfigurationModule, prefix: string, key: string, v: string)
    ensures v in Below(m, prefix, key) <==> exists n :: v in PossibleIn(m, prefix, n, key)
  {
    if v in Below(m, prefix, key) {
      var n :| n in m.calls && v in Possible(Body(m, n), ChildPrefix(prefix, n), key);
      assert v in PossibleIn(m, prefix, n, key);
    }
    if n :| v in PossibleIn(m, prefix, n, key) {
      assert n in m.calls && v in Possible(Body(m, n), ChildPrefix(prefix, n), key);
    }
  }

  predicate SameAt(a: map<string, string>, b: map<string, string>, key: string) {
    (key in a <==> key in b) && (key in a ==> a[key] == b[key])
  }

  lemma SameEverywhere(a: map<string, string>, b: map<string, string>)
    requires forall key :: SameAt(a, b, key)
    ensures a == b
  {
    assert forall key :: key in a ==> SameAt(a, b, key);
    assert forall key :: key in b ==> SameAt(a, b, key);
  }

  lemma {:induction false} LocalBlocksAt(rs: seq<ConfigurationResource>, prefix: string,
                                         targets: map<string, string>, key: string)
    ensures var t := LocalBlocks(rs, prefix, targets);
            var own := LocalTarget(rs, prefix, key);
            if own.Some? then key in t && t[key] == own.value else SameAt(t, targets, key)
  {
    if rs != [] { LocalBlocksAt(rs[..|rs| - 1], prefix, targets, key); }
  }

  /** A map in which the key has one of these values, or, when there is none, its old value. */
  predicate EndsIn(t: map<string, string>, before: map<string, string>, key: string, values: set<string>) {
    if values == {} then SameAt(t, before, key) else key in t && t[key] in values
  }

  ghost function PossibleOver(m: ConfigurationModule, prefix: string, turns: seq<Turn>, key: string): set<string> {
    if turns == [] then {}
    else PossibleOver(m, prefix, turns[..|turns| - 1], key) + PossibleIn(m, prefix, turns[|turns| - 1].name, key)
  }

  lemma {:induction false} PossibleOverVisited(m: ConfigurationModule, prefix: string, turns: seq<Turn>,
                                               key: string, v: string)
    ensures v in PossibleOver(m, prefix, turns, key)
          <==> exists n :: n in Visited(turns) && v in PossibleIn(m, prefix, n, key)
  {
    if turns != [] {
      PossibleOverVisited(m, prefix, turns[..|turns| - 1], key, v);
    }
  }

  lemma PossibleOverAll(m: ConfigurationModule, prefix: string, turns: seq<Turn>, key: string)
    requires Visited(turns) == m.calls.Keys
    ensures PossibleOver(m, prefix, turns, key) == Below(m, prefix, key)
  {
    forall v ensures v in PossibleOver(m, prefix, turns, key) <==> v in Below(m, prefix, key) {
      PossibleOverVisited(m, prefix, turns, key, v);
      BelowUnfold(m, prefix, key, v);
    }
  }

  /** Whatever the order, a key ends with one of its possible targets, or is left alone. */
  lemma {:induction false} WalkIsPossible(m: ConfigurationModule, prefix: string, targets: map<string, string>,
                                          o: Order, key: string)
    requires ValidOrder(m, o)
    ensures EndsIn(WalkBlocks(m, prefix, targets, o), targets, key, Possible(m, prefix, key))
    decreases m, 1, 0
  {
    LocalBlocksAt(m.resources, prefix, targets, key);
    TurnsArePossible(m, prefix, LocalBlocks(m.resources, prefix, targets), o.turns, key);
    PossibleOverAll(m, prefix, o.turns, key);
  }

  lemma {:induction false} TurnsArePossible(m: ConfigurationModule, prefix: string, targets: map<string, string>,
                                            turns: seq<Turn>, key: string)
    requires ValidTurns(m, turns)
    ensures EndsIn(WalkTurns(m, prefix, targets, turns), targets, key, PossibleOver(m, prefix, turns, key))
    decreases m, 0, |turns|
  {
    if turns != [] {
      var last := turns[|turns| - 1];
      var front := turns[..|turns| - 1];
      TurnsArePossible(m, prefix, targets, front, key);
      var before := WalkTurns(m, prefix, targets, front);
      WalkIsPossible(Body(m, last.name), ChildPrefix(prefix, last.name), before, last.inner, key);
    }
  }

  /** Some order exists, and one that visits a chosen call last. */
  lemma {:induction false} SomeTurns(m: ConfigurationModule, names: set<string>) returns (turns: seq<Turn>)
    requires names <= m.calls.Keys
    ensures ValidTurns(m, turns) && Visited(turns) == names
    decreases m, 0, |names|
  {
    if names == {} { return []; }
    var n :| n in names;
    var front := SomeTurns(m, names - {n});
    var inner := SomeOrder(Body(m, n));
    turns := front + [Turn(n, inner)];
    assert turns[..|turns| - 1] == front;
  }

  lemma {:induction false} SomeOrder(m: ConfigurationModule) returns (o: Order)
    ensures ValidOrder(m, o)
    decreases m, 1, 0
  {
    var turns := SomeTurns(m, m.calls.Keys);
    o := Order(turns);
  }

  ghost predicate AlwaysEndsWith(m: ConfigurationModule, prefix: string, o: Order, key: string, v: string) {
    forall targets :: var t := WalkBlocks(m, prefix, targets, o); key in t && t[key] == v
  }

  /** A call visited last has the last word. */
  lemma LastTurnWins(m: ConfigurationModule, prefix: string, n: string, inner: Order, key: string, v: string)
    returns (o: Order)
    requires n in m.calls && ValidOrder(Body(m, n), inner)
    requires AlwaysEndsWith(Body(m, n), ChildPrefix(prefix, n), inner, key, v)
    ensures ValidOrder(m, o) && AlwaysEndsWith(m, prefix, o, key, v)
  {
    var front := SomeTurns(m, m.calls.Keys - {n});
    o := Order(front + [Turn(n, inner)]);
    OneMoreTurn(m, prefix, map[], front, n, inner);
    forall targets ensures var t := WalkBlocks(m, prefix, targets, o); key in t && t[key] == v {
      OneMoreTurn(m, prefix, LocalBlocks(m.resources, prefix, targets), front, n, inner);
    }
  }

  /** Each possible target is where some order ends. */
  lemma {:induction false} PossibleIsReached(m: ConfigurationModule, prefix: string, key: string, v: string)
    returns (o: Order)
    requires v in Possible(m, prefix, key)
    ensures ValidOrder(m, o) && AlwaysEndsWith(m, prefix, o, key, v)
    decreases m
  {
    if Below(m, prefix, key) == {} {
      o := SomeOrder(m);
      forall targets ensures var t := WalkBlocks(m, prefix, targets, o); key in t && t[key] == v {
        WalkIsPossible(m, prefix, targets, o, key);
      }
    } else {
      BelowUnfold(m, prefix, key, v);
      var n :| v in PossibleIn(m, prefix, n, key);
      var inner := PossibleIsReached(Body(m, n), ChildPrefix(prefix, n), key, v);
      o := LastTurnWins(m, prefix, n, inner, key, v);
    }
  }

  ghost predicate OrderIsIrrelevant(m: ConfigurationModule, prefix: string, targets: map<string, string>) {
    forall o1, o2 :: ValidOrder(m, o1) && ValidOrder(m, o2)
      ==> WalkBlocks(m, prefix, targets, o1) == WalkBlocks(m, prefix, targets, o2)
  }

  ghost predicate OneTargetAt(m: ConfigurationModule, prefix: string, key: string) {
    forall v, w :: v in Possible(m, prefix, key) && w in Possible(m, prefix, key) ==> v == w
  }

  ghost predicate OneTargetEach(m: ConfigurationModule, prefix: string) {
    forall key :: OneTargetAt(m, prefix, key)
  }

  /** The order in which Go visits the calls shows exactly when some key has two possible targets. */
  lemma OrderMattersIff(m: ConfigurationModule, prefix: string, targets: map<string, string>)
    ensures OrderIsIrrelevant(m, prefix, targets) <==> OneTargetEach(m, prefix)
  {
    if OneTargetEach(m, prefix) {
      forall o1, o2 | ValidOrder(m, o1) && ValidOrder(m, o2)
        ensures WalkBlocks(m, prefix, targets, o1) == WalkBlocks(m, prefix, targets, o2)
      {
        forall key ensures SameAt(WalkBlocks(m, prefix, targets, o1), WalkBlocks(m, prefix, targets, o2), key) {
          assert OneTargetAt(m, prefix, key);
          WalkIsPossible(m, prefix, targets, o1, key);
          WalkIsPossible(m, prefix, targets, o2, key);
        }
        SameEverywhere(WalkBlocks(m, prefix, targets, o1), WalkBlocks(m, prefix, targets, o2));
      }
    } else {
      var key :| !OneTargetAt(m, prefix, key);
      var v, w :| v in Possible(m, prefix, key) && w in Possible(m, prefix, key) && v != w;
      var o1 := PossibleIsReached(m, prefix, key, v);
      var o2 := PossibleIsReached(m, prefix, key, w);
      assert WalkBlocks(m, prefix, targets, o1)[key] != WalkBlocks(m, prefix, targets, o2)[key];
    }
  }

  // ---- dot-free call names ----

  ghost predicate DotFree(m: ConfigurationModule)
    decreases m
  {
    forall n :: n in m.calls ==> Free(n, '.') && DotFree(Body(m, n))
  }

  predicate StartsWith(s: string, prefix: string) {
    |prefix| <= |s| && s[..|prefix|] == prefix
  }

  lemma {:induction false} LocalTargetStarts(rs: seq<ConfigurationResource>, prefix: string, key: string)
    requires LocalTarget(rs, prefix, key).Some?
    ensures StartsWith(key, prefix)
  {
    var r := rs[|rs| - 1];
    if !(BlockBucket(r).Some? && prefix + r.address == key) {
      LocalTargetStarts(rs[..|rs| - 1], prefix, key);
    }
  }

  lemma {:induction false} PossibleStarts(m: ConfigurationModule, prefix: string, key: string)
    requires Possible(m, prefix, key) != {}
    ensures StartsWith(key, prefix)
    decreases m
  {
    if Below(m, prefix, key) == {} {
      LocalTargetStarts(m.resources, prefix, key);
    } else {
      var v :| v in Below(m, prefix, key);
      BelowUnfold(m, prefix, key, v);
      var n :| v in PossibleIn(m, prefix, n, key);
      PossibleStarts(Body(m, n), ChildPrefix(prefix, n), key);
      assert StartsWith(ChildPrefix(prefix, n), prefix);
      assert key[..|prefix|] == key[..|ChildPrefix(prefix, n)|][..|prefix|];
    }
  }

  /** Two dot-free call names that head the same address are one name. */
  lemma SiblingsApart(prefix: string, n1: string, n2: string, key: string)
    requires Free(n1, '.') && Free(n2, '.')
    requires StartsWith(key, ChildPrefix(prefix, n1)) && StartsWith(key, ChildPrefix(prefix, n2))
    ensures n1 == n2
  {
    var k := |prefix| + 7;
    NameOfPrefix(prefix, n1, key);
    NameOfPrefix(prefix, n2, key);
    assert |n1| == |n2|;
    assert forall i :: 0 <= i < |n1| ==> n1[i] == key[k + i] == n2[i];
  }

  lemma NameOfPrefix(prefix: string, n: string, key: string)
    requires Free(n, '.') && StartsWith(key, ChildPrefix(prefix, n))
    ensures var k := |prefix| + 7;
            |key| > k + |n| && key[k + |n|] == '.'
            && forall i :: k <= i < k + |n| ==> key[i] == n[i - k] && key[i] != '.'
  {
    var p := ChildPrefix(prefix, n);
    var k := |prefix| + 7;
    assert p == prefix + "module." + (n + ".");
    assert forall i :: 0 <= i < |p| ==> key[..|p|][i] == key[i];
    assert forall i :: k <= i < k + |n| ==> p[i] == n[i - k];
  }

  /** With dot-free call names every key has at most one target, so the order never shows. */
  lemma {:induction false} DotFreeDecides(m: ConfigurationModule, prefix: string)
    requires DotFree(m)
    ensures OneTargetEach(m, prefix)
    decreases m
  {
    forall key, v, w | v in Possible(m, prefix, key) && w in Possible(m, prefix, key) ensures v == w {
      if Below(m, prefix, key) != {} {
        BelowUnfold(m, prefix, key, v);
        BelowUnfold(m, prefix, key, w);
        var n1 :| v in PossibleIn(m, prefix, n1, key);
        var n2 :| w in PossibleIn(m, prefix, n2, key);
        PossibleStarts(Body(m, n1), ChildPrefix(prefix, n1), key);
        PossibleStarts(Body(m, n2), ChildPrefix(prefix, n2), key);
        SiblingsApart(prefix, n1, n2, key);
        DotFreeDecides(Body(m, n1), ChildPrefix(prefix, n1));
        assert OneTargetAt(Body(m, n1), ChildPrefix(prefix, n1), key);
      }
    }
  }
}
