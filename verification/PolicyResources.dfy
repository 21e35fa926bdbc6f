/** Which resources the rules see, and in which order: the planned ones by their places in the tree of
    child modules, or else the changed ones. No recursion over the tree decides it. */
module PolicyResources {
  import opened Options
  import opened PolicyPlan

  /** The i-th resource of the module that a path of child numbers leads to. */
  datatype Place = Place(path: seq<nat>, i: nat)

  ghost predicate Leads(m: PlannedModule, path: seq<nat>) {
    path == [] || (path[0] < |m.children| && Leads(m.children[path[0]], path[1..]))
  }

  ghost function ModuleAt(m: PlannedModule, path: seq<nat>): PlannedModule
    requires Leads(m, path)
  {
    if path == [] then m else ModuleAt(m.children[path[0]], path[1..])
  }

  ghost predicate IsPlace(m: PlannedModule, p: Place) {
    Leads(m, p.path) && p.i < |ModuleAt(m, p.path).resources|
  }

  ghost function ResourceAt(m: PlannedModule, p: Place): Resource
    requires IsPlace(m, p)
  {
    ModuleAt(m, p.path).resources[p.i]
  }

  /** A module's own resources come first, then each child's, in order. */
  ghost predicate Earlier(p: Place, q: Place)
    decreases |p.path|
  {
    if p.path == q.path then p.i < q.i
    else if p.path == [] then true
    else if q.path == [] then false
    else if p.path[0] != q.path[0] then p.path[0] < q.path[0]
    else Earlier(Place(p.path[1..], p.i), Place(q.path[1..], q.i))
  }

  /** Every place of the tree, in order. */
  ghost predicate AllPlaces(m: PlannedModule, places: seq<Place>) {
    && (forall k :: 0 <= k < |places| ==> IsPlace(m, places[k]))
    && (forall j, k :: 0 <= j < k < |places| ==> Earlier(places[j], places[k]))
    && (forall p :: IsPlace(m, p) ==> p in places)
  }

  /** The list holds what is written at every place of the tree, in order. */
  ghost predicate Listed(m: PlannedModule, list: seq<Resource>) {
    exists places :: AllPlaces(m, places) && Written(m, places, list)
  }

  /** The list holds what is written at these places. */
  ghost predicate Written(m: PlannedModule, places: seq<Place>, list: seq<Resource>) {
    && |list| == |places|
    && forall k :: 0 <= k < |places| ==> IsPlace(m, places[k]) && list[k] == ResourceAt(m, places[k])
  }

  lemma {:induction false} EarlierIsStrict(p: Place, q: Place)
    ensures !(Earlier(p, q) && Earlier(q, p))
    decreases |p.path|
  {
    if p.path != q.path && p.path != [] && q.path != [] && p.path[0] == q.path[0] {
      EarlierIsStrict(Place(p.path[1..], p.i), Place(q.path[1..], q.i));
    }
  }

  ghost predicate Rising(a: seq<Place>) {
    forall j, k :: 0 <= j < k < |a| ==> Earlier(a[j], a[k])
  }

  /** One set of places has one order. */
  lemma {:induction false} OneOrder(a: seq<Place>, b: seq<Place>)
    requires Rising(a) && Rising(b) && forall p :: p in a <==> p in b
    ensures a == b
    decreases |a|
  {
    assert b != [] ==> b[0] in b;
    if a != [] {
      assert a[0] in b;
      assert b[0] in a;
      EarlierIsStrict(a[0], b[0]);
      assert a[0] == b[0];
      WithoutFirst(a);
      WithoutFirst(b);
      OneOrder(a[1..], b[1..]);
      assert a == [a[0]] + a[1..] && b == [b[0]] + b[1..];
    }
  }

  lemma WithoutFirst(a: seq<Place>)
    requires Rising(a) && a != []
    ensures Rising(a[1..]) && forall p :: p in a[1..] <==> p in a && p != a[0]
  {
    hide Earlier;
    assert a == [a[0]] + a[1..];
    forall p | p in a[1..] ensures p != a[0] {
      var k :| 0 <= k < |a[1..]| && a[1..][k] == p;
      EarlierIsStrict(a[0], a[k + 1]);
    }
  }

  // ---- Flatten lists the tree ----

  ghost function Deeper(c: nat, p: Place): Place {
    Place([c] + p.path, p.i)
  }

  lemma OneChildIn(m: PlannedModule, c: nat, p: Place)
    requires c < |m.children|
    ensures IsPlace(m, Deeper(c, p)) <==> IsPlace(m.children[c], p)
    ensures IsPlace(m, Deeper(c, p)) ==> ResourceAt(m, Deeper(c, p)) == ResourceAt(m.children[c], p)
  {
    assert Deeper(c, p).path[1..] == p.path;
  }

  lemma DeeperKeepsOrder(c: nat, p: Place, q: Place)
    ensures Earlier(Deeper(c, p), Deeper(c, q)) <==> Earlier(p, q)
  {
    assert Deeper(c, p).path[1..] == p.path && Deeper(c, q).path[1..] == q.path;
  }

  /** These are the places in the children from `c` on. */
  ghost predicate PlacesFrom(m: PlannedModule, c: nat, places: seq<Place>) {
    && Rising(places)
    && forall p :: p in places <==> IsPlace(m, p) && p.path != [] && p.path[0] >= c
  }

  lemma {:induction false} ListChildren(m: PlannedModule, c: nat) returns (places: seq<Place>)
    requires c <= |m.children|
    ensures PlacesFrom(m, c, places) && Written(m, places, FlattenAll(m.children[c..]))
    decreases m, |m.children| - c
  {
    if c == |m.children| {
      places := [];
    } else {
      var inner := ListTree(m.children[c]);
      var here := seq(|inner|, k requires 0 <= k < |inner| => Deeper(c, inner[k]));
      var rest := ListChildren(m, c + 1);
      places := here + rest;
      assert m.children[c..][0] == m.children[c] && m.children[c..][1..] == m.children[c + 1..];
      OneChildListed(m, c, inner, here);
      Joined(m, c, here, rest);
      WrittenBoth(m, here, rest, Flatten(m.children[c]), FlattenAll(m.children[c + 1..]));
    }
  }

  /** These are the places in child `c`. */
  ghost predicate PlacesIn(m: PlannedModule, c: nat, places: seq<Place>) {
    && Rising(places)
    && forall p :: p in places <==> IsPlace(m, p) && p.path != [] && p.path[0] == c
  }

  lemma OneChildListed(m: PlannedModule, c: nat, inner: seq<Place>, here: seq<Place>)
    requires c < |m.children| && AllPlaces(m.children[c], inner)
    requires Written(m.children[c], inner, Flatten(m.children[c]))
    requires |here| == |inner| && forall k :: 0 <= k < |here| ==> here[k] == Deeper(c, inner[k])
    ensures PlacesIn(m, c, here) && Written(m, here, Flatten(m.children[c]))
  {
    hide Flatten, Earlier, IsPlace, ResourceAt;
    forall k | 0 <= k < |here|
      ensures IsPlace(m, here[k]) && Flatten(m.children[c])[k] == ResourceAt(m, here[k])
    {
      OneChildIn(m, c, inner[k]);
    }
    forall j, k | 0 <= j < k < |here| ensures Earlier(here[j], here[k]) {
      DeeperKeepsOrder(c, inner[j], inner[k]);
    }
    forall p ensures p in here <==> IsPlace(m, p) && p.path != [] && p.path[0] == c {
      if IsPlace(m, p) && p.path != [] && p.path[0] == c {
        var q := Place(p.path[1..], p.i);
        assert p == Deeper(c, q);
        OneChildIn(m, c, q);
        var k :| 0 <= k < |inner| && inner[k] == q;
        assert here[k] == p;
      }
    }
  }

  lemma Joined(m: PlannedModule, c: nat, here: seq<Place>, rest: seq<Place>)
    requires PlacesIn(m, c, here) && PlacesFrom(m, c + 1, rest)
    ensures PlacesFrom(m, c, here + rest)
  {
    hide IsPlace;
    var all := here + rest;
    forall j, k | 0 <= j < k < |all| ensures Earlier(all[j], all[k]) {
      assert all[j] in (if j < |here| then here else rest) && all[k] in (if k < |here| then here else rest);
    }
  }

  lemma WrittenBoth(m: PlannedModule, a: seq<Place>, b: seq<Place>, first: seq<Resource>, second: seq<Resource>)
    requires Written(m, a, first) && Written(m, b, second)
    ensures Written(m, a + b, first + second)
  {
    hide IsPlace, ResourceAt;
  }

  lemma {:induction false} ListTree(m: PlannedModule) returns (places: seq<Place>)
    ensures AllPlaces(m, places) && Written(m, places, Flatten(m))
    decreases m, |m.children| + 1
  {
    var own := seq(|m.resources|, k requires 0 <= k < |m.resources| => Place([], k));
    var rest := ListChildren(m, 0);
    places := own + rest;
    assert m.children[0..] == m.children;
    OwnFirst(m, own, rest);
    WrittenBoth(m, own, rest, m.resources, FlattenAll(m.children));
  }

  lemma OwnFirst(m: PlannedModule, own: seq<Place>, rest: seq<Place>)
    requires |own| == |m.resources| && forall k :: 0 <= k < |own| ==> own[k] == Place([], k)
    requires PlacesFrom(m, 0, rest)
    ensures AllPlaces(m, own + rest) && Written(m, own, m.resources)
  {
    var all := own + rest;
    forall j, k | 0 <= j < k < |all| ensures Earlier(all[j], all[k]) {
      assert j >= |own| ==> all[j] == rest[j - |own|];
      assert k >= |own| ==> all[k] in rest;
    }
    forall p | IsPlace(m, p) ensures p in all {
      if p.path == [] {
        assert p == own[p.i];
      } else {
        assert p.path[0] >= 0;
        assert p in rest;
      }
    }
    forall k | 0 <= k < |all| ensures IsPlace(m, all[k]) {
      if k >= |own| { assert all[k] in rest; }
    }
  }

  /** `Flatten` gives exactly what is written in the tree, at every place once, own resources before the
      children's. */
  lemma FlattenExact(m: PlannedModule, list: seq<Resource>)
    ensures list == Flatten(m) <==> Listed(m, list)
  {
    hide Flatten, AllPlaces, Written;
    var places := ListTree(m);
    if Listed(m, list) {
      var others :| AllPlaces(m, others) && Written(m, others, list);
      SamePlaces(m, places, others);
      WrittenOnce(m, places, list, Flatten(m));
    }
  }

  lemma SamePlaces(m: PlannedModule, a: seq<Place>, b: seq<Place>)
    requires AllPlaces(m, a) && AllPlaces(m, b)
    ensures a == b
  {
    hide IsPlace, Earlier;
    OneOrder(a, b);
  }

  lemma WrittenOnce(m: PlannedModule, places: seq<Place>, a: seq<Resource>, b: seq<Resource>)
    requires Written(m, places, a) && Written(m, places, b)
    ensures a == b
  {
    hide IsPlace, ResourceAt;
  }

  /** The two trees have every resource written as often, wherever that is. */
  ghost predicate SameWritten(m: PlannedModule, n: PlannedModule) {
    exists a, b :: Listed(m, a) && Listed(n, b) && multiset(a) == multiset(b)
  }

  lemma SameWrittenIff(m: PlannedModule, n: PlannedModule)
    ensures SameWritten(m, n) <==> multiset(Flatten(m)) == multiset(Flatten(n))
  {
    FlattenExact(m, Flatten(m));
    FlattenExact(n, Flatten(n));
    if a, b :| Listed(m, a) && Listed(n, b) && multiset(a) == multiset(b) {
      FlattenExact(m, a);
      FlattenExact(n, b);
    }
  }

  // ---- the resources the rules see ----

  ghost predicate LastChange(changes: seq<ResourceChange>, a: string, i: int) {
    0 <= i < |changes| && changes[i].address == a && forall j :: i < j < |changes| ==> changes[j].address != a
  }

  /** What the last change at this address leaves unknown, or nothing where there is none. */
  ghost predicate UnknownThere(changes: seq<ResourceChange>, a: string, unknown: Fields) {
    || (exists i :: LastChange(changes, a, i) && unknown == changes[i].afterUnknown)
    || ((forall j :: 0 <= j < |changes| ==> changes[j].address != a) && unknown == map[])
  }

  /** The changes that leave something behind, in order. */
  ghost predicate LeftBehind(changes: seq<ResourceChange>, at: seq<nat>, rs: seq<Resource>) {
    && |at| == |rs| && (forall j, k :: 0 <= j < k < |at| ==> at[j] < at[k])
    && (forall i: nat :: i in at <==> i < |changes| && changes[i].after.Some?)
    && forall k :: 0 <= k < |rs| && at[k] < |changes| && changes[at[k]].after.Some? ==>
         rs[k] == Resource(changes[at[k]].address, changes[at[k]].kind, changes[at[k]].after.value,
                           changes[at[k]].afterUnknown)
  }

  /** The planned resources with what is unknown of them, if there are any; otherwise what the changes
      leave behind. */
  ghost predicate SeenByRules(plan: Plan, rs: seq<Resource>) {
    if Listed(plan.planned, []) then exists at :: LeftBehind(plan.changes, at, rs)
    else exists flat: seq<Resource> ::
      && Listed(plan.planned, flat) && |rs| == |flat|
      && forall k :: 0 <= k < |rs| ==>
           && rs[k] == flat[k].(unknown := rs[k].unknown)
           && UnknownThere(plan.changes, flat[k].address, rs[k].unknown)
  }

  lemma {:induction false} UnknownExact(changes: seq<ResourceChange>, a: string)
    ensures var unknown := UnknownByAddress(changes);
            UnknownThere(changes, a, if a in unknown then unknown[a] else map[])
  {
    if changes != [] {
      var front, n := changes[..|changes| - 1], |changes| - 1;
      UnknownExact(front, a);
      assert forall j :: 0 <= j < n ==> front[j] == changes[j];
      if changes[n].address == a {
        assert LastChange(changes, a, n);
      } else {
        assert forall i :: LastChange(front, a, i) ==> LastChange(changes, a, i);
      }
    }
  }

  lemma {:induction false} ChangesLeft(changes: seq<ResourceChange>) returns (at: seq<nat>)
    ensures LeftBehind(changes, at, ChangedResources(changes))
  {
    if changes == [] {
      at := [];
    } else {
      var front, n := changes[..|changes| - 1], |changes| - 1;
      var before := ChangesLeft(front);
      at := before + if changes[n].after.Some? then [n] else [];
      LeftMore(changes, before, ChangedResources(front));
    }
  }

  lemma LeftMore(changes: seq<ResourceChange>, before: seq<nat>, rs: seq<Resource>)
    requires changes != [] && LeftBehind(changes[..|changes| - 1], before, rs)
    ensures var c, n := changes[|changes| - 1], |changes| - 1;
            if c.after.None? then LeftBehind(changes, before, rs)
            else LeftBehind(changes, before + [n], rs + [Resource(c.address, c.kind, c.after.value, c.afterUnknown)])
  {
    var front, n := changes[..|changes| - 1], |changes| - 1;
    assert forall j :: 0 <= j < n ==> front[j] == changes[j];
    forall k | 0 <= k < |before| ensures before[k] < n && changes[before[k]].after.Some? {
      assert before[k] in before;
    }
  }

  lemma ResourcesExact(plan: Plan)
    ensures SeenByRules(plan, Resources(plan))
  {
    var flat := Flatten(plan.planned);
    FlattenExact(plan.planned, flat);
    FlattenExact(plan.planned, []);
    if flat == [] {
      var at := ChangesLeft(plan.changes);
    } else {
      forall k | 0 <= k < |flat| ensures UnknownThere(plan.changes, flat[k].address, Resources(plan)[k].unknown) {
        UnknownExact(plan.changes, flat[k].address);
      }
    }
  }
}
