/** `walkConfigurationImages`: which task addresses a plan's configuration pins to a digest. A Go map
    is walked in any order: the method picks the next call freely. */
module PolicyImages {
  import opened PolicyPlan


  function ChildPrefix(prefix: string, name: string): string {
    prefix + "module." + name + "."
  }

  function Body(m: ConfigurationModule, name: string): ConfigurationModule
    requires name in m.calls
  {
    m.calls[name].body
  }

  // ---- image proofs ----

  /** The value `image_uri` has inside a called module. */
  function ChildImage(call: ModuleCall, imageURI: string): string {
    if "image_uri" !in call.expressions then ""
    else if call.expressions["image_uri"].constant.Str? then call.expressions["image_uri"].constant.s
    else if ReferencesVariable(call.expressions["image_uri"], "image_uri") then imageURI
    else ""
  }

  predicate ProvenTask(r: ConfigurationResource, imageURI: string) {
    r.kind.TaskDefinition? && IsImageURI(imageURI)
    && ReferencesVariable(Decode(r.expressions, "container_definitions"), "image_uri")
  }

  ghost function ImageProofs(m: ConfigurationModule, prefix: string, imageURI: string): set<string>
    decreases m
  {
    (set i | 0 <= i < |m.resources| && ProvenTask(m.resources[i], imageURI) :: prefix + m.resources[i].address)
    + (set n, a |
         n in m.calls && a in ImageProofs(Body(m, n), ChildPrefix(prefix, n), ChildImage(m.calls[n], imageURI)) :: a)
  }

  ghost predicate ProvenHere(m: ConfigurationModule, prefix: string, imageURI: string, limit: int, a: string) {
    exists i :: && 0 <= i < |m.resources| && i < limit && ProvenTask(m.resources[i], imageURI)
                && a == prefix + m.resources[i].address
  }

  ghost predicate ProvenIn(m: ConfigurationModule, prefix: string, imageURI: string, n: string, a: string) {
    n in m.calls && a in ImageProofs(Body(m, n), ChildPrefix(prefix, n), ChildImage(m.calls[n], imageURI))
  }

  lemma ImagesUnfold(m: ConfigurationModule, prefix: string, imageURI: string, a: string)
    ensures a in ImageProofs(m, prefix, imageURI) <==>
            ProvenHere(m, prefix, imageURI, |m.resources|, a) || exists n :: ProvenIn(m, prefix, imageURI, n, a)
  {
    if a in ImageProofs(m, prefix, imageURI) && !ProvenHere(m, prefix, imageURI, |m.resources|, a) {
      var n :| n in m.calls && a in ImageProofs(Body(m, n), ChildPrefix(prefix, n), ChildImage(m.calls[n], imageURI));
      assert ProvenIn(m, prefix, imageURI, n, a);
    }
    if n :| ProvenIn(m, prefix, imageURI, n, a) {
      assert n in m.calls && a in ImageProofs(Body(m, n), ChildPrefix(prefix, n), ChildImage(m.calls[n], imageURI));
    }
  }

  method OwnImages(m: ConfigurationModule, prefix: string, imageURI: string, found: set<string>)
    returns (proofs: set<string>)
    ensures forall a :: a in proofs <==> a in found || ProvenHere(m, prefix, imageURI, |m.resources|, a)
  {
    proofs := found;
    for i := 0 to |m.resources|
      invariant forall a :: a in proofs <==> a in found || ProvenHere(m, prefix, imageURI, i, a)
    {
      if ProvenTask(m.resources[i], imageURI) {
        proofs := proofs + {prefix + m.resources[i].address};
      }
    }
  }

  method WalkConfigurationImages(m: ConfigurationModule, prefix: string, imageURI: string, found: set<string>)
    returns (proofs: set<string>)
    ensures proofs == found + ImageProofs(m, prefix, imageURI)
    decreases m
  {
    proofs := OwnImages(m, prefix, imageURI, found);
    var names := m.calls.Keys;
    while names != {}
      invariant names <= m.calls.Keys
      invariant forall a :: a in proofs <==>
                  || a in found || ProvenHere(m, prefix, imageURI, |m.resources|, a)
                  || exists n :: n !in names && ProvenIn(m, prefix, imageURI, n, a)
      decreases |names|
    {
      var name :| name in names;
      ghost var before, visited := proofs, names;
      proofs := WalkConfigurationImages(Body(m, name), ChildPrefix(prefix, name),
                                        ChildImage(m.calls[name], imageURI), proofs);
      assert forall a :: a in proofs <==> a in before || ProvenIn(m, prefix, imageURI, name, a);
      names := names - {name};
    }
    forall a { ImagesUnfold(m, prefix, imageURI, a); }
  }

  // ---- where a proof comes from ----

  ghost predicate Resolves(m: ConfigurationModule, path: seq<string>) {
    path == [] || (path[0] in m.calls && Resolves(Body(m, path[0]), path[1..]))
  }

  ghost function ModuleAt(m: ConfigurationModule, path: seq<string>): ConfigurationModule
    requires Resolves(m, path)
  {
    if path == [] then m else ModuleAt(Body(m, path[0]), path[1..])
  }

  /** The calls a path takes, outermost first. */
  ghost function CallsAlong(m: ConfigurationModule, path: seq<string>): (calls: seq<ModuleCall>)
    requires Resolves(m, path)
    ensures |calls| == |path|
  {
    if path == [] then [] else [m.calls[path[0]]] + CallsAlong(Body(m, path[0]), path[1..])
  }

  function Render(prefix: string, path: seq<string>): string
    decreases |path|
  {
    if path == [] then prefix else Render(ChildPrefix(prefix, path[0]), path[1..])
  }

  predicate SetsConstant(call: ModuleCall, value: string) {
    "image_uri" in call.expressions && call.expressions["image_uri"].constant == Str(value)
  }

  predicate PassesOn(call: ModuleCall) {
    "image_uri" in call.expressions && !call.expressions["image_uri"].constant.Str?
    && ReferencesVariable(call.expressions["image_uri"], "image_uri")
  }

  /** Reading back from the end of the path: from call `k` on every call passes `var.image_uri` on,
      and before that the value is a constant of call `k - 1` or the root variable. */
  ghost predicate CarriedFrom(calls: seq<ModuleCall>, root: string, value: string, k: int) {
    && 0 <= k <= |calls|
    && (forall j :: k <= j < |calls| ==> PassesOn(calls[j]))
    && (if k == 0 then value == root else SetsConstant(calls[k - 1], value))
  }

  ghost predicate Carried(calls: seq<ModuleCall>, root: string, value: string) {
    exists k :: CarriedFrom(calls, root, value, k)
  }

  /** A task at `path` whose carried image is pinned. */
  ghost predicate ProofSite(m: ConfigurationModule, root: string, path: seq<string>, r: ConfigurationResource,
                            value: string) {
    && Resolves(m, path)
    && r in ModuleAt(m, path).resources
    && Carried(CallsAlong(m, path), root, value)
    && ProvenTask(r, value)
  }

  /** Going one call in changes where the walk starts, not what the path carries. */
  lemma CarriedStep(call: ModuleCall, calls: seq<ModuleCall>, root: string, value: string)
    requires value != ""
    ensures Carried([call] + calls, root, value) <==> Carried(calls, ChildImage(call, root), value)
  {
    var all := [call] + calls;
    var inner := ChildImage(call, root);
    if k :| CarriedFrom(all, root, value, k) {
      if k >= 2 {
        assert all[k - 1] == calls[k - 2];
      }
      forall j | (if k == 0 then 0 else k - 1) <= j < |calls| ensures PassesOn(calls[j]) {
        assert all[j + 1] == calls[j];
      }
      assert k == 0 ==> PassesOn(all[0]);
      assert CarriedFrom(calls, inner, value, if k == 0 then 0 else k - 1);
    }
    if k :| CarriedFrom(calls, inner, value, k) {
      if k == 0 && PassesOn(call) {
        assert CarriedFrom(all, root, value, 0);
      } else if k == 0 {
        assert CarriedFrom(all, root, value, 1);
      } else {
        assert CarriedFrom(all, root, value, k + 1);
      }
    }
  }

  ghost predicate HasSite(m: ConfigurationModule, prefix: string, root: string, a: string) {
    exists path, r, value :: ProofSite(m, root, path, r, value) && a == Render(prefix, path) + r.address
  }

  /** An address is proven exactly when it renders some module path followed by a task of that
      module which reads `var.image_uri`, and the path carries a pinned image to it. */
  lemma ImageProofsExact(m: ConfigurationModule, prefix: string, root: string, a: string)
    ensures a in ImageProofs(m, prefix, root) <==> HasSite(m, prefix, root, a)
  {
    if a in ImageProofs(m, prefix, root) {
      ProofHasSite(m, prefix, root, a);
    }
    if path, r, value :| ProofSite(m, root, path, r, value) && a == Render(prefix, path) + r.address {
      SiteIsProof(m, prefix, root, path, r, value);
    }
  }

  lemma LiftSite(m: ConfigurationModule, prefix: string, root: string, n: string, a: string)
    requires n in m.calls && HasSite(Body(m, n), ChildPrefix(prefix, n), ChildImage(m.calls[n], root), a)
    ensures HasSite(m, prefix, root, a)
  {
    var inner := ChildImage(m.calls[n], root);
    var path, r, value :|
      ProofSite(Body(m, n), inner, path, r, value) && a == Render(ChildPrefix(prefix, n), path) + r.address;
    CarriedStep(m.calls[n], CallsAlong(Body(m, n), path), root, value);
    var longer := [n] + path;
    assert longer[1..] == path;
    assert Resolves(m, longer) && ModuleAt(m, longer) == ModuleAt(Body(m, n), path);
    assert ProofSite(m, root, longer, r, value);
  }

  lemma {:induction false} ProofHasSite(m: ConfigurationModule, prefix: string, root: string, a: string)
    requires a in ImageProofs(m, prefix, root)
    ensures HasSite(m, prefix, root, a)
    decreases m
  {
    ImagesUnfold(m, prefix, root, a);
    if ProvenHere(m, prefix, root, |m.resources|, a) {
      var i :| 0 <= i < |m.resources| && ProvenTask(m.resources[i], root) && a == prefix + m.resources[i].address;
      assert CarriedFrom(CallsAlong(m, []), root, root, 0);
      assert ProofSite(m, root, [], m.resources[i], root);
    } else {
      var n :| ProvenIn(m, prefix, root, n, a);
      ProofHasSite(Body(m, n), ChildPrefix(prefix, n), ChildImage(m.calls[n], root), a);
      LiftSite(m, prefix, root, n, a);
    }
  }

  lemma {:induction false} SiteIsProof(
    m: ConfigurationModule, prefix: string, root: string, path: seq<string>, r: ConfigurationResource, value: string)
    requires ProofSite(m, root, path, r, value)
    ensures Render(prefix, path) + r.address in ImageProofs(m, prefix, root)
    decreases path
  {
    if path == [] {
      assert CallsAlong(m, path) == [];
      var i :| 0 <= i < |m.resources| && m.resources[i] == r;
    } else {
      var n := path[0];
      CarriedStep(m.calls[n], CallsAlong(Body(m, n), path[1..]), root, value);
      SiteIsProof(Body(m, n), ChildPrefix(prefix, n), ChildImage(m.calls[n], root), path[1..], r, value);
    }
  }
}
