/** What the walk over the configuration's public-access blocks finds, with no trace of the walk: module
    paths, and the last block of a module that renders an address. */
module PolicyTargets {
  import opened Options
  import opened PolicyPlan
  import opened PolicyImages
  import opened PolicyBlocks

  /** The i-th resource is a block that refers to a bucket, at this address. */
  ghost predicate BlockAt(rs: seq<ConfigurationResource>, prefix: string, i: int, key: string) {
    0 <= i < |rs| && BlockBucket(rs[i]).Some? && prefix + rs[i].address == key
  }

  /** It is the last such block of its module, and `v` is its bucket's address. */
  ghost predicate LastBlock(rs: seq<ConfigurationResource>, prefix: string, i: int, key: string, v: string) {
    && BlockAt(rs, prefix, i, key)
    && v == prefix + BlockBucket(rs[i]).value
    && forall j :: i < j < |rs| ==> !BlockAt(rs, prefix, j, key)
  }

  ghost predicate HasBlock(m: ConfigurationModule, prefix: string, path: seq<string>, key: string) {
    Resolves(m, path) && exists i :: BlockAt(ModuleAt(m, path).resources, Render(prefix, path), i, key)
  }

  ghost predicate RendersTarget(m: ConfigurationModule, prefix: string, path: seq<string>, key: string, v: string) {
    Resolves(m, path) && exists i :: LastBlock(ModuleAt(m, path).resources, Render(prefix, path), i, key, v)
  }

  /** A module path and the last matching block there render both addresses, and no deeper module has
      a block at the first. */
  ghost predicate TargetSite(m: ConfigurationModule, prefix: string, path: seq<string>, key: string, v: string) {
    && RendersTarget(m, prefix, path, key, v)
    && forall deeper: seq<string> :: deeper != [] ==> !HasBlock(m, prefix, path + deeper, key)
  }

  lemma {:induction false} LocalTargetExact(rs: seq<ConfigurationResource>, prefix: string, key: string, v: string)
    ensures LocalTarget(rs, prefix, key) == Some(v) <==> exists i :: LastBlock(rs, prefix, i, key, v)
    ensures LocalTarget(rs, prefix, key).Some? <==> exists i :: BlockAt(rs, prefix, i, key)
  {
    if rs != [] {
      var front, n := rs[..|rs| - 1], |rs| - 1;
      LocalTargetExact(front, prefix, key, v);
      assert forall i :: 0 <= i < n ==> front[i] == rs[i];
      assert forall i :: 0 <= i < n ==> (BlockAt(front, prefix, i, key) <==> BlockAt(rs, prefix, i, key));
      if BlockAt(rs, prefix, n, key) {
        assert forall i :: LastBlock(rs, prefix, i, key, v) ==> i == n;
        assert LastBlock(rs, prefix, n, key, prefix + BlockBucket(rs[n]).value);
      } else {
        assert forall i :: LastBlock(front, prefix, i, key, v) <==> LastBlock(rs, prefix, i, key, v);
        assert forall i :: BlockAt(front, prefix, i, key) <==> BlockAt(rs, prefix, i, key);
      }
    }
  }

  /** One call in, the rest of a path means the same. */
  lemma OneCallIn(m: ConfigurationModule, prefix: string, n: string, path: seq<string>, key: string, v: string)
    requires n in m.calls
    ensures HasBlock(m, prefix, [n] + path, key) <==> HasBlock(Body(m, n), ChildPrefix(prefix, n), path, key)
    ensures RendersTarget(m, prefix, [n] + path, key, v)
        <==> RendersTarget(Body(m, n), ChildPrefix(prefix, n), path, key, v)
  {
    var longer := [n] + path;
    assert longer[1..] == path;
    assert Resolves(m, longer) <==> Resolves(Body(m, n), path);
    if Resolves(m, longer) {
      assert ModuleAt(m, longer) == ModuleAt(Body(m, n), path);
      assert Render(prefix, longer) == Render(ChildPrefix(prefix, n), path);
    }
  }

  lemma SiteOneCallIn(m: ConfigurationModule, prefix: string, n: string, path: seq<string>, key: string, v: string)
    requires n in m.calls
    ensures TargetSite(m, prefix, [n] + path, key, v) <==> TargetSite(Body(m, n), ChildPrefix(prefix, n), path, key, v)
  {
    OneCallIn(m, prefix, n, path, key, v);
    forall deeper: seq<string>
      ensures HasBlock(m, prefix, [n] + path + deeper, key)
          <==> HasBlock(Body(m, n), ChildPrefix(prefix, n), path + deeper, key)
    {
      assert [n] + path + deeper == [n] + (path + deeper);
      OneCallIn(m, prefix, n, path + deeper, key, v);
    }
  }

  /** A block anywhere in the tree gives its address some target. */
  lemma {:induction false} BlockIsPossible(m: ConfigurationModule, prefix: string, path: seq<string>, key: string)
    requires HasBlock(m, prefix, path, key)
    ensures Possible(m, prefix, key) != {}
    decreases path
  {
    if path == [] {
      LocalTargetExact(m.resources, prefix, key, "");
    } else {
      var n := path[0];
      assert path == [n] + path[1..];
      OneCallIn(m, prefix, n, path[1..], key, "");
      BlockIsPossible(Body(m, n), ChildPrefix(prefix, n), path[1..], key);
      var v :| v in Possible(Body(m, n), ChildPrefix(prefix, n), key);
      assert v in PossibleIn(m, prefix, n, key);
      BelowUnfold(m, prefix, key, v);
    }
  }

  /** A target seen below comes from a site below. */
  lemma {:induction false} PossibleHasSite(m: ConfigurationModule, prefix: string, key: string, v: string)
    returns (path: seq<string>)
    requires v in Possible(m, prefix, key)
    ensures TargetSite(m, prefix, path, key, v)
    decreases m
  {
    if Below(m, prefix, key) == {} {
      path := [];
      LocalTargetExact(m.resources, prefix, key, v);
      assert ModuleAt(m, path) == m && Render(prefix, path) == prefix;
      forall deeper: seq<string> | deeper != [] ensures !HasBlock(m, prefix, [] + deeper, key) {
        assert [] + deeper == deeper;
        if HasBlock(m, prefix, deeper, key) { NothingBelow(m, prefix, deeper, key); }
      }
    } else {
      BelowUnfold(m, prefix, key, v);
      var n :| v in PossibleIn(m, prefix, n, key);
      var inner := PossibleHasSite(Body(m, n), ChildPrefix(prefix, n), key, v);
      SiteOneCallIn(m, prefix, n, inner, key, v);
      path := [n] + inner;
    }
  }

  lemma NothingBelow(m: ConfigurationModule, prefix: string, path: seq<string>, key: string)
    requires path != [] && HasBlock(m, prefix, path, key)
    ensures Below(m, prefix, key) != {}
  {
    var n := path[0];
    assert path == [n] + path[1..];
    OneCallIn(m, prefix, n, path[1..], key, "");
    BlockIsPossible(Body(m, n), ChildPrefix(prefix, n), path[1..], key);
    var v :| v in Possible(Body(m, n), ChildPrefix(prefix, n), key);
    assert v in PossibleIn(m, prefix, n, key);
    BelowUnfold(m, prefix, key, v);
  }

  lemma BelowHasBlock(m: ConfigurationModule, prefix: string, key: string)
    ensures Below(m, prefix, key) != {} ==>
              exists deeper: seq<string> :: deeper != [] && HasBlock(m, prefix, [] + deeper, key)
  {
    if w :| w in Below(m, prefix, key) {
      BelowUnfold(m, prefix, key, w);
      var n :| w in PossibleIn(m, prefix, n, key);
      var inner := PossibleHasSite(Body(m, n), ChildPrefix(prefix, n), key, w);
      var path := [n] + inner;
      OneCallIn(m, prefix, n, inner, key, w);
      assert [] + path == path;
      assert path != [] && HasBlock(m, prefix, [] + path, key);
    }
  }

  lemma {:induction false} SiteIsPossible(m: ConfigurationModule, prefix: string, path: seq<string>, key: string,
                                          v: string)
    requires TargetSite(m, prefix, path, key, v)
    ensures v in Possible(m, prefix, key)
    decreases path
  {
    if path == [] {
      LocalTargetExact(m.resources, prefix, key, v);
      BelowHasBlock(m, prefix, key);
    } else {
      var n := path[0];
      assert path == [n] + path[1..];
      SiteOneCallIn(m, prefix, n, path[1..], key, v);
      SiteIsPossible(Body(m, n), ChildPrefix(prefix, n), path[1..], key, v);
      assert v in PossibleIn(m, prefix, n, key);
      BelowUnfold(m, prefix, key, v);
    }
  }

  /** A key can end with a target exactly when a module path and the last block there render both. */
  lemma PossibleExact(m: ConfigurationModule, prefix: string, key: string, v: string)
    ensures v in Possible(m, prefix, key) <==> exists path :: TargetSite(m, prefix, path, key, v)
  {
    if v in Possible(m, prefix, key) {
      var path := PossibleHasSite(m, prefix, key, v);
    }
    if path :| TargetSite(m, prefix, path, key, v) {
      SiteIsPossible(m, prefix, path, key, v);
    }
  }

  ghost predicate Targets(m: ConfigurationModule, key: string, v: string) {
    exists path :: TargetSite(m, "", path, key, v)
  }

  /** A key with one target has it in the walk's map exactly when the configuration renders it, whatever
      the order. */
  lemma TargetsExact(m: ConfigurationModule, o: Order, key: string, v: string)
    requires OneTargetAt(m, "", key) && ValidOrder(m, o)
    ensures var t := WalkBlocks(m, "", map[], o);
            key in t && t[key] == v <==> Targets(m, key, v)
  {
    WalkIsPossible(m, "", map[], o, key);
    PossibleExact(m, "", key, v);
    var t := WalkBlocks(m, "", map[], o);
    assert key in t ==> t[key] in Possible(m, "", key);
  }
}
