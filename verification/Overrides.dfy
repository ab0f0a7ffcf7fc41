/**
 Runtime overrides: a stored JSON object is merged over the boot-time
 configuration, recursively, and only where the configuration has the key.
 */
module Overrides {
  import opened Prelude
  import opened ConfigTree

  /** `merge_objects`, extended to whole trees: anything but two objects is replaced. */
  function Merged(base: Tree, over: Tree): Tree
    decreases over
  {
    if base.Obj? && over.Obj? then
      Obj(map k | k in base.members ::
            if k in over.members then Merged(base.members[k], over.members[k]) else base.members[k])
    else over
  }

  /** The loop of `merge_objects`; the entries are visited in any order. */
  method MergeObjects(base: map<string, Tree>, over: Tree) returns (merged: map<string, Tree>)
    requires over.Obj?
    ensures Obj(merged) == Merged(Obj(base), over)
    decreases over
  {
    merged := base;
    var todo := over.members.Keys;
    while todo != {}
      invariant todo <= over.members.Keys
      invariant merged.Keys == base.Keys
      invariant forall k :: k in base ==>
        merged[k] == if k in over.members && k !in todo then Merged(base[k], over.members[k]) else base[k]
    {
      var k :| k in todo;
      todo := todo - {k};
      if k in merged {
        var b, o := merged[k], over.members[k];
        if b.Obj? && o.Obj? {
          var inner := MergeObjects(b.members, o);
          merged := merged[k := Obj(inner)];
        } else {
          merged := merged[k := o];
        }
      }
    }
  }

  // ---------------------------------------------------------------------
  // Laws
  // ---------------------------------------------------------------------

  lemma {:induction false} MergeSelf(o: Tree)
    ensures Merged(o, o) == o
  {
    if o.Obj? {
      forall k | k in o.members ensures Merged(o.members[k], o.members[k]) == o.members[k] {
        MergeSelf(o.members[k]);
      }
    }
  }

  /** Applying the same overrides again changes nothing. */
  lemma {:induction false} MergeIdempotent(base: Tree, over: Tree)
    ensures Merged(Merged(base, over), over) == Merged(base, over)
    decreases over
  {
    if base.Obj? && over.Obj? {
      forall k | k in base.members && k in over.members
        ensures Merged(Merged(base.members[k], over.members[k]), over.members[k])
             == Merged(base.members[k], over.members[k])
      {
        MergeIdempotent(base.members[k], over.members[k]);
      }
    } else {
      MergeSelf(over);
    }
  }

  /** Configuration and override are objects at the path and all the way to it. */
  predicate BothObjects(base: Tree, over: Tree, p: Path)
    ensures BothObjects(base, over, p) ==> Get(base, p).Some? && Get(base, p).value.Obj?
    decreases |p|
  {
    base.Obj? && over.Obj? &&
    (p == [] || (&& p[0] in base.members && p[0] in over.members
                 && BothObjects(base.members[p[0]], over.members[p[0]], p[1..])))
  }

  /** At every level where configuration and override are both objects, the key set stays. */
  lemma {:induction false} KeysKept(base: Tree, over: Tree, p: Path)
    requires BothObjects(base, over, p)
    ensures Get(Merged(base, over), p).Some? && Get(Merged(base, over), p).value.Obj?
    ensures Get(Merged(base, over), p).value.members.Keys == Get(base, p).value.members.Keys
    decreases |p|
  {
    if p != [] {
      KeysKept(base.members[p[0]], over.members[p[0]], p[1..]);
    }
  }

  /** The part of an override whose keys the configuration has. */
  function Known(base: Tree, over: Tree): Tree
    decreases over
  {
    if base.Obj? && over.Obj? then
      Obj(map k | k in over.members && k in base.members :: Known(base.members[k], over.members[k]))
    else over
  }

  /** Override paths that the configuration lacks have no effect. */
  lemma {:induction false} UnknownHasNoEffect(base: Tree, over: Tree)
    ensures Merged(base, Known(base, over)) == Merged(base, over)
    decreases over
  {
    if base.Obj? && over.Obj? {
      forall k | k in base.members && k in over.members
        ensures Merged(base.members[k], Known(base.members[k], over.members[k]))
             == Merged(base.members[k], over.members[k])
      {
        UnknownHasNoEffect(base.members[k], over.members[k]);
      }
    }
  }

  /** The first key of the path at which base and override are not both objects that have it. */
  predicate Shadowed(base: Tree, over: Tree, p: Path)
    decreases |p|
  {
    !over.Obj? || !base.Obj? ||
    (&& p != [] && p[0] in base.members && p[0] in over.members
     && Shadowed(base.members[p[0]], over.members[p[0]], p[1..]))
  }

  /**
   What a path reads after a merge: the override where it replaces something on
   the way, the configuration everywhere else.
   */
  lemma {:induction false} MergeReads(base: Tree, over: Tree, p: Path)
    requires Get(base, p).Some? && !Get(base, p).value.Obj?
    ensures Get(Merged(base, over), p) == if Shadowed(base, over, p) then Get(over, p) else Get(base, p)
    decreases |p|
  {
    if base.Obj? && over.Obj? && p != [] && p[0] in over.members {
      MergeReads(base.members[p[0]], over.members[p[0]], p[1..]);
    }
  }
}
