/**
 Configuration trees and access by path.

 A tree is what YAML and JSON have in common: string-keyed mappings, lists and
 scalars. `Get` and `Set` are the two primitives the PMP configuration editor is
 built from; together they behave like a lens.
 */
module ConfigTree {
  import opened Prelude

  datatype Tree =
    | Null
    | Bool(flag: bool)
    | Num(number: int)
    | Str(text: string)
    | List(items: seq<Tree>)
    | Obj(members: map<string, Tree>)

  type Path = seq<string>

  const EMPTY := Obj(map[])

  function Get(t: Tree, p: Path): Option<Tree>
    decreases |p|
  {
    if p == [] then Some(t)
    else if t.Obj? && p[0] in t.members then Get(t.members[p[0]], p[1..])
    else None
  }

  /** The subtree below one key, or an empty mapping to be filled in. */
  function ChildOr(t: Tree, key: string): Tree
    requires t.Obj?
  {
    if key in t.members then t.members[key] else EMPTY
  }

  /** Write a value at a path, creating missing mappings; fails on a segment that is not a mapping. */
  function Set(t: Tree, p: Path, v: Tree): Option<Tree>
    decreases |p|
  {
    if p == [] then Some(t)
    else if !t.Obj? then None
    else if |p| == 1 then Some(Obj(t.members[p[0] := v]))
    else
      match Set(ChildOr(t, p[0]), p[1..], v)
      case None => None
      case Some(child) => Some(Obj(t.members[p[0] := child]))
  }

  /** Every proper prefix of the path is a mapping or does not exist yet. */
  predicate Open(t: Tree, p: Path)
    decreases |p|
  {
    p == [] || (t.Obj? && (|p| > 1 ==> Open(ChildOr(t, p[0]), p[1..])))
  }

  /** Neither path is a prefix of the other. */
  predicate Unrelated(p: Path, q: Path) {
    !(p <= q) && !(q <= p)
  }

  lemma UnrelatedTails(p: Path, q: Path)
    requires Unrelated(p, q) && p[0] == q[0]
    ensures |p| > 1 && |q| > 1 && Unrelated(p[1..], q[1..])
  {
    assert p == [p[0]] + p[1..] && q == [q[0]] + q[1..];
    assert p[1..] <= q[1..] ==> p <= q;
    assert q[1..] <= p[1..] ==> q <= p;
  }

  // ---------------------------------------------------------------------
  // Laws
  // ---------------------------------------------------------------------

  /** Writing succeeds exactly on open paths. */
  lemma {:induction false} SetSucceedsIff(t: Tree, p: Path, v: Tree)
    ensures Set(t, p, v).Some? <==> Open(t, p)
    decreases |p|
  {
    if |p| > 1 && t.Obj? {
      SetSucceedsIff(ChildOr(t, p[0]), p[1..], v);
    }
  }

  /** What was written is read back. */
  lemma {:induction false} GetSet(t: Tree, p: Path, v: Tree)
    requires p != [] && Set(t, p, v).Some?
    ensures Get(Set(t, p, v).value, p) == Some(v)
    decreases |p|
  {
    if |p| > 1 {
      GetSet(ChildOr(t, p[0]), p[1..], v);
    }
  }

  lemma NothingInEmpty(p: Path)
    requires p != []
    ensures Get(EMPTY, p) == None
  {
  }

  /** Unrelated paths are not disturbed. */
  lemma {:induction false} GetSetOther(t: Tree, p: Path, v: Tree, q: Path)
    requires Unrelated(p, q) && Set(t, p, v).Some?
    ensures Get(Set(t, p, v).value, q) == Get(t, q)
    decreases |p|
  {
    if p[0] == q[0] {
      UnrelatedTails(p, q);
      GetSetOther(ChildOr(t, p[0]), p[1..], v, q[1..]);
      NothingInEmpty(q[1..]);
    }
  }

  /** Writing back what is there changes nothing. */
  lemma {:induction false} SetGet(t: Tree, p: Path)
    requires Get(t, p).Some?
    ensures Set(t, p, Get(t, p).value) == Some(t)
    decreases |p|
  {
    if p != [] {
      var child := t.members[p[0]];
      assert t.members[p[0] := child] == t.members;
      if |p| > 1 {
        SetGet(child, p[1..]);
      } else {
        assert p[1..] == [];
      }
    }
  }

  /** Writing elsewhere neither opens nor blocks a path. */
  lemma {:induction false} OpenAfterOther(t: Tree, p: Path, v: Tree, q: Path)
    requires Unrelated(p, q) && Set(t, p, v).Some?
    ensures Open(Set(t, p, v).value, q) <==> Open(t, q)
    decreases |p|
  {
    if p[0] == q[0] {
      UnrelatedTails(p, q);
      OpenAfterOther(ChildOr(t, p[0]), p[1..], v, q[1..]);
    }
  }

  /** A write replaces one member, in a way that depends on that member only. */
  lemma SetIsLocal(t: Tree, u: Tree, p: Path, v: Tree) returns (child: Tree)
    requires p != [] && Set(t, p, v).Some?
    requires u.Obj? && Lookup(u.members, p[0]) == Lookup(t.members, p[0])
    ensures Set(t, p, v) == Some(Obj(t.members[p[0] := child]))
    ensures Set(u, p, v) == Some(Obj(u.members[p[0] := child]))
  {
    child := Set(t, p, v).value.members[p[0]];
  }

  lemma SwapUpdates<K, V>(m: map<K, V>, j: K, a: V, k: K, b: V)
    requires j != k
    ensures m[j := a][k := b] == m[k := b][j := a]
  {
  }

  lemma SetCommutesApart(t: Tree, p: Path, v: Tree, q: Path, w: Tree)
    requires p != [] && q != [] && p[0] != q[0] && Set(t, p, v).Some? && Set(t, q, w).Some?
    ensures Set(Set(t, p, v).value, q, w).Some?
    ensures Set(Set(t, p, v).value, q, w) == Set(Set(t, q, w).value, p, v)
  {
    var tp, tq := Set(t, p, v).value, Set(t, q, w).value;
    var a := SetIsLocal(t, t, p, v);
    var b := SetIsLocal(t, t, q, w);
    assert Lookup(tq.members, p[0]) == Lookup(t.members, p[0]);
    assert Lookup(tp.members, q[0]) == Lookup(t.members, q[0]);
    var a' := SetIsLocal(t, tq, p, v);
    var b' := SetIsLocal(t, tp, q, w);
    SwapUpdates(t.members, p[0], a', q[0], b');
  }

  /** A write below one key, seen as a write to the child. */
  lemma SetBelow(t: Tree, p: Path, v: Tree)
    requires |p| > 1 && t.Obj?
    ensures Set(t, p, v).Some? <==> Set(ChildOr(t, p[0]), p[1..], v).Some?
    ensures Set(t, p, v).Some? ==>
              Set(t, p, v) == Some(Obj(t.members[p[0] := Set(ChildOr(t, p[0]), p[1..], v).value]))
  {
  }

  lemma SetBelowTwice(t: Tree, p: Path, v: Tree, q: Path, w: Tree)
    requires |p| > 1 && |q| > 1 && p[0] == q[0] && Set(t, p, v).Some?
    requires Set(Set(ChildOr(t, p[0]), p[1..], v).value, q[1..], w).Some?
    ensures Set(Set(t, p, v).value, q, w)
         == Some(Obj(t.members[p[0] := Set(Set(ChildOr(t, p[0]), p[1..], v).value, q[1..], w).value]))
  {
    var child := Set(ChildOr(t, p[0]), p[1..], v).value;
    var both := Set(child, q[1..], w).value;
    SetBelow(t, p, v);
    SetBelow(Set(t, p, v).value, q, w);
    assert t.members[p[0] := child][p[0] := both] == t.members[p[0] := both];
  }

  /** Writes to unrelated paths may be swapped. */
  lemma {:induction false} SetCommutes(t: Tree, p: Path, v: Tree, q: Path, w: Tree)
    requires Unrelated(p, q) && Set(t, p, v).Some? && Set(t, q, w).Some?
    ensures Set(Set(t, p, v).value, q, w).Some?
    ensures Set(Set(t, p, v).value, q, w) == Set(Set(t, q, w).value, p, v)
    decreases |p|
  {
    if p[0] == q[0] {
      UnrelatedTails(p, q);
      SetCommutes(ChildOr(t, p[0]), p[1..], v, q[1..], w);
      SetBelowTwice(t, p, v, q, w);
      SetBelowTwice(t, q, w, p, v);
    } else {
      SetCommutesApart(t, p, v, q, w);
    }
  }

  // ---------------------------------------------------------------------
  // Paths, key by key
  // ---------------------------------------------------------------------

  /** Reading one key further. */
  lemma {:induction false} GetOneMore(t: Tree, p: Path, key: string)
    ensures Get(t, []) == Some(t)
    ensures Get(t, p + [key])
         == if Get(t, p).Some? && Get(t, p).value.Obj? && key in Get(t, p).value.members
            then Some(Get(t, p).value.members[key]) else None
    decreases |p|
  {
    if p == [] {
      assert [] + [key] == [key] && [key][1..] == [];
    } else {
      assert (p + [key])[1..] == p[1..] + [key];
      if t.Obj? && p[0] in t.members {
        GetOneMore(t.members[p[0]], p[1..], key);
      }
    }
  }

  /** The way to a path is open exactly when nothing on it is anything but a mapping. */
  lemma {:induction false} OpenIff(t: Tree, p: Path)
    ensures Open(t, p) <==> forall k :: 0 <= k < |p| && Get(t, p[..k]).Some? ==> Get(t, p[..k]).value.Obj?
    decreases |p|
  {
    if p != [] {
      assert p[..0] == [] && Get(t, p[..0]) == Some(t);
      if t.Obj? && |p| > 1 {
        var child := ChildOr(t, p[0]);
        OpenIff(child, p[1..]);
        forall k | 0 <= k < |p[1..]|
          ensures k == 0 || Get(t, p[..k + 1]) == if p[0] in t.members then Get(child, p[1..][..k]) else None
          ensures k == 0 ==> Get(t, p[..k + 1]) == if p[0] in t.members then Some(child) else None
        {
          assert p[..k + 1][1..] == p[1..][..k];
          assert k == 0 ==> p[1..][..k] == [];
        }
        forall k | 0 < k < |p[1..]| ensures Get(EMPTY, p[1..][..k]) == None {
          NothingInEmpty(p[1..][..k]);
        }
        if forall k :: 0 <= k < |p| && Get(t, p[..k]).Some? ==> Get(t, p[..k]).value.Obj? {
          forall k | 0 <= k < |p[1..]| && Get(child, p[1..][..k]).Some? ensures Get(child, p[1..][..k]).value.Obj? {
            if p[0] in t.members {
              assert p[..k + 1][1..] == p[1..][..k];
              assert Get(t, p[..k + 1]).Some? ==> Get(t, p[..k + 1]).value.Obj?;
            }
          }
        } else {
          var k :| 0 <= k < |p| && Get(t, p[..k]).Some? && !Get(t, p[..k]).value.Obj?;
          assert k > 0;
          assert p[..k][1..] == p[1..][..k - 1];
          assert Get(child, p[1..][..k - 1]) == Get(t, p[..k]);
        }
      }
    }
  }
}
