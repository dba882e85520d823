/**
 Finding objects that hang loose after a scan, and moving them to lost+found.  The parent links may be anything, cycles
 included.
 */
module HangingObjects {

  type Parents = map<nat, nat>

  const DEPTH_LIMIT: nat := 100

  /** `p` reaches `root` in at most `k` steps, each to a directory. */
  predicate Reach(parent: Parents, dirs: set<nat>, root: nat, p: nat, k: nat)
    decreases k
  {
    p == root || (k > 0 && p in parent && parent[p] in dirs && Reach(parent, dirs, root, parent[p], k - 1))
  }

  /** The directories that have no parent. */
  datatype Special = Special(root: nat, unlinked: nat, deleted: nat)

  predicate HasNullParent(sp: Special, o: nat) { o == sp.root || o == sp.unlinked || o == sp.deleted }

  /** `o` is a parentless directory, sits directly under one, or is found under the root within the depth limit. */
  predicate Safe(parent: Parents, dirs: set<nat>, sp: Special, o: nat) {
    || HasNullParent(sp, o)
    || (&& o in parent && parent[o] in dirs
        && (HasNullParent(sp, parent[o]) || Reach(parent, dirs, sp.root, parent[o], DEPTH_LIMIT)))
  }

  lemma {:induction false} ReachFarther(parent: Parents, dirs: set<nat>, root: nat, p: nat, k: nat, m: nat)
    requires Reach(parent, dirs, root, p, k) && k <= m
    ensures Reach(parent, dirs, root, p, m)
    decreases k
  {
    if p != root { ReachFarther(parent, dirs, root, parent[p], k - 1, m - 1); }
  }

  /** Whatever is on the way to the root is safe itself. */
  lemma ReachIsSafe(parent: Parents, dirs: set<nat>, sp: Special, p: nat, k: nat)
    requires Reach(parent, dirs, sp.root, p, k) && k <= DEPTH_LIMIT + 1
    ensures Safe(parent, dirs, sp, p)
  {
    if p != sp.root { ReachFarther(parent, dirs, sp.root, parent[p], k - 1, DEPTH_LIMIT); }
  }

  /** Moving an object that is not safe leaves the ways to the root alone. */
  lemma {:induction false} ReachStays(parent: Parents, dirs: set<nat>, sp: Special, x: nat, to: nat, p: nat, k: nat)
    requires !Safe(parent, dirs, sp, x) && Reach(parent, dirs, sp.root, p, k) && k <= DEPTH_LIMIT + 1
    ensures Reach(parent[x := to], dirs, sp.root, p, k)
    decreases k
  {
    ReachIsSafe(parent, dirs, sp, p, k);
    if p != sp.root { ReachStays(parent, dirs, sp, x, to, parent[p], k - 1); }
  }

  /** What is safe stays safe, so that an object once judged need not be looked at again. */
  lemma SafeStays(parent: Parents, dirs: set<nat>, sp: Special, x: nat, to: nat, o: nat)
    requires !Safe(parent, dirs, sp, x) && Safe(parent, dirs, sp, o)
    ensures Safe(parent[x := to], dirs, sp, o)
  {
    if !HasNullParent(sp, o) && !HasNullParent(sp, parent[o]) {
      ReachStays(parent, dirs, sp, x, to, parent[o], DEPTH_LIMIT);
    }
  }

  /** Directories nested one in another: directory `i` is in directory `i - 1`, and 0 is the root. */
  function Nest(n: nat): Parents { map i | i in NestDirs(n) && i > 0 :: i - 1 }

  function NestDirs(n: nat): (s: set<nat>)
    ensures forall i: nat :: i in s <==> i <= n
  {
    if n == 0 then {0} else NestDirs(n - 1) + {n}
  }

  lemma {:induction false} NestReach(n: nat, p: nat, k: nat)
    requires p <= n
    ensures Reach(Nest(n), NestDirs(n), 0, p, k) <==> p <= k
    decreases k
  {
    if p > 0 && k > 0 { NestReach(n, p - 1, k - 1); }
  }

  /** However deep the nest, all of it is rooted; but what is more than a hundred levels below the top counts as
      hanging. */
  lemma DeepNestHangs(n: nat, o: nat)
    requires 1 <= o <= n
    ensures Reach(Nest(n), NestDirs(n), 0, o, o)
    ensures Safe(Nest(n), NestDirs(n), Special(0, n + 1, n + 2), o) <==> o <= 101
  {
    NestReach(n, o, o);
    NestReach(n, o - 1, DEPTH_LIMIT);
  }

  // ---------- Directories ----------

  /** Children lists and parent links agree, and no list has an object twice. */
  ghost predicate Listed(parent: Parents, children: map<nat, seq<nat>>) {
    && (forall d, o :: d in children && o in children[d] ==> o in parent && parent[o] == d)
    && (forall o :: o in parent ==> parent[o] in children && o in children[parent[o]])
    && (forall d :: d in children ==> Distinct(children[d]))
  }

  predicate Distinct(s: seq<nat>) { forall i, j :: 0 <= i < j < |s| ==> s[i] != s[j] }

  function Without(s: seq<nat>, o: nat): (r: seq<nat>)
    ensures forall x :: x in r <==> x in s && x != o
  {
    if s == [] then [] else if s[0] == o then Without(s[1..], o) else [s[0]] + Without(s[1..], o)
  }

  lemma {:induction false} WithoutDistinct(s: seq<nat>, o: nat)
    requires Distinct(s)
    ensures Distinct(Without(s, o))
  {
    if s != [] {
      WithoutDistinct(s[1..], o);
      assert s[0] !in s[1..];
      assert s[0] !in Without(s[1..], o);
    }
  }

  lemma RemovedListed(parent: Parents, children: map<nat, seq<nat>>, o: nat)
    requires Listed(parent, children) && o in parent
    ensures Listed(parent - {o}, children[parent[o] := Without(children[parent[o]], o)])
  {
    hide Without, Distinct;
    WithoutDistinct(children[parent[o]], o);
  }

  lemma AddedListed(parent: Parents, children: map<nat, seq<nat>>, directory: nat, o: nat)
    requires Listed(parent, children) && o !in parent && directory in children
    ensures Listed(parent[o := directory], children[directory := [o] + children[directory]])
  {
    var list := [o] + children[directory];
    assert Distinct(list) by {
      assert o !in children[directory];
      assert Distinct(children[directory]);
    }
    hide Distinct;
    assert forall x :: x in list <==> x == o || x in children[directory];
  }

  class ObjTree {
    const sp: Special
    const lostAndFound: nat
    const dirs: set<nat>       // the objects that are directories
    const objects: seq<nat>    // all objects, in the order of the hash table

    var parent: Parents
    var children: map<nat, seq<nat>>

    /** Lost+found is a directory under the root, every other ordinary object has some parent. */
    ghost predicate Valid()
      reads this
    {
      && sp.root in dirs && lostAndFound in dirs && !HasNullParent(sp, lostAndFound)
      && lostAndFound in parent && parent[lostAndFound] == sp.root && lostAndFound in children
      && (forall o :: o in objects && !HasNullParent(sp, o) ==> o in parent)
      && Listed(parent, children)
    }

    method RemoveObjFromDir(o: nat)
      requires Listed(parent, children) && o in parent
      modifies this
      ensures Listed(parent, children) && parent == old(parent) - {o} && children.Keys == old(children).Keys
    {
      var d := parent[o];
      RemovedListed(parent, children, o);
      hide Listed, Without;
      children := children[d := Without(children[d], o)];
      parent := parent - {o};
    }

    /** Moves an object to a directory. */
    method AddObjToDir(directory: nat, o: nat)
      requires Listed(parent, children) && o in parent && directory in children
      modifies this
      ensures Listed(parent, children) && parent == old(parent)[o := directory] && children.Keys == old(children).Keys
      ensures |children[directory]| > 0 && children[directory][0] == o
    {
      hide Listed;
      RemoveObjFromDir(o);
      AddedListed(parent, children, directory, o);
      children := children[directory := [o] + children[directory]];
      parent := parent[o := directory];
    }

    /** Whether an object hangs loose. */
    method IsHanging(o: nat) returns (hanging: bool)
      ensures hanging <==> !Safe(parent, dirs, sp, o)
    {
      if HasNullParent(sp, o) {
        hanging := false;
      } else if o !in parent || parent[o] !in dirs {
        hanging := true;
      } else if HasNullParent(sp, parent[o]) {
        hanging := false;
      } else {
        var p, depthLimit := parent[o], DEPTH_LIMIT;
        while p != sp.root && p in parent && parent[p] in dirs && depthLimit > 0
          invariant Reach(parent, dirs, sp.root, p, depthLimit) == Reach(parent, dirs, sp.root, parent[o], DEPTH_LIMIT)
          decreases depthLimit
        {
          p := parent[p];
          depthLimit := depthLimit - 1;
        }
        hanging := p != sp.root;
      }
    }

    /** Moves all objects that hang loose to lost+found.  Afterwards every object is safe; objects that were safe before
        have not been moved. */
    method FixHangingObjs()
      requires Valid()
      modifies this
      ensures Valid() && forall o :: o in objects ==> Safe(parent, dirs, sp, o)
      ensures forall o :: old(Safe(parent, dirs, sp, o)) ==> Safe(parent, dirs, sp, o)
      ensures parent.Keys == old(parent).Keys
      ensures forall o :: o in parent && parent[o] != old(parent)[o] ==>
              parent[o] == lostAndFound && !old(Safe(parent, dirs, sp, o))
      ensures forall o :: o in parent &&
                          (o in {sp.root, sp.unlinked, sp.deleted} ||
                           (old(parent)[o] in {sp.root, sp.unlinked, sp.deleted} && old(parent)[o] in dirs)) ==>
              parent[o] == old(parent)[o]
    {
      hide Listed;
      var i := 0;
      while i < |objects|
        invariant 0 <= i <= |objects| && Valid() && parent.Keys == old(parent).Keys
        invariant forall j :: 0 <= j < i ==> Safe(parent, dirs, sp, objects[j])
        invariant forall o :: old(Safe(parent, dirs, sp, o)) ==> Safe(parent, dirs, sp, o)
        invariant forall o :: o in parent && parent[o] != old(parent)[o] ==>
                  parent[o] == lostAndFound && !old(Safe(parent, dirs, sp, o))
      {
        var o := objects[i];
        var hanging := IsHanging(o);
        if hanging {
          forall x | Safe(parent, dirs, sp, x) ensures Safe(parent[o := lostAndFound], dirs, sp, x) {
            SafeStays(parent, dirs, sp, o, lostAndFound, x);
          }
          assert Safe(parent, dirs, sp, lostAndFound);
          AddObjToDir(lostAndFound, o);
          assert Reach(parent, dirs, sp.root, sp.root, DEPTH_LIMIT - 1);
          assert Reach(parent, dirs, sp.root, lostAndFound, DEPTH_LIMIT);
        }
        i := i + 1;
      }
    }
  }
}
