/**
 Path names across mounts: the working directory is printed by going up to the root, and a path is walked by going down
 from it.  The two undo each other.
 */
module PathWalk {
  import opened Common

  /** A cached directory entry; roots are their own parents. */
  datatype Dentry = Dentry(name: string, parent: nat, subdirs: seq<nat>, isDir: bool)

  /** A mounted file system: where it is mounted and what its root is.  The first one is mounted nowhere. */
  datatype Mount = Mount(parent: nat, mountpoint: Option<nat>, root: nat)

  /** A directory entry as seen under a mount. */
  datatype Path = Path(mnt: nat, dentry: nat)

  type Dents = map<nat, Dentry>
  type Mounts = seq<Mount>

  const ENOENT := 2
  const ENOTDIR := 20
  const PATH_STACK_SIZE := 256

  predicate NameOk(name: string) { name != "" && '/' !in name && name != "." && name != ".." }

  /** Structure of the cache and of the mount table; `owner` says under which mount an entry is. */
  ghost predicate Sound(dents: Dents, mounts: Mounts, owner: map<nat, nat>) {
    && |mounts| > 0 && mounts[0].mountpoint.None?
    && (forall i :: 0 <= i < |mounts| ==>
          mounts[i].root in dents && mounts[i].root in owner && owner[mounts[i].root] == i
            && dents[mounts[i].root].parent == mounts[i].root)
    && (forall i :: 0 <= i < |mounts| && mounts[i].mountpoint.Some? ==>
          mounts[i].mountpoint.value in dents && mounts[i].mountpoint.value in owner
            && mounts[i].parent == owner[mounts[i].mountpoint.value])
    && (forall d :: d in dents ==> d in owner && owner[d] < |mounts|)
    && (forall d :: d in dents ==> Siblings(dents, owner, mounts, d))
  }

  /** The entries below `d`: they know their parent, have proper and different names, and are no roots. */
  ghost predicate Siblings(dents: Dents, owner: map<nat, nat>, mounts: Mounts, d: nat)
    requires d in dents && d in owner
  {
    && (dents[d].subdirs != [] ==> dents[d].isDir)
    && (forall k :: 0 <= k < |dents[d].subdirs| ==> IsChild(dents, owner, mounts, d, dents[d].subdirs[k]))
    && (forall j, k :: 0 <= j < k < |dents[d].subdirs| ==>
          dents[d].subdirs[j] in dents && dents[d].subdirs[k] in dents ==>
            dents[dents[d].subdirs[j]].name != dents[dents[d].subdirs[k]].name)
  }

  ghost predicate IsChild(dents: Dents, owner: map<nat, nat>, mounts: Mounts, d: nat, c: nat)
    requires d in owner
  {
    && c in dents && dents[c].parent == d && NameOk(dents[c].name) && c in owner && owner[c] == owner[d]
    && forall i :: 0 <= i < |mounts| ==> mounts[i].root != c
  }

  // ---------- Going down ----------

  /** The first mount at `d`, -1 when there is none. */
  function MountAt(mounts: Mounts, d: nat, from: nat): (i: int)
    ensures i == -1 || (from <= i < |mounts| && mounts[i].mountpoint == Some(d))
    ensures i == -1 ==> forall j :: from <= j < |mounts| ==> mounts[j].mountpoint != Some(d)
    ensures i >= 0 ==> forall j :: from <= j < i ==> mounts[j].mountpoint != Some(d)
    decreases |mounts| - from
  {
    if from >= |mounts| then -1 else if mounts[from].mountpoint == Some(d) then from else MountAt(mounts, d, from + 1)
  }

  /** Where one gets at `p`: to the root of what is mounted there, if anything is. */
  function Followed(mounts: Mounts, p: Path): Path {
    var i := MountAt(mounts, p.dentry, 0);
    if i >= 0 then Path(i, mounts[i].root) else p
  }

  /** Where the entries `comps`, one below the other, lead to from the root. */
  function Walked(mounts: Mounts, comps: seq<nat>): Path
    requires |mounts| > 0
  {
    if comps == [] then Path(0, mounts[0].root)
    else Followed(mounts, Path(Walked(mounts, comps[..|comps| - 1]).mnt, comps[|comps| - 1]))
  }

  /** Each of `comps` is below where the ones before lead to. */
  ghost predicate Trail(dents: Dents, mounts: Mounts, comps: seq<nat>)
    requires |mounts| > 0
  {
    comps != [] ==>
      var n := |comps| - 1;
      var d := Walked(mounts, comps[..n]).dentry;
      Trail(dents, mounts, comps[..n]) && d in dents && comps[n] in dents[d].subdirs
  }

  lemma {:induction false} TrailPrefix(dents: Dents, mounts: Mounts, comps: seq<nat>, k: nat)
    requires |mounts| > 0 && Trail(dents, mounts, comps) && k <= |comps|
    ensures Trail(dents, mounts, comps[..k])
  {
    if k == |comps| {
      assert comps[..k] == comps;
    } else {
      TrailPrefix(dents, mounts, comps[..|comps| - 1], k);
      assert comps[..|comps| - 1][..k] == comps[..k];
    }
  }

  /** Step `k` of a trail. */
  lemma TrailStep(dents: Dents, mounts: Mounts, comps: seq<nat>, k: nat)
    requires |mounts| > 0 && Trail(dents, mounts, comps) && k < |comps|
    ensures var p := Walked(mounts, comps[..k]);
            p.dentry in dents && comps[k] in dents[p.dentry].subdirs
              && Walked(mounts, comps[..k + 1]) == Followed(mounts, Path(p.mnt, comps[k]))
  {
    TrailPrefix(dents, mounts, comps, k + 1);
    assert comps[..k + 1][..k] == comps[..k];
  }

  /** A trail leads to an entry under the mount that owns it. */
  lemma {:induction false} TrailOwned(dents: Dents, mounts: Mounts, owner: map<nat, nat>, comps: seq<nat>)
    requires Sound(dents, mounts, owner) && Trail(dents, mounts, comps)
    ensures var p := Walked(mounts, comps);
            p.mnt < |mounts| && p.dentry in dents && p.dentry in owner && owner[p.dentry] == p.mnt
  {
    if comps != [] {
      var n := |comps| - 1;
      TrailOwned(dents, mounts, owner, comps[..n]);
      var d := Walked(mounts, comps[..n]).dentry;
      assert Siblings(dents, owner, mounts, d);
    }
  }

  /** What one sees of the last entry of a trail when going up again. */
  lemma GoingUp(dents: Dents, mounts: Mounts, owner: map<nat, nat>, comps: seq<nat>)
    requires Sound(dents, mounts, owner) && Trail(dents, mounts, comps) && comps != []
    ensures var n := |comps| - 1; var p, q, c := Walked(mounts, comps[..n]), Walked(mounts, comps), comps[n];
            && q.mnt < |mounts| && p.mnt < |mounts| && c in dents && dents[c].parent == p.dentry
              && NameOk(dents[c].name)
            && c != mounts[0].root && c != mounts[p.mnt].root && q.dentry != mounts[0].root
            && (q == Path(p.mnt, c) ||
                (q.dentry == mounts[q.mnt].root && mounts[q.mnt].mountpoint == Some(c)
                 && mounts[q.mnt].parent == p.mnt))
  {
    var n := |comps| - 1;
    var p, q, c := Walked(mounts, comps[..n]), Walked(mounts, comps), comps[n];
    TrailOwned(dents, mounts, owner, comps[..n]);
    assert Siblings(dents, owner, mounts, p.dentry);
    var k :| 0 <= k < |dents[p.dentry].subdirs| && dents[p.dentry].subdirs[k] == c;
    assert IsChild(dents, owner, mounts, p.dentry, c);
  }

  // ---------- Printing ----------

  /** The path name that consists of the names of the entries. */
  function Join(dents: Dents, comps: seq<nat>): string
    requires forall k :: 0 <= k < |comps| ==> comps[k] in dents
  {
    if comps == [] then "" else "/" + dents[comps[0]].name + Join(dents, comps[1..])
  }

  /** What is printed for a trail. */
  function Print(dents: Dents, comps: seq<nat>): string
    requires forall k :: 0 <= k < |comps| ==> comps[k] in dents
  {
    if comps == [] then "/" else Join(dents, comps)
  }

  lemma {:induction false} TrailIn(dents: Dents, mounts: Mounts, owner: map<nat, nat>, comps: seq<nat>)
    requires Sound(dents, mounts, owner) && Trail(dents, mounts, comps)
    ensures forall k :: 0 <= k < |comps| ==> comps[k] in dents && NameOk(dents[comps[k]].name)
  {
    if comps != [] {
      TrailIn(dents, mounts, owner, comps[..|comps| - 1]);
      GoingUp(dents, mounts, owner, comps);
    }
  }

  lemma Associate(s: string, t: string, u: string)
    ensures (s + t) + u == s + (t + u)
  {
  }

  lemma {:induction false} JoinSplit(dents: Dents, a: seq<nat>, b: seq<nat>)
    requires forall k :: 0 <= k < |a| ==> a[k] in dents
    requires forall k :: 0 <= k < |b| ==> b[k] in dents
    ensures forall k :: 0 <= k < |a + b| ==> (a + b)[k] in dents
    ensures Join(dents, a + b) == Join(dents, a) + Join(dents, b)
  {
    if a == [] {
      assert a + b == b;
    } else {
      JoinSplit(dents, a[1..], b);
      assert (a + b)[1..] == a[1..] + b && (a + b)[0] == a[0];
      Associate("/" + dents[a[0]].name, Join(dents, a[1..]), Join(dents, b));
    }
  }

  /** The first `m` entries are printed, and they are the first ones that fill the buffer, or all. */
  ghost predicate FillsUp(dents: Dents, comps: seq<nat>, size: nat, m: nat, buff: string)
    requires forall k :: 0 <= k < |comps| ==> comps[k] in dents
  {
    && 0 < m <= |comps| && buff == Join(dents, comps[..m]) && (m == |comps| || |buff| >= size)
    && forall k :: 0 < k < m ==> |Join(dents, comps[..k])| < size
  }

  // ---------- Parsing ----------

  /** Skips slashes. */
  method SkipSlashes(s: string, i: nat) returns (j: nat)
    requires i <= |s|
    ensures i <= j <= |s| && (forall m :: i <= m < j ==> s[m] == '/') && (j < |s| ==> s[j] != '/')
  {
    j := i;
    while j < |s| && s[j] == '/'
      invariant i <= j <= |s| && forall m :: i <= m < j ==> s[m] == '/'
    {
      j := j + 1;
    }
  }

  /** The end of the component that starts at `i`. */
  method UnitEnd(s: string, i: nat) returns (e: nat)
    requires i < |s| && s[i] != '/'
    ensures i < e <= |s| && (forall m :: i <= m < e ==> s[m] != '/') && (e < |s| ==> s[e] == '/')
  {
    e := i + 1;
    while e < |s| && s[e] != '/'
      invariant i < e <= |s| && forall m :: i <= m < e ==> s[m] != '/'
    {
      e := e + 1;
    }
  }

  /** The parser finds the components of what was printed. */
  lemma ParseStart(s: string, i: nat, j: nat, name: string, rest: string)
    requires i <= j <= |s| && s[i..] == "/" + name + rest && NameOk(name)
    requires (forall m :: i <= m < j ==> s[m] == '/') && (j < |s| ==> s[j] != '/')
    ensures j == i + 1 < |s|
  {
    var t := s[i..];
    assert s[i] == t[0] && s[i + 1] == t[1] == name[0];
  }

  lemma ParseUnit(s: string, i: nat, e: nat, name: string, rest: string)
    requires i + 1 < e <= |s| && s[i..] == "/" + name + rest && NameOk(name) && (rest == "" || rest[0] == '/')
    requires (forall m :: i + 1 <= m < e ==> s[m] != '/') && (e < |s| ==> s[e] == '/')
    ensures s[i + 1..e] == name && s[e..] == rest
  {
    var t, n := s[i..], |name|;
    forall m | i < m <= i + n ensures s[m] != '/' { assert s[m] == t[m - i] == name[m - i - 1]; }
    assert rest != "" ==> s[i + 1 + n] == t[1 + n] == rest[0];
    assert e == i + 1 + n;
    assert s[i + 1..e] == t[1..1 + n] && t[1..1 + n] == name;
    assert s[e..] == t[1 + n..] && t[1 + n..] == rest;
  }

  // ---------- Components ----------

  /** Where the last component of `s` starts. */
  function Stem(s: string): (n: nat)
    ensures n <= |s| && '/' !in s[n..] && (n > 0 ==> s[n - 1] == '/')
  {
    if s == "" || s[|s| - 1] == '/' then |s|
    else
      var n := Stem(s[..|s| - 1]);
      assert s[n..] == s[..|s| - 1][n..] + [s[|s| - 1]];
      n
  }

  /** The components of a path name, that is what is between the slashes, however many these are. */
  function Units(s: string): seq<string> {
    if s == "" then []
    else if s[|s| - 1] == '/' then Units(s[..|s| - 1])
    else var n := Stem(s); Units(s[..n]) + [s[n..]]
  }

  lemma {:induction false} UnitsSkip(s: string, i: nat, j: nat)
    requires i <= j <= |s| && forall m :: i <= m < j ==> s[m] == '/'
    ensures Units(s[..j]) == Units(s[..i])
  {
    if i < j {
      assert s[..j][..j - 1] == s[..j - 1];
      UnitsSkip(s, i, j - 1);
    }
  }

  lemma UnitsNext(s: string, j: nat, e: nat)
    requires j < e <= |s| && (j > 0 ==> s[j - 1] == '/') && forall m :: j <= m < e ==> s[m] != '/'
    ensures Units(s[..e]) == Units(s[..j]) + [s[j..e]]
  {
    var t := s[..e];
    StemIs(t, j);
    assert t[..j] == s[..j] && t[j..] == s[j..e];
  }

  lemma {:induction false} StemIs(t: string, j: nat)
    requires j <= |t| && (j > 0 ==> t[j - 1] == '/') && forall m :: j <= m < |t| ==> t[m] != '/'
    ensures Stem(t) == j
  {
    if j < |t| { StemIs(t[..|t| - 1], j); }
  }

  lemma {:induction false} SlashBefore(s: string, i: nat)
    requires i < |s| && s[i] == '/'
    ensures i < Stem(s)
  {
    if s[|s| - 1] != '/' { SlashBefore(s[..|s| - 1], i); }
  }

  /** Later components make no difference to the ones before. */
  lemma {:induction false} UnitsFront(s: string, i: nat)
    requires i <= |s| && (i == 0 || i == |s| || s[i] == '/')
    ensures Units(s[..i]) <= Units(s)
    decreases |s|
  {
    if i == |s| {
      assert s[..i] == s;
    } else {
      var n := if s[|s| - 1] == '/' then |s| - 1 else Stem(s);
      if i > 0 { SlashBefore(s, i); }
      assert s[..n][..i] == s[..i];
      UnitsFront(s[..n], i);
    }
  }

  /** The names along a way on which a path goes on from one with these names: "." stays where it is, and ".." takes
      the last one away. */
  function Resolved(names: seq<string>, units: seq<string>): seq<string> {
    if units == [] then names
    else
      var n := |units| - 1;
      var r := Resolved(names, units[..n]);
      if units[n] == "." then r
      else if units[n] == ".." then if r == [] then [] else r[..|r| - 1]
      else r + [units[n]]
  }

  /** Without dots the components are the names. */
  lemma {:induction false} ResolvedPlain(names: seq<string>, units: seq<string>)
    requires "." !in units && ".." !in units
    ensures Resolved(names, units) == names + units
  {
    if units != [] {
      var n := |units| - 1;
      ResolvedPlain(names, units[..n]);
      assert units == units[..n] + [units[n]];
    } else {
      assert names + units == names;
    }
  }

  /** The names of entries. */
  function Names(dents: Dents, comps: seq<nat>): (r: seq<string>)
    ensures |r| == |comps|
  {
    seq(|comps|, k requires 0 <= k < |comps| => if comps[k] in dents then dents[comps[k]].name else "")
  }

  /** What is printed has the names as its components. */
  lemma {:induction false} PrintedUnits(dents: Dents, comps: seq<nat>)
    requires forall k :: 0 <= k < |comps| ==> comps[k] in dents && NameOk(dents[comps[k]].name)
    ensures Units(Print(dents, comps)) == Names(dents, comps)
  {
    hide Units, Join, Names;
    if comps == [] {
      NoUnits();
      assert Names(dents, []) == [];
    } else {
      var n := |comps| - 1;
      var name := dents[comps[n]].name;
      assert comps[..n + 1] == comps;
      JoinMore(dents, comps, n);
      var front := Join(dents, comps[..n]);
      var s := front + "/" + name;
      var k := |front|;
      UnitsNext(s, k + 1, |s|);
      UnitsSkip(s, k, k + 1);
      assert s[..|s|] == s && s[..k] == front && s[k + 1..|s|] == name;
      PrintedUnits(dents, comps[..n]);
      if n == 0 { NoUnits(); JoinNone(dents); assert comps[..n] == []; }
      NamesMore(dents, comps[..n], comps[n]);
      assert comps[..n] + [comps[n]] == comps;
    }
  }

  lemma NoUnits()
    ensures Units("") == [] && Units("/") == []
  {
    assert "/"[..0] == "";
  }

  lemma NamesMore(dents: Dents, comps: seq<nat>, c: nat)
    requires c in dents
    ensures Names(dents, comps + [c]) == Names(dents, comps) + [dents[c].name]
    ensures Names(dents, Up(comps)) == if comps == [] then [] else Names(dents, comps)[..|comps| - 1]
  {
  }

  lemma NamesUp(dents: Dents, comps: seq<nat>)
    ensures Names(dents, Up(comps)) == if comps == [] then [] else Names(dents, comps)[..|comps| - 1]
  {
  }

  lemma NamesStay(dents: Dents, dents': Dents, mounts: Mounts, owner: map<nat, nat>, comps: seq<nat>, p: Path)
    requires Sound(dents, mounts, owner) && LeadsTo(dents, mounts, comps, p) && Grown(dents, dents')
    ensures Names(dents', comps) == Names(dents, comps)
  {
    TrailIn(dents, mounts, owner, comps);
  }

  /** The way `trail` leads to `nd`, and has the names to which these components lead from the start. */
  ghost predicate Follows(dents: Dents, mounts: Mounts, trail: seq<nat>, nd: Path, names: seq<string>,
                          units: seq<string>) {
    LeadsTo(dents, mounts, trail, nd) && Names(dents, trail) == Resolved(names, units)
  }

  lemma FollowsStays(dents: Dents, dents': Dents, mounts: Mounts, owner: map<nat, nat>, trail: seq<nat>, nd: Path,
                     names: seq<string>, units: seq<string>)
    requires Sound(dents, mounts, owner) && Follows(dents, mounts, trail, nd, names, units) && Grown(dents, dents')
    ensures Follows(dents', mounts, trail, nd, names, units)
  {
    hide Sound, Names, Resolved;
    NamesStay(dents, dents', mounts, owner, trail, nd);
    LeadsStays(dents, dents', mounts, trail, nd);
  }

  /** The first `k` components lead to `nd`, which is no directory, or has nothing that is called like the next one, be
      it in the cache or on disk. */
  ghost predicate EndsAt(dents: Dents, mounts: Mounts, trail: seq<nat>, nd: Path, names: seq<string>,
                         units: seq<string>, k: nat, isDir: bool, disk: Disk) {
    && k < |units| && Follows(dents, mounts, trail, nd, names, units[..k])
    && nd.dentry in dents && dents[nd.dentry].isDir == isDir
    && (isDir ==> Missing(dents, nd.dentry, units[k], disk))
  }

  ghost predicate Missing(dents: Dents, d: nat, name: string, disk: Disk)
    requires d in dents
  {
    disk(d, name).None? && forall c :: c in dents[d].subdirs && c in dents ==> dents[c].name != name
  }

  ghost predicate Ends(dents: Dents, mounts: Mounts, trail: seq<nat>, nd: Path, names: seq<string>,
                       units: seq<string>, isDir: bool, disk: Disk) {
    exists k: nat :: EndsAt(dents, mounts, trail, nd, names, units, k, isDir, disk)
  }

  lemma StartFollows(dents: Dents, mounts: Mounts, trail: seq<nat>, nd: Path, s: string)
    requires LeadsTo(dents, mounts, trail, nd)
    ensures Follows(dents, mounts, trail, nd, Names(dents, trail), Units(s[..0]))
  {
  }

  /** One component more. */
  lemma FollowsOn(dents: Dents, dents': Dents, mounts: Mounts, owner: map<nat, nat>, trail: seq<nat>, nd: Path,
                  names: seq<string>, units: seq<string>, u: string, trail': seq<nat>, p: Path)
    requires Sound(dents, mounts, owner) && Follows(dents, mounts, trail, nd, names, units) && Grown(dents, dents')
    requires LeadsTo(dents', mounts, trail', p)
    requires u == "." ==> trail' == trail
    requires u == ".." ==> trail' == Up(trail)
    requires u != "." && u != ".." ==>
               |trail'| == |trail| + 1 && trail' == trail + [trail'[|trail|]] && trail'[|trail|] in dents' &&
               dents'[trail'[|trail|]].name == u
    ensures Follows(dents', mounts, trail', p, names, units + [u])
  {
    hide Sound, LeadsTo, Grown;
    NamesStay(dents, dents', mounts, owner, trail, nd);
    assert (units + [u])[..|units|] == units;
    NamesUp(dents', trail);
    if u != "." && u != ".." { NamesMore(dents', trail, trail'[|trail|]); }
  }

  lemma EndsThere(dents: Dents, mounts: Mounts, trail: seq<nat>, nd: Path, names: seq<string>, s: string, i: nat,
                  j: nat, e: nat, isDir: bool, disk: Disk)
    requires i <= j < e <= |s| && (forall m :: i <= m < j ==> s[m] == '/') && (i == 0 || s[i] == '/')
    requires (forall m :: j <= m < e ==> s[m] != '/') && (e < |s| ==> s[e] == '/')
    requires Follows(dents, mounts, trail, nd, names, Units(s[..i]))
    requires nd.dentry in dents && dents[nd.dentry].isDir == isDir
    requires isDir ==> Missing(dents, nd.dentry, s[j..e], disk)
    ensures Ends(dents, mounts, trail, nd, names, Units(s), isDir, disk)
  {
    hide Follows, Units;
    var k := |Units(s[..i])|;
    UnitsSkip(s, i, j);
    UnitsNext(s, j, e);
    UnitsFront(s, e);
    assert Units(s)[..k] == Units(s[..i]) && Units(s)[k] == Units(s[..e])[k];
    assert EndsAt(dents, mounts, trail, nd, names, Units(s), k, isDir, disk);
  }

  /** The first component is not "..". */
  predicate NoDotsFirst(s: string) {
    forall i, e :: 0 <= i < e <= |s| && s[i..e] == ".." ==>
      !((forall m :: 0 <= m < i ==> s[m] == '/') && (e == |s| || s[e] == '/'))
  }

  // ---------- The mounted file systems ----------

  ghost predicate Reached(dents: Dents, mounts: Mounts, p: Path) {
    |mounts| > 0 && exists comps :: Trail(dents, mounts, comps) && Walked(mounts, comps) == p
  }

  /** More entries may have been cached; none went away. */
  ghost predicate Grown(dents: Dents, dents': Dents) {
    forall d :: d in dents ==>
      && d in dents' && dents[d].subdirs <= dents'[d].subdirs
      && dents'[d] == dents[d].(subdirs := dents'[d].subdirs)
  }

  /** What a file system says of a name below an entry: whether it is there, and if so, whether it is a directory. */
  type Disk = (nat, string) -> Option<bool>

  /** What has been cached is what the file system says. */
  ghost predicate FromDisk(dents: Dents, dents': Dents, disk: Disk) {
    forall d :: d in dents' && d !in dents ==> disk(dents'[d].parent, dents'[d].name) == Some(dents'[d].isDir)
  }

  lemma {:induction false} TrailStays(dents: Dents, dents': Dents, mounts: Mounts, comps: seq<nat>)
    requires |mounts| > 0 && Trail(dents, mounts, comps) && Grown(dents, dents')
    ensures Trail(dents', mounts, comps)
  {
    if comps != [] { TrailStays(dents, dents', mounts, comps[..|comps| - 1]); }
  }

  lemma ReachedStays(dents: Dents, dents': Dents, mounts: Mounts, p: Path)
    requires Reached(dents, mounts, p) && Grown(dents, dents')
    ensures Reached(dents', mounts, p)
  {
    var comps :| Trail(dents, mounts, comps) && Walked(mounts, comps) == p;
    TrailStays(dents, dents', mounts, comps);
  }

  /** `comps` is a way to `p`. */
  ghost predicate LeadsTo(dents: Dents, mounts: Mounts, comps: seq<nat>, p: Path) {
    |mounts| > 0 && Trail(dents, mounts, comps) && Walked(mounts, comps) == p
  }

  lemma LeadsReached(dents: Dents, mounts: Mounts, comps: seq<nat>, p: Path)
    requires LeadsTo(dents, mounts, comps, p)
    ensures Reached(dents, mounts, p)
  {
  }

  lemma LeadsStays(dents: Dents, dents': Dents, mounts: Mounts, comps: seq<nat>, p: Path)
    requires LeadsTo(dents, mounts, comps, p) && Grown(dents, dents')
    ensures LeadsTo(dents', mounts, comps, p)
  {
    TrailStays(dents, dents', mounts, comps);
  }

  lemma LeadsIn(dents: Dents, mounts: Mounts, owner: map<nat, nat>, comps: seq<nat>, p: Path)
    requires Sound(dents, mounts, owner) && LeadsTo(dents, mounts, comps, p)
    ensures p.dentry in dents && p.mnt < |mounts|
  {
    TrailOwned(dents, mounts, owner, comps);
  }

  /** From a directory one gets to what is below it. */
  lemma LeadsBelow(dents: Dents, mounts: Mounts, comps: seq<nat>, p: Path, c: nat)
    requires LeadsTo(dents, mounts, comps, p) && p.dentry in dents && c in dents[p.dentry].subdirs
    ensures LeadsTo(dents, mounts, comps + [c], Followed(mounts, Path(p.mnt, c)))
  {
    assert (comps + [c])[..|comps|] == comps;
  }

  /** A way without its last step. */
  function Up(comps: seq<nat>): seq<nat> { if comps == [] then [] else comps[..|comps| - 1] }

  /** Where ".." leads to. */
  lemma LeadsUp(dents: Dents, mounts: Mounts, owner: map<nat, nat>, comps: seq<nat>, p: Path)
    requires Sound(dents, mounts, owner) && LeadsTo(dents, mounts, comps, p)
    ensures p.mnt < |mounts| && p.dentry in dents
    ensures var i := mounts[p.mnt];
            var q := if p.dentry == i.root && i.mountpoint.Some? then Path(i.parent, i.mountpoint.value) else p;
            q.dentry in dents && LeadsTo(dents, mounts, Up(comps), Path(q.mnt, dents[q.dentry].parent))
  {
    TrailOwned(dents, mounts, owner, comps);
    if comps != [] { GoingUp(dents, mounts, owner, comps); }
  }

  /** No entry is called "..". */
  lemma NoDotsBelow(dents: Dents, mounts: Mounts, owner: map<nat, nat>, d: nat)
    requires Sound(dents, mounts, owner) && d in dents
    ensures forall c :: c in dents[d].subdirs && c in dents ==> dents[c].name != ".."
  {
    assert Siblings(dents, owner, mounts, d);
    forall c | c in dents[d].subdirs && c in dents ensures dents[c].name != ".." {
      var k :| 0 <= k < |dents[d].subdirs| && dents[d].subdirs[k] == c;
      assert IsChild(dents, owner, mounts, d, dents[d].subdirs[k]);
    }
  }

  /** A way to where the walk of `s` starts. */
  lemma StartOf(dents: Dents, mounts: Mounts, owner: map<nat, nat>, pwd: Path, s: string) returns (comps: seq<nat>)
    requires Sound(dents, mounts, owner) && Reached(dents, mounts, pwd)
    ensures |mounts| > 0 && LeadsTo(dents, mounts, comps, if IsRelative(s) then pwd else Path(0, mounts[0].root))
    ensures !IsRelative(s) ==> comps == []
    ensures Slashes(s[..0]) == 0
  {
    if IsRelative(s) {
      comps :| Trail(dents, mounts, comps) && Walked(mounts, comps) == pwd;
    } else {
      comps := [];
    }
  }

  /** There is one way only to any entry: the one that is found by going up. */
  lemma {:induction false} OneWay(dents: Dents, mounts: Mounts, owner: map<nat, nat>, a: seq<nat>, b: seq<nat>)
    requires Sound(dents, mounts, owner) && Trail(dents, mounts, a) && Trail(dents, mounts, b)
    requires Walked(mounts, a) == Walked(mounts, b)
    ensures a == b
  {
    hide Sound;
    RootReached(dents, mounts, owner);
    if a != [] { GoingUp(dents, mounts, owner, a); }
    if b != [] { GoingUp(dents, mounts, owner, b); }
    if a != [] && b != [] { OneWay(dents, mounts, owner, a[..|a| - 1], b[..|b| - 1]); }
  }

  // ---------- Counting slashes ----------

  function Slashes(s: string): nat {
    if s == "" then 0 else Slashes(s[..|s| - 1]) + if s[|s| - 1] == '/' then 1 else 0
  }

  lemma {:induction false} SlashesGrow(s: string, i: nat, e: nat)
    requires i <= e <= |s|
    ensures Slashes(s[..i]) + (if i < e && s[i] == '/' then 1 else 0) <= Slashes(s[..e])
    ensures s[..|s|] == s
  {
    if i < e {
      assert s[..e][..e - 1] == s[..e - 1];
      SlashesGrow(s, i, e - 1);
    }
  }

  lemma {:induction false} SlashesConcat(a: string, b: string)
    ensures Slashes(a + b) == Slashes(a) + Slashes(b)
  {
    if b == "" {
      assert a + b == a;
    } else {
      assert (a + b)[..|a + b| - 1] == a + b[..|b| - 1];
      SlashesConcat(a, b[..|b| - 1]);
    }
  }

  lemma {:induction false} NoSlashes(s: string)
    requires '/' !in s
    ensures Slashes(s) == 0
  {
    if s != "" { NoSlashes(s[..|s| - 1]); }
  }

  /** What is printed has a slash for every component. */
  lemma {:induction false} JoinSlashes(dents: Dents, comps: seq<nat>)
    requires forall k :: 0 <= k < |comps| ==> comps[k] in dents && NameOk(dents[comps[k]].name)
    ensures Slashes(Join(dents, comps)) == |comps|
  {
    if comps != [] {
      var name, rest := dents[comps[0]].name, Join(dents, comps[1..]);
      SlashesConcat("/" + name, rest);
      SlashesConcat("/", name);
      NoSlashes(name);
      assert "/"[..0] == "";
      JoinSlashes(dents, comps[1..]);
    }
  }

  /** A new entry `c` below `d`. */
  function Cached(dents: Dents, d: nat, c: nat, name: string, isDir: bool): Dents
    requires d in dents
  {
    dents[d := dents[d].(subdirs := dents[d].subdirs + [c])][c := Dentry(name, d, [], isDir)]
  }

  lemma CachedSound(dents: Dents, mounts: Mounts, owner: map<nat, nat>, d: nat, c: nat, name: string, isDir: bool)
    requires Sound(dents, mounts, owner) && d in dents && c !in dents && dents[d].isDir && NameOk(name)
    requires forall k :: 0 <= k < |dents[d].subdirs| && dents[d].subdirs[k] in dents ==>
             dents[dents[d].subdirs[k]].name != name
    ensures d in owner && Sound(Cached(dents, d, c, name, isDir), mounts, owner[c := owner[d]])
            && Grown(dents, Cached(dents, d, c, name, isDir))
  {
    hide Siblings;
    var dents', owner' := Cached(dents, d, c, name, isDir), owner[c := owner[d]];
    forall x | x in dents' ensures Siblings(dents', owner', mounts, x) {
      CachedSiblings(dents, mounts, owner, d, c, name, isDir, x);
    }
  }

  lemma CachedSiblings(dents: Dents, mounts: Mounts, owner: map<nat, nat>, d: nat, c: nat, name: string, isDir: bool,
                       x: nat)
    requires d in dents && d in owner && c !in dents && dents[d].isDir && NameOk(name)
    requires x == c || (x in dents && x in owner && Siblings(dents, owner, mounts, x))
    requires forall i :: 0 <= i < |mounts| ==> mounts[i].root in dents
    requires forall k :: 0 <= k < |dents[d].subdirs| && dents[d].subdirs[k] in dents ==>
             dents[dents[d].subdirs[k]].name != name
    ensures Siblings(Cached(dents, d, c, name, isDir), owner[c := owner[d]], mounts, x)
  {
    var dents', owner' := Cached(dents, d, c, name, isDir), owner[c := owner[d]];
    if x != c {
      forall k | 0 <= k < |dents'[x].subdirs| ensures IsChild(dents', owner', mounts, x, dents'[x].subdirs[k]) {
        if k < |dents[x].subdirs| { assert IsChild(dents, owner, mounts, x, dents[x].subdirs[k]); }
      }
    }
  }

  class Vfs {
    var dents: Dents
    var mounts: Mounts
    var pwd: Path
    var next: nat                  // entries from here on are unused
    ghost var owner: map<nat, nat>

    ghost predicate Valid()
      reads this
    {
      Sound(dents, mounts, owner) && forall d :: d in dents ==> d < next
    }

    /** Mounts the root file system, and makes its root the working directory. */
    constructor ()
      ensures Valid() && |mounts| == 1 && pwd == Path(0, mounts[0].root) && Reached(dents, mounts, pwd)
      ensures dents == map[pwd.dentry := Dentry("/", pwd.dentry, [], true)]
    {
      dents, owner := map[0 := Dentry("/", 0, [], true)], map[0 := 0];
      mounts, next := [Mount(0, None, 0)], 1;
      pwd := Path(0, 0);
      new;
      assert Sound(dents, mounts, owner);
      RootReached(dents, mounts, owner);
    }

    /** The first mount at an entry, -1 when there is none. */
    method LookupMnt(d: nat) returns (i: int)
      ensures i == MountAt(mounts, d, 0)
    {
      for k := 0 to |mounts|
        invariant MountAt(mounts, d, 0) == MountAt(mounts, d, k)
      {
        if mounts[k].mountpoint == Some(d) { return k; }
      }
      return -1;
    }

    method FollowMount(p: Path) returns (q: Path)
      ensures q == Followed(mounts, p)
    {
      var i := LookupMnt(p.dentry);
      q := if i >= 0 then Path(i, mounts[i].root) else p;
    }

    /** The cached entry of a name below an entry. */
    method DLookup(d: nat, name: string) returns (c: Option<nat>)
      requires Valid() && d in dents
      ensures c.Some? ==> c.value in dents[d].subdirs && c.value in dents && dents[c.value].name == name
      ensures c.None? ==> forall k :: 0 <= k < |dents[d].subdirs| && dents[d].subdirs[k] in dents ==>
              dents[dents[d].subdirs[k]].name != name
    {
      assert Siblings(dents, owner, mounts, d);
      for k := 0 to |dents[d].subdirs|
        invariant forall j :: 0 <= j < k && dents[d].subdirs[j] in dents ==> dents[dents[d].subdirs[j]].name != name
      {
        var e := dents[d].subdirs[k];
        assert IsChild(dents, owner, mounts, d, e);
        if dents[e].name == name { return Some(e); }
      }
      return None;
    }

    /** Asks the file system for a name that is not cached; if it exists, a new entry is cached. */
    method RealLookup(d: nat, name: string, disk: Disk) returns (c: Option<nat>)
      requires Valid() && d in dents && dents[d].isDir && NameOk(name)
      requires forall k :: 0 <= k < |dents[d].subdirs| && dents[d].subdirs[k] in dents ==>
               dents[dents[d].subdirs[k]].name != name
      modifies this`dents, this`next, this`owner
      ensures Valid() && Grown(old(dents), dents) && FromDisk(old(dents), dents, disk)
      ensures c.Some? <==> disk(d, name).Some?
      ensures c.Some? ==> d in dents && c.value in dents[d].subdirs && c.value in dents && dents[c.value].name == name
      ensures c.None? ==> dents == old(dents)
    {
      var isDir := disk(d, name);
      if isDir.None? { return None; }
      c := Some(next);
      CachedSound(dents, mounts, owner, d, next, name, isDir.value);
      hide Sound, Grown;
      owner := owner[next := owner[d]];
      dents := Cached(dents, d, next, name, isDir.value);
      next := next + 1;
    }

    /** One component of a path; `last` is where the component before has led to, which ".." looks at. */
    method DoLookup(nd: Path, name: string, last: Path, disk: Disk, ghost trail: seq<nat>) returns (ok: bool, p: Path)
      requires Valid() && LeadsTo(dents, mounts, trail, nd) && nd.dentry in dents && dents[nd.dentry].isDir
      requires name != "" && '/' !in name && (name == ".." ==> last == nd)
      modifies this`dents, this`next, this`owner
      ensures Valid() && Grown(old(dents), dents) && FromDisk(old(dents), dents, disk)
      ensures name == "." ==> ok && p == nd && dents == old(dents)
      ensures name == ".." ==> ok && LeadsTo(dents, mounts, Up(trail), p)
      ensures ok && name != "." && name != ".." ==>
                && nd.dentry in dents
                && exists c :: c in dents[nd.dentry].subdirs && c in dents && dents[c].name == name
                               && p == Followed(mounts, Path(nd.mnt, c))
      ensures !ok ==> dents == old(dents) && Missing(dents, nd.dentry, name, disk)
      ensures forall c :: c in old(dents)[nd.dentry].subdirs && c in old(dents) && old(dents)[c].name == name != "." ==>
                ok && p == Followed(mounts, Path(nd.mnt, c)) && dents == old(dents)
    {
      GrownSame(dents);
      if name == "." { return true, nd; }
      if name == ".." {
        LeadsUp(dents, mounts, owner, trail, nd);
        ok, p := true, nd;
        if last.dentry == mounts[last.mnt].root && mounts[last.mnt].mountpoint.Some? { p := FollowUp(nd); }
        p := Path(p.mnt, dents[p.dentry].parent);
        NoDotsBelow(dents, mounts, owner, nd.dentry);
        return;
      }
      LeadsIn(dents, mounts, owner, trail, nd);
      hide LeadsTo;
      var c := DLookup(nd.dentry, name);
      if c.Some? {
        SameName(dents, mounts, owner, nd.dentry, c.value);
      } else {
        c := RealLookup(nd.dentry, name, disk);
        if c.None? { return false, nd; }
      }
      ok := true;
      p := FollowMount(Path(nd.mnt, c.value));
    }

    /** Walks a path from the root or from the working directory, to which `start` is the way.  It ends somewhere that
        can be reached: the names along the way there, `trail`, are those to which the components of the path lead from
        the names along `start`.  Otherwise it stops at a component that has no directory before it, or is not there.
        There are no more entries on the way than slashes if it starts at the root; and a string that spells a trail, or
        the rest of one from the working directory on, leads to where the trail leads. */
    method Walk(s: string, disk: Disk, ghost comps: seq<nat>, ghost from: nat)
      returns (r: int, nd: Path, ghost trail: seq<nat>, ghost start: seq<nat>)
      requires Valid() && NoDotsFirst(s) && Reached(dents, mounts, pwd)
      modifies this`dents, this`next, this`owner
      ensures Valid() && Grown(old(dents), dents) && FromDisk(old(dents), dents, disk) && r in {0, -ENOTDIR, -ENOENT}
      ensures r == 0 ==> LeadsTo(dents, mounts, trail, nd) && (!IsRelative(s) ==> |trail| <= Slashes(s))
      ensures LeadsTo(old(dents), mounts, start, if IsRelative(s) then pwd else Path(0, mounts[0].root))
      ensures r == 0 ==> Follows(dents, mounts, trail, nd, Names(old(dents), start), Units(s))
      ensures r != 0 ==> Ends(dents, mounts, trail, nd, Names(old(dents), start), Units(s), r == -ENOENT, disk)
      ensures Spelled(old(dents), mounts, pwd, comps, from, s) ==>
              r == 0 && nd == Walked(mounts, comps) && dents == old(dents)
    {
      hide Sound, Grown, Reached, Spelled, Walked, Left, Trail, NoDotsFirst, Join, Slashes, LeadsTo, Follows, Ends,
        Missing, FromDisk, Units, Resolved, Names;
      trail := StartOf(dents, mounts, owner, pwd, s);
      start := trail;
      ghost var names := Names(dents, start);
      nd := if s != "" && s[0] == '/' then Path(0, mounts[0].root) else pwd;
      var i, last: Path := 0, *;
      ghost var good, k := Spelled(dents, mounts, pwd, comps, from, s), from;
      GrownSame(dents);
      NothingCached(dents, disk);
      if good { LeftStart(dents, mounts, pwd, comps, from, s); }
      StartFollows(dents, mounts, trail, nd, s);
      while true
        invariant i <= |s| && (i == 0 || i == |s| || s[i] == '/')
        invariant Valid() && Grown(old(dents), dents) && LeadsTo(dents, mounts, trail, nd)
        invariant FromDisk(old(dents), dents, disk)
        invariant Follows(dents, mounts, trail, nd, names, Units(s[..i]))
        invariant !IsRelative(s) ==> |trail| <= Slashes(s[..i])
        invariant i == 0 || last == nd
        invariant good ==> dents == old(dents) && Left(dents, mounts, comps, s, i, k, nd)
        decreases |s| - i
      {
        var j := SkipSlashes(s, i);
        if good { LeftMore(dents, mounts, owner, comps, s, i, k, nd, j); }
        if j == |s| {
          SlashesGrow(s, i, |s|);
          UnitsSkip(s, i, |s|);
          return 0, nd, trail, start;
        }
        var e := UnitEnd(s, j);
        UnitOk(s, i, j, e, last == nd);
        SlashesGrow(s, i, e);
        LeadsIn(dents, mounts, owner, trail, nd);
        if good { LeftNext(dents, mounts, owner, comps, s, i, k, nd, j, e); }
        if !dents[nd.dentry].isDir {
          EndsThere(dents, mounts, trail, nd, names, s, i, j, e, false, disk);
          return -ENOTDIR, nd, trail, start;
        }
        ghost var dents0, nd0, owner0, trail0 := dents, nd, owner, trail;
        var ok, p := DoLookup(nd, s[j..e], last, disk, trail);
        GrownThen(old(dents), dents0, dents);
        CachedThen(old(dents), dents0, dents, disk);
        if !ok {
          EndsThere(dents, mounts, trail, nd, names, s, i, j, e, true, disk);
          return -ENOENT, nd, trail, start;
        }
        LeadsStays(dents0, dents, mounts, trail, nd);
        nd, last := p, p;
        if s[j..e] == ".." {
          trail := Up(trail);
        } else if s[j..e] != "." {
          ghost var c :| c in dents[nd0.dentry].subdirs && c in dents && dents[c].name == s[j..e]
                         && p == Followed(mounts, Path(nd0.mnt, c));
          LeadsBelow(dents, mounts, trail, nd0, c);
          trail := trail + [c];
        }
        UnitsSkip(s, i, j);
        UnitsNext(s, j, e);
        FollowsOn(dents0, dents, mounts, owner0, trail0, nd0, names, Units(s[..i]), s[j..e], trail, p);
        i, k := e, k + 1;
      }
    }

    /** Makes the directory that a path leads to the working directory. */
    method Chdir(s: string, disk: Disk, ghost comps: seq<nat>, ghost from: nat)
      returns (r: int, ghost trail: seq<nat>, ghost start: seq<nat>)
      requires Valid() && NoDotsFirst(s) && Reached(dents, mounts, pwd)
      modifies this
      ensures Valid() && Reached(dents, mounts, pwd) && mounts == old(mounts) && (r != 0 ==> pwd == old(pwd))
      ensures LeadsTo(old(dents), mounts, start, if IsRelative(s) then old(pwd) else Path(0, mounts[0].root))
      ensures r == 0 ==> Follows(dents, mounts, trail, pwd, Names(old(dents), start), Units(s))
      ensures Spelled(old(dents), mounts, old(pwd), comps, from, s) ==> r == 0 && pwd == Walked(mounts, comps)
    {
      hide Sound, Grown, Reached, NoDotsFirst, Spelled;
      var nd;
      ghost var dents0 := dents;
      r, nd, trail, start := Walk(s, disk, comps, from);
      ReachedStays(dents0, dents, mounts, pwd);
      if r == 0 {
        LeadsReached(dents, mounts, trail, nd);
        pwd := nd;
      }
    }

    /** Mounts a file system, of which only the root is known, where a path leads to. */
    method MountAtPath(s: string, disk: Disk, ghost comps: seq<nat>, ghost from: nat)
      returns (r: int, ghost trail: seq<nat>, ghost start: seq<nat>)
      requires Valid() && NoDotsFirst(s) && Reached(dents, mounts, pwd)
      modifies this
      ensures Valid() && Grown(old(dents), dents) && pwd == old(pwd)
      ensures r != 0 ==> mounts == old(mounts)
      ensures r == 0 ==>
              |mounts| == |old(mounts)| + 1 && mounts[..|mounts| - 1] == old(mounts)
              && mounts[|mounts| - 1].root !in old(dents) && dents.Keys >= old(dents).Keys
      ensures LeadsTo(old(dents), old(mounts), start, if IsRelative(s) then pwd else Path(0, old(mounts)[0].root))
      ensures r == 0 ==>
                var m := mounts[|mounts| - 1];
                m.mountpoint.Some? && Follows(dents, old(mounts), trail, Path(m.parent, m.mountpoint.value),
                                              Names(old(dents), start), Units(s))
      ensures Spelled(old(dents), old(mounts), pwd, comps, from, s) ==>
                r == 0 && var m, p := mounts[|mounts| - 1], Walked(old(mounts), comps);
                  m.mountpoint == Some(p.dentry) && m.parent == p.mnt
    {
      hide Sound, Grown, Reached, NoDotsFirst, Spelled, Follows, Units, Names;
      var nd;
      r, nd, trail, start := Walk(s, disk, comps, from);
      if r != 0 { return; }
      LeadsReached(dents, mounts, trail, nd);
      MountedSound(dents, mounts, owner, nd, next);
      ghost var dents1, owner1 := dents, owner;
      GrownIn(old(dents), dents);
      owner := owner[next := |mounts|];
      dents := dents[next := Dentry("/", next, [], true)];
      mounts := mounts + [Mount(nd.mnt, Some(nd.dentry), next)];
      next := next + 1;
      GrownThen(old(dents), dents1, dents);
      FollowsStays(dents1, dents, old(mounts), owner1, trail, nd, Names(old(dents), start), Units(s));
    }

    /** Collects the entries from the working directory up to the root, the lowest first, at most 256 of them. */
    method ClimbUp(ghost comps: seq<nat>) returns (stack: seq<nat>)
      requires Valid() && Trail(dents, mounts, comps) && Walked(mounts, comps) == pwd
      ensures |stack| == if |comps| <= PATH_STACK_SIZE then |comps| else PATH_STACK_SIZE
      ensures forall t :: 0 <= t < |stack| ==> stack[t] == comps[|comps| - 1 - t]
    {
      hide Sound, Trail, Walked;
      stack := [];
      var cwd := pwd;
      ghost var k, up := |comps|, false;
      assert comps[..|comps|] == comps;
      RootReached(dents, mounts, owner);
      while cwd.dentry != mounts[0].root
        invariant 0 <= k <= |comps| && |stack| == |comps| - k < PATH_STACK_SIZE && (up ==> k > 0)
        invariant forall t :: 0 <= t < |stack| ==> stack[t] == comps[|comps| - 1 - t]
        invariant cwd == if up then Path(Walked(mounts, comps[..k - 1]).mnt, comps[k - 1])
                  else Walked(mounts, comps[..k])
        decreases k, !up
      {
        if k == 0 { WalkedNone(mounts, comps); }
        TrailPrefix(dents, mounts, comps, k);
        GoingUp(dents, mounts, owner, comps[..k]);
        assert comps[..k][..k - 1] == comps[..k - 1];
        if cwd.dentry == mounts[cwd.mnt].root {
          cwd := FollowUp(cwd);
          up := true;
          continue;
        }
        stack := stack + [cwd.dentry];
        k, up := k - 1, false;
        if |stack| >= PATH_STACK_SIZE { return; }
        cwd := Path(cwd.mnt, dents[cwd.dentry].parent);
      }
      NotRoot(dents, mounts, owner, comps, k, up, cwd);
    }

    /** From the root of a mount to where it is mounted. */
    method FollowUp(p: Path) returns (q: Path)
      requires p.mnt < |mounts| && mounts[p.mnt].mountpoint.Some?
      ensures q == Path(mounts[p.mnt].parent, mounts[p.mnt].mountpoint.value)
    {
      q := Path(mounts[p.mnt].parent, mounts[p.mnt].mountpoint.value);
    }

    /** Prints the working directory. Given space, that is the whole trail up to 256 components; of a longer one, only
        the last 256 are printed.  Otherwise it stops behind the first component with which the buffer is full. */
    method GetCwd(size: nat, ghost comps: seq<nat>) returns (buff: string)
      requires Valid() && Trail(dents, mounts, comps) && Walked(mounts, comps) == pwd
      ensures forall k :: 0 <= k < |comps| ==> comps[k] in dents
      ensures var shown := Shown(comps); |Print(dents, shown)| <= size ==> buff == Print(dents, shown)
      ensures var shown := Shown(comps); shown != [] ==> exists m :: FillsUp(dents, shown, size, m, buff)
    {
      hide Sound, Trail, Walked, Join;
      TrailIn(dents, mounts, owner, comps);
      var stack := ClimbUp(comps);
      if |stack| == 0 { return "/"; }
      buff := "";
      ghost var shown := Shown(comps);
      var top := |stack|;
      JoinNone(dents);
      assert shown[|stack| - top..] == shown && shown[..|stack| - top] == [];
      while top > 0
        invariant 0 <= top <= |stack| == |shown| && buff == Join(dents, shown[..|stack| - top])
        invariant forall k :: 0 < k <= |stack| - top ==> |Join(dents, shown[..k])| < size
      {
        top := top - 1;
        buff := buff + "/" + dents[stack[top]].name;
        ShownStep(dents, comps, |stack| - top - 1);
        if |buff| >= size {
          if top > 0 { JoinLonger(dents, shown, |stack| - top); } else { assert shown[..|stack|] == shown; }
          assert FillsUp(dents, shown, size, |stack| - top, buff);
          return;
        }
      }
      assert shown[..|stack|] == shown;
      assert FillsUp(dents, shown, size, |stack|, buff);
    }

    /** Walking to what is printed for the working directory leads back to it exactly if that is at most 256 components
        deep. */
    method ThereAndBack(size: nat, disk: Disk, ghost comps: seq<nat>) returns (r: int, nd: Path)
      requires Valid() && Trail(dents, mounts, comps) && Walked(mounts, comps) == pwd
      requires (forall k :: 0 <= k < |comps| ==> comps[k] in dents) && |Print(dents, Shown(comps))| <= size
      modifies this`dents, this`next, this`owner
      ensures r == 0 && nd == pwd <==> |comps| <= 256
      ensures |comps| <= 256 ==> dents == old(dents)
    {
      hide Sound, Grown, Reached, NoDotsFirst, Trail, Walked, Join, Spelled, Slashes, LeadsTo;
      ghost var shown, dents0, trail, start := Shown(comps), dents, [], [];
      var s := GetCwd(size, comps);
      TrailIn(dents, mounts, owner, comps);
      assert forall k :: 0 <= k < |shown| ==> shown[k] == comps[|comps| - |shown| + k];
      PrintedNoDots(dents, shown);
      PwdReached(dents, mounts, owner, comps, pwd);
      if shown == comps { PrintSpells(dents, mounts, pwd, comps); } else { PrintedLong(dents, shown); }
      r, nd, trail, start := Walk(s, disk, comps, 0);
      if shown != comps && r == 0 && nd == pwd {
        Deeper(dents0, dents, mounts, owner, comps, trail);
      }
    }
  }

  /** A string of 256 components starts at the root, and has as many slashes. */
  lemma PrintedLong(dents: Dents, shown: seq<nat>)
    requires |shown| == PATH_STACK_SIZE
    requires forall k :: 0 <= k < |shown| ==> shown[k] in dents && NameOk(dents[shown[k]].name)
    ensures var s := Print(dents, shown); !IsRelative(s) && Slashes(s) == PATH_STACK_SIZE
  {
    JoinSlashes(dents, shown);
  }

  lemma Deeper(dents: Dents, dents': Dents, mounts: Mounts, owner: map<nat, nat>, comps: seq<nat>, trail: seq<nat>)
    requires Sound(dents', mounts, owner) && Grown(dents, dents') && |mounts| > 0 && Trail(dents, mounts, comps)
    requires LeadsTo(dents', mounts, trail, Walked(mounts, comps))
    ensures trail == comps
  {
    TrailStays(dents, dents', mounts, comps);
    OneWay(dents', mounts, owner, comps, trail);
  }

  // ---------- Too deep ----------

  /** `n` directories, one below the other, all of the same name. */
  function Nest(n: nat): (dents: Dents)
    ensures n in dents
  {
    if n == 0 then map[0 := Dentry("/", 0, [], true)] else Cached(Nest(n - 1), n - 1, n, "d", true)
  }

  lemma {:induction false} NestIs(n: nat)
    ensures forall d: nat :: d in Nest(n) <==> d <= n
    ensures Nest(n)[n].subdirs == [] && Nest(n)[n].isDir && (n > 0 ==> Nest(n)[n - 1].subdirs == [n])
    ensures forall d: nat :: 1 <= d <= n ==> Nest(n)[d].name == "d"
  {
    if n > 0 { NestIs(n - 1); }
  }

  function Down(n: nat): (comps: seq<nat>)
    ensures |comps| == n && forall k :: 0 <= k < n ==> comps[k] == k + 1
  {
    if n == 0 then [] else Down(n - 1) + [n]
  }

  const ROOT_ONLY: Mounts := [Mount(0, None, 0)]

  lemma {:induction false} NestSound(n: nat) returns (owner: map<nat, nat>)
    ensures Sound(Nest(n), ROOT_ONLY, owner)
    ensures n > 0 ==> Grown(Nest(n - 1), Nest(n))
  {
    hide Sound, Grown, Cached, Nest, NameOk;
    if n == 0 {
      owner := NoNestSound();
    } else {
      NestStep(n);
      owner := NestSound(n - 1);
      CachedSound(Nest(n - 1), ROOT_ONLY, owner, n - 1, n, "d", true);
      owner := owner[n := owner[n - 1]];
    }
  }

  lemma NoNestSound() returns (owner: map<nat, nat>)
    ensures Sound(Nest(0), ROOT_ONLY, owner)
  {
    owner := map[0 := 0];
  }

  lemma NestStep(n: nat)
    requires n > 0
    ensures n - 1 in Nest(n - 1) && n !in Nest(n - 1) && Nest(n) == Cached(Nest(n - 1), n - 1, n, "d", true)
    ensures Nest(n - 1)[n - 1].subdirs == [] && Nest(n - 1)[n - 1].isDir && NameOk("d")
  {
    NestIs(n - 1);
  }

  lemma {:induction false} NestTrail(n: nat, m: nat)
    requires m <= n
    ensures LeadsTo(Nest(n), ROOT_ONLY, Down(m), Path(0, m))
    decreases n, m
  {
    hide Nest, Sound, Grown, LeadsTo;
    if n == 0 {
      NoWay(Nest(0));
    } else {
      var _ := NestSound(n);
      NestIs(n);
      if m < n {
        NestTrail(n - 1, m);
        LeadsStays(Nest(n - 1), Nest(n), ROOT_ONLY, Down(m), Path(0, m));
      } else {
        NestTrail(n, n - 1);
        LeadsBelow(Nest(n), ROOT_ONLY, Down(n - 1), Path(0, n - 1), n);
      }
    }
  }

  lemma NoWay(dents: Dents)
    ensures LeadsTo(dents, ROOT_ONLY, [], Path(0, 0))
  {
  }

  lemma {:induction false} SamePrint(dents: Dents, a: seq<nat>, b: seq<nat>)
    requires |a| == |b| && forall k :: 0 <= k < |a| ==>
             a[k] in dents && b[k] in dents && dents[a[k]].name == dents[b[k]].name
    ensures Join(dents, a) == Join(dents, b)
  {
    if a != [] { SamePrint(dents, a[1..], b[1..]); }
  }

  /** `a` is too long a way to be printed whole; what is printed of it is the other way `b`. */
  ghost predicate Deep(dents: Dents, owner: map<nat, nat>, a: seq<nat>, b: seq<nat>) {
    && Sound(dents, ROOT_ONLY, owner) && LeadsTo(dents, ROOT_ONLY, a, Walked(ROOT_ONLY, a))
    && LeadsTo(dents, ROOT_ONLY, b, Walked(ROOT_ONLY, b)) && Walked(ROOT_ONLY, a) != Walked(ROOT_ONLY, b)
    && |a| > PATH_STACK_SIZE && (forall k :: 0 <= k < |a| ==> a[k] in dents)
      && (forall k :: 0 <= k < |b| ==> b[k] in dents)
    && Print(dents, Shown(a)) == Print(dents, b)
  }

  lemma NestOf(n: nat) returns (owner: map<nat, nat>)
    requires n == PATH_STACK_SIZE + 1
    ensures Deep(Nest(n), owner, Down(n), Down(n - 1))
  {
    hide Nest, Down, Sound, LeadsTo, Join;
    owner := NestSound(n);
    NestIs(n);
    NestTrail(n, n);
    NestTrail(n, n - 1);
    LeadsWhere(Nest(n), Down(n), Path(0, n));
    LeadsWhere(Nest(n), Down(n - 1), Path(0, n - 1));
    SamePrint(Nest(n), Shown(Down(n)), Down(n - 1));
  }

  lemma LeadsWhere(dents: Dents, comps: seq<nat>, p: Path)
    requires LeadsTo(dents, ROOT_ONLY, comps, p)
    ensures Walked(ROOT_ONLY, comps) == p
  {
  }

  /** In the lowest of 257 directories of the same name, what is printed is the way to the one above it. */
  lemma TooDeep() returns (owner: map<nat, nat>)
    ensures Deep(Nest(257), owner, Down(257), Down(256))
  {
    owner := NestOf(257);
  }

  /** The components that are printed. */
  function Shown(comps: seq<nat>): seq<nat> {
    if |comps| <= PATH_STACK_SIZE then comps else comps[|comps| - PATH_STACK_SIZE..]
  }

  lemma WalkedNone(mounts: Mounts, comps: seq<nat>)
    requires |mounts| > 0
    ensures Walked(mounts, comps[..0]) == Path(0, mounts[0].root)
  {
  }

  /** Before the root is reached there is still a component left. */
  lemma NotRoot(dents: Dents, mounts: Mounts, owner: map<nat, nat>, comps: seq<nat>, k: nat, up: bool, cwd: Path)
    requires Sound(dents, mounts, owner) && Trail(dents, mounts, comps) && k <= |comps| && (up ==> k > 0)
    requires cwd == if up then Path(Walked(mounts, comps[..k - 1]).mnt, comps[k - 1]) else Walked(mounts, comps[..k])
    ensures k > 0 ==> cwd.dentry != mounts[0].root
  {
    hide Sound, Trail, Walked;
    RootReached(dents, mounts, owner);
    if k > 0 {
      TrailPrefix(dents, mounts, comps, k);
      GoingUp(dents, mounts, owner, comps[..k]);
      assert comps[..k][..k - 1] == comps[..k - 1];
    }
  }

  lemma MountedSound(dents: Dents, mounts: Mounts, owner: map<nat, nat>, nd: Path, n: nat)
    requires Sound(dents, mounts, owner) && Reached(dents, mounts, nd) && forall d :: d in dents ==> d < n
    ensures var dents', mounts' := dents[n := Dentry("/", n, [], true)], mounts + [Mount(nd.mnt, Some(nd.dentry), n)];
            Sound(dents', mounts', owner[n := |mounts|]) && Grown(dents, dents')
  {
    var comps :| Trail(dents, mounts, comps) && Walked(mounts, comps) == nd;
    TrailOwned(dents, mounts, owner, comps);
    var dents', mounts', owner' := dents[n := Dentry("/", n, [], true)], mounts + [Mount(nd.mnt, Some(nd.dentry), n)],
      owner[n := |mounts|];
    hide Trail, Walked, Siblings;
    forall d | d in dents' ensures Siblings(dents', owner', mounts', d) {
      if d != n { MountedSiblings(dents, mounts, owner, nd, n, d); } else { NoSiblings(dents', mounts', owner', n); }
    }
  }

  lemma NoSiblings(dents: Dents, mounts: Mounts, owner: map<nat, nat>, d: nat)
    requires d in dents && d in owner && dents[d].subdirs == []
    ensures Siblings(dents, owner, mounts, d)
  {
  }

  lemma MountedSiblings(dents: Dents, mounts: Mounts, owner: map<nat, nat>, nd: Path, n: nat, d: nat)
    requires d in dents && d in owner && Siblings(dents, owner, mounts, d) && forall x :: x in dents ==> x < n
    ensures Siblings(dents[n := Dentry("/", n, [], true)], owner[n := |mounts|],
                     mounts + [Mount(nd.mnt, Some(nd.dentry), n)], d)
  {
    hide NameOk;
    var dents', mounts', owner' := dents[n := Dentry("/", n, [], true)], mounts + [Mount(nd.mnt, Some(nd.dentry), n)],
      owner[n := |mounts|];
    forall k | 0 <= k < |dents[d].subdirs| ensures IsChild(dents', owner', mounts', d, dents[d].subdirs[k]) {
      assert IsChild(dents, owner, mounts, d, dents[d].subdirs[k]);
    }
  }

  lemma ShownStep(dents: Dents, comps: seq<nat>, k: nat)
    requires (forall m :: 0 <= m < |comps| ==> comps[m] in dents) && k < |Shown(comps)|
    ensures var shown := Shown(comps); var c := shown[k];
            && (forall m :: 0 <= m < |shown| ==> shown[m] in dents) && c == comps[|comps| - |shown| + k]
            && Join(dents, shown[..k + 1]) == Join(dents, shown[..k]) + "/" + dents[c].name
  {
    var shown := Shown(comps);
    assert forall m :: 0 <= m < |shown| ==> shown[m] == comps[|comps| - |shown| + m];
    JoinMore(dents, shown, k);
  }

  lemma JoinMore(dents: Dents, comps: seq<nat>, k: nat)
    requires (forall m :: 0 <= m < |comps| ==> comps[m] in dents) && k < |comps|
    ensures Join(dents, comps[..k + 1]) == Join(dents, comps[..k]) + "/" + dents[comps[k]].name
  {
    JoinOne(dents, comps[k]);
    hide Join;
    assert comps[..k + 1] == comps[..k] + [comps[k]];
    JoinSplit(dents, comps[..k], [comps[k]]);
  }

  lemma JoinOne(dents: Dents, c: nat)
    requires c in dents
    ensures Join(dents, [c]) == "/" + dents[c].name
  {
    assert [c][1..] == [];
    assert Join(dents, [c]) == "/" + dents[c].name + Join(dents, []);
  }

  lemma JoinLonger(dents: Dents, comps: seq<nat>, k: nat)
    requires (forall m :: 0 <= m < |comps| ==> comps[m] in dents) && k < |comps|
    ensures |Join(dents, comps[..k])| < |Join(dents, comps)|
  {
    assert comps == comps[..k] + comps[k..];
    JoinSplit(dents, comps[..k], comps[k..]);
  }

  /** What is printed does not start with "..". */
  lemma PrintedNoDots(dents: Dents, comps: seq<nat>)
    requires forall k :: 0 <= k < |comps| ==> comps[k] in dents && NameOk(dents[comps[k]].name)
    ensures NoDotsFirst(Print(dents, comps))
  {
    var s := Print(dents, comps);
    if comps != [] {
      var name := dents[comps[0]].name;
      JoinNext(dents, comps, 0);
      assert comps[0..] == comps && s[1..1 + |name|] == name;
      assert s[0..] == s;
      forall i, e | 0 <= i < e <= |s| && s[i..e] == ".."
        ensures !((forall m :: 0 <= m < i ==> s[m] == '/') && (e == |s| || s[e] == '/'))
      {
        var t := s[i..e];
        assert t[0] == s[i] && t[1] == s[i + 1];
        assert s[0] == '/' && s[1] == name[0] && name[0] != '/';
      }
    }
  }

  lemma PwdReached(dents: Dents, mounts: Mounts, owner: map<nat, nat>, comps: seq<nat>, p: Path)
    requires Sound(dents, mounts, owner) && Trail(dents, mounts, comps) && Walked(mounts, comps) == p
    ensures Reached(dents, mounts, p)
  {
  }

  predicate IsRelative(s: string) { s == "" || s[0] != '/' }

  /** `s` is what is printed for the trail `comps`, or names what comes after the first `from` entries of it, which lead
      to the working directory. */
  ghost predicate Spelled(dents: Dents, mounts: Mounts, pwd: Path, comps: seq<nat>, from: nat, s: string) {
    && |mounts| > 0 && Trail(dents, mounts, comps) && (forall k :: 0 <= k < |comps| ==> comps[k] in dents)
      && from <= |comps|
    && if IsRelative(s)
       then pwd == Walked(mounts, comps[..from]) && Unread(s, 0) == Join(dents, comps[from..])
       else from == 0 && s == Print(dents, comps)
  }

  /** What is left of a string from `i` on, with the slash that a relative path does without. */
  function Unread(s: string, i: nat): string
    requires i <= |s|
  {
    if i == 0 && s != "" && IsRelative(s) then "/" + s else s[i..]
  }

  /** The first `k` components have been walked, and position `i` is where the others start. */
  ghost predicate Left(dents: Dents, mounts: Mounts, comps: seq<nat>, s: string, i: nat, k: nat, nd: Path) {
    && |mounts| > 0 && Trail(dents, mounts, comps) && (forall k :: 0 <= k < |comps| ==> comps[k] in dents)
    && k <= |comps| && i <= |s| && nd == Walked(mounts, comps[..k])
    && (Unread(s, i) == Join(dents, comps[k..]) || (comps == [] && i == 0 && s == "/"))
  }

  lemma RootReached(dents: Dents, mounts: Mounts, owner: map<nat, nat>)
    requires Sound(dents, mounts, owner)
    ensures |mounts| > 0 && Reached(dents, mounts, Path(0, mounts[0].root))
  {
    assert Trail(dents, mounts, []) && Walked(mounts, []) == Path(0, mounts[0].root);
  }

  lemma LeftStart(dents: Dents, mounts: Mounts, pwd: Path, comps: seq<nat>, from: nat, s: string)
    requires Spelled(dents, mounts, pwd, comps, from, s)
    ensures Left(dents, mounts, comps, s, 0, from, if IsRelative(s) then pwd else Path(0, mounts[0].root))
  {
    assert comps[..0] == [] && comps[0..] == comps && s[0..] == s;
  }

  lemma PrintSpells(dents: Dents, mounts: Mounts, pwd: Path, comps: seq<nat>)
    requires |mounts| > 0 && Trail(dents, mounts, comps) && forall k :: 0 <= k < |comps| ==> comps[k] in dents
    ensures Spelled(dents, mounts, pwd, comps, 0, Print(dents, comps))
  {
  }

  /** How the string goes on after `k` components. */
  lemma JoinNext(dents: Dents, comps: seq<nat>, k: nat)
    requires (forall m :: 0 <= m < |comps| ==> comps[m] in dents) && k < |comps|
    ensures Join(dents, comps[k..]) == "/" + dents[comps[k]].name + Join(dents, comps[k + 1..])
    ensures var t := Join(dents, comps[k + 1..]); t == "" || t[0] == '/'
  {
    assert comps[k..][1..] == comps[k + 1..];
  }

  /** Where the next component starts, if there is one. */
  lemma LeftMore(dents: Dents, mounts: Mounts, owner: map<nat, nat>, comps: seq<nat>, s: string, i: nat, k: nat,
                 nd: Path, j: nat)
    requires Sound(dents, mounts, owner) && Left(dents, mounts, comps, s, i, k, nd)
    requires i <= j <= |s| && (forall m :: i <= m < j ==> s[m] == '/') && (j < |s| ==> s[j] != '/')
    ensures k <= |comps|
    ensures if k == |comps| then j == |s| && nd == Walked(mounts, comps) else j < |s|
  {
    hide Sound, Join, Trail, Walked;
    if k == |comps| {
      assert comps[..k] == comps && comps[k..] == [];
      JoinNone(dents);
    } else {
      TrailIn(dents, mounts, owner, comps);
      JoinNext(dents, comps, k);
      if !(i == 0 && s != "" && IsRelative(s)) {
        ParseStart(s, i, j, dents[comps[k]].name, Join(dents, comps[k + 1..]));
      }
    }
  }

  lemma JoinNone(dents: Dents)
    ensures Join(dents, []) == ""
  {
  }

  /** The next component is the name of entry `k` of the trail. */
  lemma LeftNext(dents: Dents, mounts: Mounts, owner: map<nat, nat>, comps: seq<nat>, s: string, i: nat, k: nat,
                 nd: Path, j: nat, e: nat)
    requires Sound(dents, mounts, owner) && Left(dents, mounts, comps, s, i, k, nd) && k < |comps|
    requires i <= j < e <= |s| && (forall m :: i <= m < j ==> s[m] == '/')
    requires (forall m :: j <= m < e ==> s[m] != '/') && (e < |s| ==> s[e] == '/')
    ensures comps[k] in dents && s[j..e] == dents[comps[k]].name != "." && nd.dentry in dents
            && comps[k] in dents[nd.dentry].subdirs
    ensures dents[nd.dentry].isDir
    ensures Left(dents, mounts, comps, s, e, k + 1, Followed(mounts, Path(nd.mnt, comps[k])))
  {
    hide Sound, Join, Trail, Walked, Followed;
    TrailIn(dents, mounts, owner, comps);
    TrailStep(dents, mounts, comps, k);
    HasBelow(dents, mounts, owner, nd.dentry, comps[k]);
    JoinNext(dents, comps, k);
    NextUnit(s, i, j, e, dents[comps[k]].name, Join(dents, comps[k + 1..]));
  }

  lemma NextUnit(s: string, i: nat, j: nat, e: nat, name: string, rest: string)
    requires i <= j < e <= |s| && Unread(s, i) == "/" + name + rest && NameOk(name) && (rest == "" || rest[0] == '/')
    requires (forall m :: i <= m < j ==> s[m] == '/') && (forall m :: j <= m < e ==> s[m] != '/')
             && (e < |s| ==> s[e] == '/')
    ensures s[j..e] == name && Unread(s, e) == rest
  {
    if i == 0 && IsRelative(s) {
      var t := "/" + s;
      assert t[0..] == t;
      assert forall m :: 1 <= m < |t| ==> t[m] == s[m - 1];
      ParseUnit(t, 0, e + 1, name, rest);
      assert t[1..e + 1] == s[0..e] && t[e + 1..] == s[e..];
    } else {
      ParseStart(s, i, j, name, rest);
      ParseUnit(s, i, e, name, rest);
    }
  }

  lemma HasBelow(dents: Dents, mounts: Mounts, owner: map<nat, nat>, d: nat, c: nat)
    requires Sound(dents, mounts, owner) && d in dents && c in dents[d].subdirs
    ensures dents[d].isDir
  {
    assert Siblings(dents, owner, mounts, d);
  }

  lemma UnitOk(s: string, i: nat, j: nat, e: nat, known: bool)
    requires i <= j < e <= |s| && NoDotsFirst(s) && (i == 0 || i == |s| || s[i] == '/') && (i == 0 || known)
    requires (forall m :: i <= m < j ==> s[m] == '/') && (forall m :: j <= m < e ==> s[m] != '/')
             && (e < |s| ==> s[e] == '/')
    ensures s[j..e] != "" && (s[j..e] == ".." ==> known) && '/' !in s[j..e]
  {
  }

  lemma GrownIn(a: Dents, b: Dents)
    requires Grown(a, b)
    ensures a.Keys <= b.Keys
  {
  }

  lemma GrownThen(a: Dents, b: Dents, c: Dents)
    requires Grown(a, b) && Grown(b, c)
    ensures Grown(a, c)
  {
  }

  lemma NothingCached(dents: Dents, disk: Disk)
    ensures FromDisk(dents, dents, disk)
  {
  }

  lemma CachedThen(a: Dents, b: Dents, c: Dents, disk: Disk)
    requires Grown(b, c) && FromDisk(a, b, disk) && FromDisk(b, c, disk)
    ensures FromDisk(a, c, disk)
  {
  }

  lemma GrownSame(dents: Dents)
    ensures Grown(dents, dents)
  {
  }

  lemma SameName(dents: Dents, mounts: Mounts, owner: map<nat, nat>, d: nat, c: nat)
    requires Sound(dents, mounts, owner) && d in dents && c in dents[d].subdirs && c in dents
    ensures forall e :: e in dents[d].subdirs && e in dents && dents[e].name == dents[c].name ==> e == c
  {
    assert Siblings(dents, owner, mounts, d);
  }
}
