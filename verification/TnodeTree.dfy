/**
 The tnode tree of a file: an 8-ary radix tree over chunk ids whose leaves pack sixteen chunk numbers.  Growing, filling
 and pruning it keep the map from chunk ids to chunk numbers that it stands for.
 */
module TnodeTree {
  import opened ChunkAddress
  import opened Common
  import opened PackedLeaf

  datatype Tnode = Null | Internal(kids: seq<Tnode>) | Leaf(words: seq<Word>)

  const FANOUT := 8
  const MAX_LEVEL: nat := 8

  /** What is left of a chunk id above the leaf (4 bits) and `l` internal levels (3 bits each). */
  function Above(id: nat, l: nat): nat {
    if l == 0 then id / ENTRIES else Above(id, l - 1) / FANOUT
  }

  /** The child to take at level `l`. */
  function Digit(id: nat, l: nat): (d: nat)
    requires l > 0
    ensures d < FANOUT
  {
    Above(id, l - 1) % FANOUT
  }

  /** `tn` is a tree of height `l` whose leaves have `n` words. */
  predicate Shaped(tn: Tnode, l: nat, n: nat)
    decreases l
  {
    match tn
    case Null => true
    case Leaf(words) => l == 0 && |words| == n
    case Internal(kids) => l > 0 && |kids| == FANOUT && forall i :: 0 <= i < FANOUT ==> Shaped(kids[i], l - 1, n)
  }

  /** There are tnodes all the way down the left edge. */
  predicate Spine(tn: Tnode, l: nat, n: nat)
    requires Shaped(tn, l, n)
    decreases l
  {
    !tn.Null? && (l > 0 ==> Spine(tn.kids[0], l - 1, n))
  }

  /** The leaf for `id` in a tree of height `l`, if it is there. */
  function LeafAt(tn: Tnode, l: nat, n: nat, id: nat): (r: Tnode)
    requires Shaped(tn, l, n)
    ensures Shaped(r, 0, n)
    decreases l
  {
    if l == 0 || tn.Null? then tn else LeafAt(tn.kids[Digit(id, l)], l - 1, n, id)
  }

  function Zeros(width: nat): seq<bool> { Fill(width, false) }

  function EntryOf(leaf: Tnode, width: nat, id: nat): (e: seq<bool>)
    requires Shaped(leaf, 0, width / 2) && 0 < width < 32 && width % 2 == 0
    ensures |e| == width
  {
    if leaf.Null? then Zeros(width) else Entry(leaf.words, width, id % ENTRIES)
  }

  /** What the tree holds for `id`; no chunk reads as zero. */
  function Lookup(tn: Tnode, l: nat, width: nat, id: nat): (e: seq<bool>)
    requires 0 < width < 32 && width % 2 == 0 && Shaped(tn, l, width / 2)
    ensures |e| == width
  {
    if Above(id, l) != 0 then Zeros(width) else EntryOf(LeafAt(tn, l, width / 2, id), width, id)
  }

  ghost predicate SameMap(tn: Tnode, l: nat, tn': Tnode, l': nat, width: nat)
    requires 0 < width < 32 && width % 2 == 0 && Shaped(tn, l, width / 2) && Shaped(tn', l', width / 2)
  {
    forall id: nat :: Lookup(tn', l', width, id) == Lookup(tn, l, width, id)
  }

  // ---------- Chunk ids and levels ----------

  lemma {:induction false} AboveShrinks(id: nat, l: nat, m: nat)
    requires l <= m
    ensures Above(id, l) == 0 ==> Above(id, m) == 0
  {
    if l < m { AboveShrinks(id, l, m - 1); }
  }

  /** Eight levels are enough for every chunk id. */
  lemma EnoughLevels(id: nat)
    requires id <= MAX_CHUNK_ID
    ensures Above(id, MAX_LEVEL) == 0
  {
    var a := Above(id, 0);
    assert a <= 0xffffff;
    assert Above(id, 2) <= 0x3ffff;
    assert Above(id, 4) <= 0xfff;
    assert Above(id, 6) <= 0x3f;
  }

  /** The way down takes the same turns for `x` and `y`. */
  predicate SameTurns(l: nat, x: nat, y: nat) {
    l > 0 ==> Digit(x, l) == Digit(y, l) && SameTurns(l - 1, x, y)
  }

  /** Ids that the tree is tall enough for share a leaf exactly if they agree but for their lowest four bits. */
  lemma {:induction false} SharedLeaf(l: nat, x: nat, y: nat)
    requires Above(x, l) == Above(y, l)
    ensures SameTurns(l, x, y) <==> x / ENTRIES == y / ENTRIES
  {
    if l > 0 {
      if Digit(x, l) == Digit(y, l) {
        SharedLeaf(l - 1, x, y);
      } else {
        SameAbove(l - 1, x, y);
      }
    }
  }

  lemma {:induction false} SameAbove(l: nat, x: nat, y: nat)
    ensures x / ENTRIES == y / ENTRIES ==> Above(x, l) == Above(y, l)
  {
    if l > 0 { SameAbove(l - 1, x, y); }
  }

  lemma {:induction false} SameLeafAt(tn: Tnode, l: nat, n: nat, x: nat, y: nat)
    requires Shaped(tn, l, n) && SameTurns(l, x, y)
    ensures LeafAt(tn, l, n, x) == LeafAt(tn, l, n, y)
    decreases l
  {
    if l > 0 && !tn.Null? { SameLeafAt(tn.kids[Digit(x, l)], l - 1, n, x, y); }
  }

  lemma LookupInLeaf(tn: Tnode, l: nat, width: nat, id: nat, y: nat)
    requires 0 < width < 32 && width % 2 == 0 && Shaped(tn, l, width / 2)
    requires Above(id, l) == 0 && y / ENTRIES == id / ENTRIES
    ensures Lookup(tn, l, width, y) == EntryOf(LeafAt(tn, l, width / 2, id), width, y)
  {
    SameAbove(l, id, y);
    SharedLeaf(l, id, y);
    SameLeafAt(tn, l, width / 2, id, y);
  }

  // ---------- Growing ----------

  /** A new top above the tree, whose leftmost child it becomes. */
  function Grown(tn: Tnode): Tnode {
    Internal([tn, Null, Null, Null, Null, Null, Null, Null])
  }

  lemma GrownSame(tn: Tnode, l: nat, width: nat)
    requires 0 < width < 32 && width % 2 == 0 && Shaped(tn, l, width / 2)
    ensures Shaped(Grown(tn), l + 1, width / 2) && SameMap(tn, l, Grown(tn), l + 1, width)
  {
    hide LeafAt;
    forall id: nat ensures Lookup(Grown(tn), l + 1, width, id) == Lookup(tn, l, width, id) {
      GrownAt(tn, l, width / 2, id);
    }
  }

  lemma GrownAt(tn: Tnode, l: nat, n: nat, id: nat)
    requires Shaped(tn, l, n)
    ensures Shaped(Grown(tn), l + 1, n)
    ensures Above(id, l) == 0 ==> Above(id, l + 1) == 0 && LeafAt(Grown(tn), l + 1, n, id) == LeafAt(tn, l, n, id)
    ensures Above(id, l) != 0 && Above(id, l + 1) == 0 ==> LeafAt(Grown(tn), l + 1, n, id) == Null
  {
    var d := Digit(id, l + 1);
    assert Above(id, l + 1) == Above(id, l) / FANOUT && d == Above(id, l) % FANOUT;
    assert Grown(tn).kids[0] == tn && forall i :: 1 <= i < FANOUT ==> Grown(tn).kids[i] == Null;
    assert LeafAt(Grown(tn), l + 1, n, id) == LeafAt(Grown(tn).kids[d], l, n, id);
  }

  // ---------- Adding ----------

  function EmptyInternal(): Tnode { Internal(seq(FANOUT, _ => Null)) }

  function EmptyLeaf(n: nat): Tnode { Leaf(seq(n, _ => Zero())) }

  /** The tree with a leaf for `id`: `passed` if there is one, else the one that is there, else a blank one. */
  function Add(tn: Tnode, l: nat, n: nat, id: nat, passed: Tnode): (r: Tnode)
    requires Shaped(tn, l, n) && !tn.Null? && Shaped(passed, 0, n)
    ensures Shaped(r, l, n) && !r.Null?
    decreases l
  {
    if l == 0 then (if passed.Null? then tn else passed)
    else
      var d := Digit(id, l);
      var kid := if !tn.kids[d].Null? then tn.kids[d] else if l > 1 then EmptyInternal() else EmptyLeaf(n);
      Internal(tn.kids[d := Add(kid, l - 1, n, id, passed)])
  }

  lemma {:induction false} AddSpine(tn: Tnode, l: nat, n: nat, id: nat, passed: Tnode)
    requires Shaped(tn, l, n) && Spine(tn, l, n) && Shaped(passed, 0, n)
    ensures Spine(Add(tn, l, n, id, passed), l, n)
    decreases l
  {
    if l > 0 && Digit(id, l) == 0 { AddSpine(tn.kids[0], l - 1, n, id, passed); }
  }

  /** What an absent subtree is filled up with reads like the absent subtree. */
  lemma {:induction false} BlankReads(l: nat, n: nat, width: nat, id: nat)
    requires 0 < width < 32 && width % 2 == 0 && n == width / 2
    ensures var tn := if l > 0 then EmptyInternal() else EmptyLeaf(n);
            Shaped(tn, l, n) && EntryOf(LeafAt(tn, l, n, id), width, id) == Zeros(width)
  {
    if l == 0 {
      BlankEntry(EmptyLeaf(n).words, width, id % ENTRIES);
    }
  }

  /** Adding changes the entries of the leaf of `id` only, and these only if a leaf was passed. */
  lemma {:induction false} AddReads(tn: Tnode, l: nat, width: nat, id: nat, passed: Tnode, y: nat)
    requires 0 < width < 32 && width % 2 == 0
    requires var n := width / 2; Shaped(tn, l, n) && !tn.Null? && Shaped(passed, 0, n)
    ensures var n := width / 2;
            EntryOf(LeafAt(Add(tn, l, n, id, passed), l, n, y), width, y) ==
            if SameTurns(l, id, y) && !passed.Null? then Entry(passed.words, width, y % ENTRIES)
            else EntryOf(LeafAt(tn, l, n, y), width, y)
    decreases l
  {
    var n := width / 2;
    if l > 0 && Digit(id, l) == Digit(y, l) {
      var d := Digit(id, l);
      var kid := if !tn.kids[d].Null? then tn.kids[d] else if l > 1 then EmptyInternal() else EmptyLeaf(n);
      AddReads(kid, l - 1, width, id, passed, y);
      if tn.kids[d].Null? { BlankReads(l - 1, n, width, y); }
    }
  }

  lemma {:induction false} AddHas(tn: Tnode, l: nat, n: nat, id: nat, passed: Tnode)
    requires Shaped(tn, l, n) && !tn.Null? && Shaped(passed, 0, n)
    ensures var r := LeafAt(Add(tn, l, n, id, passed), l, n, id); r.Leaf? && (passed.Leaf? ==> r == passed)
    decreases l
  {
    if l > 0 {
      var d := Digit(id, l);
      AddHas(if !tn.kids[d].Null? then tn.kids[d] else if l > 1 then EmptyInternal()
             else EmptyLeaf(n), l - 1, n, id, passed);
    }
  }

  lemma AddLookup(tn: Tnode, l: nat, width: nat, id: nat, passed: Tnode, y: nat)
    requires 0 < width < 32 && width % 2 == 0
    requires var n := width / 2; Shaped(tn, l, n) && !tn.Null? && Shaped(passed, 0, n)
    requires Above(id, l) == 0
    ensures Lookup(Add(tn, l, width / 2, id, passed), l, width, y) ==
            if y / ENTRIES == id / ENTRIES && !passed.Null? then Entry(passed.words, width, y % ENTRIES)
                else Lookup(tn, l, width, y)
  {
    SameAbove(l, id, y);
    if Above(y, l) == 0 {
      SharedLeaf(l, id, y);
      AddReads(tn, l, width, id, passed, y);
    }
  }

  // ---------- Pruning ----------

  predicate AllZero(words: seq<Word>) { forall i :: 0 <= i < |words| ==> words[i] == Zero() }

  predicate AllNull(kids: seq<Tnode>) { forall i :: 0 <= i < |kids| ==> kids[i].Null? }

  /** Nothing is stored in the tree. */
  predicate Blank(tn: Tnode, l: nat, n: nat)
    requires Shaped(tn, l, n)
    decreases l
  {
    match tn
    case Null => true
    case Leaf(words) => AllZero(words)
    case Internal(kids) => forall i :: 0 <= i < FANOUT ==> Blank(kids[i], l - 1, n)
  }

  /** Frees the subtrees in which nothing is stored; a tnode itself is only freed if `del0` is set. */
  function PruneWorker(tn: Tnode, l: nat, n: nat, del0: bool): (r: Tnode)
    requires Shaped(tn, l, n)
    ensures Shaped(r, l, n)
    decreases l, 0
  {
    match tn
    case Null => Null
    case Leaf(words) => if AllZero(words) && del0 then Null else tn
    case Internal(kids) =>
      var kids' := PruneKids(kids, l - 1, n, del0);
      if del0 && AllNull(kids') then Null else Internal(kids')
  }

  /** Every child is pruned; all but the leftmost may be freed in any case. */
  function PruneKids(kids: seq<Tnode>, l: nat, n: nat, del0: bool): (r: seq<Tnode>)
    requires |kids| == FANOUT && forall i :: 0 <= i < FANOUT ==> Shaped(kids[i], l, n)
    ensures |r| == FANOUT && forall i :: 0 <= i < FANOUT ==> r[i] == PruneWorker(kids[i], l, n, i != 0 || del0)
    decreases l, 1
  {
    seq(FANOUT, i requires 0 <= i < FANOUT => PruneWorker(kids[i], l, n, i != 0 || del0))
  }

  lemma {:induction false} PruneSpine(tn: Tnode, l: nat, n: nat)
    requires Shaped(tn, l, n) && Spine(tn, l, n)
    ensures Spine(PruneWorker(tn, l, n, false), l, n)
    decreases l
  {
    if l > 0 { PruneSpine(tn.kids[0], l - 1, n); }
  }

  /** Where subtrees may be freed, exactly the blank ones are. */
  lemma {:induction false} PruneFrees(tn: Tnode, l: nat, n: nat)
    requires Shaped(tn, l, n)
    ensures PruneWorker(tn, l, n, true).Null? <==> Blank(tn, l, n)
    decreases l
  {
    if tn.Internal? {
      forall i | 0 <= i < FANOUT
        ensures PruneWorker(tn.kids[i], l - 1, n, true).Null? <==>
                Blank(tn.kids[i], l - 1, n)
      {
        PruneFrees(tn.kids[i], l - 1, n);
      }
    }
  }

  /** No lookup is affected. */
  lemma {:induction false} PruneReads(tn: Tnode, l: nat, width: nat, del0: bool, y: nat)
    requires 0 < width < 32 && width % 2 == 0 && Shaped(tn, l, width / 2)
    ensures EntryOf(LeafAt(PruneWorker(tn, l, width / 2, del0), l, width / 2, y), width, y) ==
            EntryOf(LeafAt(tn, l, width / 2, y), width, y)
    decreases l
  {
    var n := width / 2;
    match tn
    case Null =>
    case Leaf(words) =>
      if AllZero(words) {
        BlankReads(0, n, width, y);
        assert words == EmptyLeaf(n).words;
      }
    case Internal(kids) =>
      var d := Digit(y, l);
      PruneReads(kids[d], l - 1, width, d != 0 || del0, y);
  }

  /** Off the left edge, every subtree that is there stores something. */
  predicate Lean(tn: Tnode, l: nat, n: nat, spine: bool)
    requires Shaped(tn, l, n)
    decreases l
  {
    && (tn.Null? || spine || !Blank(tn, l, n))
    && (tn.Internal? ==> forall i :: 0 <= i < FANOUT ==> Lean(tn.kids[i], l - 1, n, spine && i == 0))
  }

  lemma {:induction false} PruneKeepsBlank(tn: Tnode, l: nat, n: nat, del0: bool)
    requires Shaped(tn, l, n)
    ensures Blank(PruneWorker(tn, l, n, del0), l, n) <==> Blank(tn, l, n)
    decreases l
  {
    if tn.Internal? {
      var kids' := PruneKids(tn.kids, l - 1, n, del0);
      forall i | 0 <= i < FANOUT ensures Blank(kids'[i], l - 1, n) <==> Blank(tn.kids[i], l - 1, n) {
        PruneKeepsBlank(tn.kids[i], l - 1, n, i != 0 || del0);
      }
      if del0 && AllNull(kids') { PruneFrees(tn, l, n); }
    }
  }

  lemma {:induction false} PruneLean(tn: Tnode, l: nat, n: nat, del0: bool)
    requires Shaped(tn, l, n)
    ensures Lean(PruneWorker(tn, l, n, del0), l, n, !del0)
    decreases l
  {
    hide Blank, PruneWorker, PruneKids, Shaped;
    PruneKeepsBlank(tn, l, n, del0);
    if del0 { PruneFrees(tn, l, n); }
    PrunedKids(tn, l, n, del0);
    var r := PruneWorker(tn, l, n, del0);
    if r.Internal? {
      forall i | 0 <= i < FANOUT ensures Lean(r.kids[i], l - 1, n, !del0 && i == 0) {
        PruneLean(tn.kids[i], l - 1, n, i != 0 || del0);
      }
    }
  }

  lemma PrunedKids(tn: Tnode, l: nat, n: nat, del0: bool)
    requires Shaped(tn, l, n)
    ensures var r := PruneWorker(tn, l, n, del0); r.Internal? ==>
            l > 0 && tn.Internal? && |tn.kids| == FANOUT == |r.kids|
    ensures var r := PruneWorker(tn, l, n, del0);
            forall i :: r.Internal? && 0 <= i < FANOUT ==>
              Shaped(tn.kids[i], l - 1, n) && Shaped(r.kids[i], l - 1, n)
                && r.kids[i] == PruneWorker(tn.kids[i], l - 1, n, i != 0 || del0)
  {
  }

  /** A top with nothing but a leftmost child can go. */
  lemma ShrunkSame(tn: Tnode, l: nat, width: nat)
    requires 0 < width < 32 && width % 2 == 0 && l > 0 && Shaped(tn, l, width / 2) && Spine(tn, l, width / 2)
    requires forall i :: 1 <= i < FANOUT ==> tn.kids[i].Null?
    ensures SameMap(tn, l, tn.kids[0], l - 1, width)
  {
    assert tn.kids == Grown(tn.kids[0]).kids;
    GrownSame(tn.kids[0], l - 1, width);
    forall id: nat ensures Lookup(tn.kids[0], l - 1, width, id) == Lookup(tn, l, width, id) {
      assert Lookup(Grown(tn.kids[0]), l, width, id) == Lookup(tn.kids[0], l - 1, width, id);
    }
  }

  // ---------- The tree of a file ----------

  lemma LeafWords(tn: Tnode, n: nat)
    requires tn.Leaf?
    ensures Shaped(tn, 0, n) <==> |tn.words| == n
  {
  }

  /** An entry of zeros stands for no group. */
  lemma NoGroup(width: nat, grpBits: nat)
    ensures Number(Widened(Zeros(width), grpBits)) == 0
  {
    NoBits(Widened(Zeros(width), grpBits));
  }

  class FileVar {
    const width: nat      // bits of an entry
    const grpBits: nat    // chunk numbers are stored without their lowest bits

    var top: Tnode
    var topLevel: nat

    predicate Valid()
      reads this
    {
      && 0 < width < 32 && width % 2 == 0
      && topLevel <= MAX_LEVEL && Shaped(top, topLevel, width / 2) && Spine(top, topLevel, width / 2)
    }

    /** What is stored for chunk `id` of the file. */
    function Stands(id: nat): seq<bool>
      requires Valid()
      reads this
    {
      Lookup(top, topLevel, width, id)
    }

    constructor (width: nat, grpBits: nat)
      requires 0 < width < 32 && width % 2 == 0
      ensures Valid() && this.width == width && this.grpBits == grpBits
      ensures forall id: nat :: Stands(id) == Zeros(width)
    {
      this.width, this.grpBits := width, grpBits;
      top, topLevel := EmptyLeaf(width / 2), 0;
      new;
      forall id: nat ensures Stands(id) == Zeros(width) { BlankReads(0, width / 2, width, id); }
    }

    /** How many internal levels it takes to reach chunk `id`. */
    method RequiredDepth(id: nat) returns (depth: nat)
      ensures forall l: nat :: Above(id, l) == 0 <==> depth <= l
    {
      var i := id / ENTRIES;
      depth := 0;
      while i != 0
        invariant i == Above(id, depth)
        invariant forall l: nat :: l < depth ==> Above(id, l) != 0
      {
        i := i / FANOUT;
        depth := depth + 1;
      }
      forall l: nat ensures Above(id, l) == 0 <==> depth <= l {
        if depth <= l { AboveShrinks(id, depth, l); }
      }
    }

    /** The leaf of chunk `id`, `Null` when there is none. */
    method FindTnode0(id: nat) returns (tn: Tnode)
      requires Valid()
      ensures tn == if id > MAX_CHUNK_ID || Above(id, topLevel) != 0 then Null else LeafAt(top, topLevel, width / 2, id)
    {
      if id > MAX_CHUNK_ID { return Null; }
      var depth := RequiredDepth(id);
      if depth > topLevel { return Null; }
      tn := top;
      var level := topLevel;
      while level > 0 && !tn.Null?
        invariant Shaped(tn, level, width / 2)
        invariant LeafAt(tn, level, width / 2, id) == LeafAt(top, topLevel, width / 2, id)
      {
        tn := tn.kids[Digit(id, level)];
        level := level - 1;
      }
    }

    /** Finds the leaf of chunk `id`, making the tree taller and adding what is missing on the way; `passed`, if not
        `Null`, replaces the leaf. */
    method AddFindTnode0(id: nat, passed: Tnode) returns (tn: Tnode)
      requires Valid() && Shaped(passed, 0, width / 2)
      modifies this
      ensures Valid()
      ensures id > MAX_CHUNK_ID ==> tn.Null? && top == old(top) && topLevel == old(topLevel)
      ensures id <= MAX_CHUNK_ID ==> tn.Leaf? && Above(id, topLevel) == 0 && tn == LeafAt(top, topLevel, width / 2, id)
      ensures id <= MAX_CHUNK_ID && passed.Leaf? ==> tn == passed
      ensures forall y: nat :: Stands(y) == if passed.Leaf? && id <= MAX_CHUNK_ID && y / ENTRIES == id / ENTRIES
                                            then Entry(passed.words, width, y % ENTRIES) else old(Stands(y))
    {
      if id > MAX_CHUNK_ID { return Null; }
      var depth := RequiredDepth(id);
      EnoughLevels(id);
      Grow(depth);
      hide Lookup, LeafAt, Shaped, Spine, Above, Add;
      AddSpine(top, topLevel, width / 2, id, passed);
      AddHas(top, topLevel, width / 2, id, passed);
      forall y: nat
        ensures Lookup(Add(top, topLevel, width / 2, id, passed), topLevel, width, y) ==
                if y / ENTRIES == id / ENTRIES && !passed.Null? then Entry(passed.words, width, y % ENTRIES)
                    else Stands(y)
      {
        AddLookup(top, topLevel, width, id, passed, y);
      }
      top := Add(top, topLevel, width / 2, id, passed);
      tn := LeafAt(top, topLevel, width / 2, id);
    }

    /** Makes the tree at least `depth` levels tall. */
    method Grow(depth: nat)
      requires Valid() && depth <= MAX_LEVEL
      modifies this
      ensures Valid() && topLevel >= depth && forall y: nat :: Stands(y) == old(Stands(y))
    {
      while topLevel < depth
        invariant Valid() && forall y: nat :: Stands(y) == old(Stands(y))
      {
        GrownSame(top, topLevel, width);
        top := Grown(top);
        topLevel := topLevel + 1;
      }
    }

    /** Records that chunk `id` of the file is chunk `val` of the device; only this entry changes. */
    method PutChunkInFile(id: nat, val: Word) returns (ok: bool)
      requires Valid()
      modifies this
      ensures Valid() && ok == (id <= MAX_CHUNK_ID)
      ensures forall y: nat :: Stands(y) == if ok && y == id && val != Zero() then Stored(val, grpBits, width)
              else old(Stands(y))
    {
      var tn := AddFindTnode0(id, Null);
      if tn.Null? { return false; }
      if val == Zero() { return true; }
      LoadEntry(tn, id, val);
      ok := true;
    }

    /** Overwrites entry `id` of its leaf `tn`. */
    method LoadEntry(tn: Tnode, id: nat, val: Word)
      requires Valid() && id <= MAX_CHUNK_ID && Above(id, topLevel) == 0
      requires tn == LeafAt(top, topLevel, width / 2, id) && tn.Leaf?
      modifies this
      ensures Valid() && forall y: nat :: Stands(y) == if y == id then Stored(val, grpBits, width) else old(Stands(y))
    {
      hide Lookup, LeafAt, Shaped, Spine, Above;
      assert 0 < width < 32 && width % 2 == 0;
      forall y: nat | y / ENTRIES == id / ENTRIES ensures Stands(y) == EntryOf(tn, width, y) {
        LookupInLeaf(top, topLevel, width, id, y);
      }
      LeafWords(tn, width / 2);
      var words := LoadTnode0(tn.words, width, grpBits, id, val);
      LeafWords(Leaf(words), width / 2);
      var _ := AddFindTnode0(id, Leaf(words));
    }

    /** The group of chunks recorded for chunk `id` of the file starts here; 0 if nothing is recorded. */
    function GroupStart(id: nat): nat
      requires Valid()
      reads this
    {
      Number(Widened(Stands(id), grpBits))
    }

    /** Finds the chunk recorded for chunk `id`: the first of its group that is in use and carries the right tags. */
    method FindChunkInFile(id: nat, inUse: set<nat>, tagged: set<nat>) returns (r: int)
      requires Valid() && id <= MAX_CHUNK_ID
      ensures FirstMatch(r, GroupStart(id), Pow2(grpBits), inUse, tagged)
    {
      var tn := FindTnode0(id);
      if tn.Null? {
        NoGroup(width, grpBits);
        return -1;
      }
      var base := GetGroupBase(tn.words, width, grpBits, id);
      r := FindChunkInGroup(Number(base), Pow2(grpBits), inUse, tagged);
    }

    /** Finds the chunk recorded for chunk `id`, and clears the entry if it is found. */
    method FindDelFileChunk(id: nat, inUse: set<nat>, tagged: set<nat>) returns (r: int)
      requires Valid() && id <= MAX_CHUNK_ID
      modifies this
      ensures Valid() && FirstMatch(r, old(GroupStart(id)), Pow2(grpBits), inUse, tagged)
      ensures forall y: nat :: Stands(y) == if y == id && r != -1 then Zeros(width) else old(Stands(y))
    {
      var tn := FindTnode0(id);
      if tn.Null? {
        NoGroup(width, grpBits);
        return -1;
      }
      var base := GetGroupBase(tn.words, width, grpBits, id);
      r := FindChunkInGroup(Number(base), Pow2(grpBits), inUse, tagged);
      if r != -1 { LoadEntry(tn, id, Zero()); }
    }

    /** Frees what the tree does not need, and makes it as low as it can be. */
    method PruneTree()
      requires Valid()
      modifies this
      ensures Valid() && forall id: nat :: Stands(id) == old(Stands(id))
      ensures old(topLevel) > 0 ==> Lean(top, topLevel, width / 2, true)
      ensures topLevel > 0 ==> exists i :: 1 <= i < FANOUT && !top.kids[i].Null?
    {
      if topLevel < 1 { return; }
      PruneSpine(top, topLevel, width / 2);
      PruneLean(top, topLevel, width / 2, false);
      forall id: nat ensures Lookup(PruneWorker(top, topLevel, width / 2, false), topLevel, width, id) == Stands(id) {
        PruneReads(top, topLevel, width, false, id);
      }
      top := PruneWorker(top, topLevel, width / 2, false);
      Lower();
    }

    /** Drops the top as long as it has a leftmost child only. */
    method Lower()
      requires Valid() && Lean(top, topLevel, width / 2, true)
      modifies this
      ensures Valid() && Lean(top, topLevel, width / 2, true)
      ensures forall id: nat :: Stands(id) == old(Stands(id))
      ensures topLevel > 0 ==> exists i :: 1 <= i < FANOUT && !top.kids[i].Null?
    {
      hide Lookup, LeafAt;
      var done := false;
      while topLevel > 0 && !done
        invariant Valid() && Lean(top, topLevel, width / 2, true)
        invariant forall id: nat :: Stands(id) == old(Stands(id))
        invariant done ==> topLevel > 0 && exists i :: 1 <= i < FANOUT && !top.kids[i].Null?
        decreases topLevel, !done
      {
        var hasData := 0;
        for i := 1 to FANOUT
          invariant hasData == 0 <==> forall j :: 1 <= j < i ==> top.kids[j].Null?
          invariant hasData >= 0
        {
          if !top.kids[i].Null? { hasData := hasData + 1; }
        }
        if hasData == 0 {
          ShrunkSame(top, topLevel, width);
          top := top.kids[0];
          topLevel := topLevel - 1;
        } else {
          done := true;
        }
      }
    }
  }
}
