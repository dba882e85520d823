/**
 The tnode tree of a file in a checkpoint: its leaves are written out one by one, each with the first chunk id that it
 covers, and plugged into a new tree when they are read back.
 */
module CheckptTnodes {
  import opened Common
  import opened PackedLeaf
  import opened TnodeTree

  /** A leaf as written out. */
  datatype Record = Record(base: nat, words: seq<Word>)

  /** The leaves below `tn`, which covers the chunk ids whose upper part is `offset`. */
  function Dump(tn: Tnode, l: nat, n: nat, offset: nat): seq<Record>
    requires Shaped(tn, l, n)
    decreases l, FANOUT + 1
  {
    match tn
    case Null => []
    case Leaf(words) => [Record(offset * ENTRIES, words)]
    case Internal(kids) => DumpKids(kids, l - 1, n, offset, 0)
  }

  function DumpKids(kids: seq<Tnode>, l: nat, n: nat, offset: nat, i: nat): seq<Record>
    requires i <= |kids| == FANOUT && forall k :: 0 <= k < FANOUT ==> Shaped(kids[k], l, n)
    decreases l + 1, FANOUT - i
  {
    if i == FANOUT then [] else Dump(kids[i], l, n, offset * FANOUT + i) + DumpKids(kids, l, n, offset, i + 1)
  }

  /** A record belongs to the leaf of the chunk ids it gives. */
  lemma {:induction false} DumpSound(tn: Tnode, l: nat, n: nat, offset: nat, r: Record)
    requires Shaped(tn, l, n) && r in Dump(tn, l, n, offset)
    ensures Above(r.base, l) == offset && LeafAt(tn, l, n, r.base) == Leaf(r.words)
    decreases l, FANOUT + 1
  {
    if tn.Internal? { DumpKidsSound(tn, l, n, offset, 0, r); }
  }

  lemma {:induction false} DumpKidsSound(tn: Tnode, l: nat, n: nat, offset: nat, i: nat, r: Record)
    requires Shaped(tn, l, n) && tn.Internal? && i <= FANOUT && r in DumpKids(tn.kids, l - 1, n, offset, i)
    ensures Above(r.base, l) == offset && LeafAt(tn, l, n, r.base) == Leaf(r.words)
    decreases l, FANOUT - i
  {
    if r in Dump(tn.kids[i], l - 1, n, offset * FANOUT + i) {
      DumpSound(tn.kids[i], l - 1, n, offset * FANOUT + i, r);
      assert Digit(r.base, l) == i;
    } else {
      DumpKidsSound(tn, l, n, offset, i + 1, r);
    }
  }

  /** Every leaf has a record. */
  lemma {:induction false} DumpComplete(tn: Tnode, l: nat, n: nat, offset: nat, y: nat) returns (r: Record)
    requires Shaped(tn, l, n) && Above(y, l) == offset && LeafAt(tn, l, n, y).Leaf?
    ensures r in Dump(tn, l, n, offset) && r.base / ENTRIES == y / ENTRIES
    decreases l
  {
    if tn.Leaf? {
      r := Record(offset * ENTRIES, tn.words);
    } else {
      var i := Digit(y, l);
      r := DumpComplete(tn.kids[i], l - 1, n, offset * FANOUT + i, y);
      InKids(tn.kids, l - 1, n, offset, 0, i, r);
    }
  }

  lemma {:induction false} InKids(kids: seq<Tnode>, l: nat, n: nat, offset: nat, i: nat, k: nat, r: Record)
    requires i <= k < FANOUT == |kids| && forall j :: 0 <= j < FANOUT ==> Shaped(kids[j], l, n)
    requires r in Dump(kids[k], l, n, offset * FANOUT + k)
    ensures r in DumpKids(kids, l, n, offset, i)
    decreases k - i
  {
    if i < k { InKids(kids, l, n, offset, i + 1, k, r); }
  }

  /** Chunk ids that a tree of admissible height covers are admissible. */
  lemma IdInRange(id: nat, l: nat)
    requires l <= MAX_LEVEL && Above(id, l) == 0
    ensures id <= MAX_CHUNK_ID
  {
    AboveShrinks(id, l, MAX_LEVEL);
    assert Above(id, 6) < 64;
    assert Above(id, 4) < 0x1000;
    assert Above(id, 2) < 0x4_0000;
    assert Above(id, 0) < 0x100_0000;
  }

  /** What a record stands for is what the tree written out holds. */
  lemma RecordReads(tn: Tnode, l: nat, width: nat, r: Record, y: nat)
    requires 0 < width < 32 && width % 2 == 0 && Shaped(tn, l, width / 2)
    requires r in Dump(tn, l, width / 2, 0) && y / ENTRIES == r.base / ENTRIES
    ensures |r.words| == width / 2 && Lookup(tn, l, width, y) == Entry(r.words, width, y % ENTRIES)
  {
    DumpSound(tn, l, width / 2, 0, r);
    LookupInLeaf(tn, l, width, r.base, y);
  }

  ghost predicate Unmatched(records: seq<Record>, k: nat, y: nat)
    requires k <= |records|
  {
    forall j :: 0 <= j < k ==> records[j].base / ENTRIES != y / ENTRIES
  }

  lemma LeafMatched(tn: Tnode, l: nat, width: nat, y: nat)
    requires Shaped(tn, l, width / 2) && Above(y, l) == 0 && LeafAt(tn, l, width / 2, y).Leaf?
    ensures var records := Dump(tn, l, width / 2, 0); !Unmatched(records, |records|, y)
  {
    var records := Dump(tn, l, width / 2, 0);
    var r := DumpComplete(tn, l, width / 2, 0, y);
    var j :| 0 <= j < |records| && records[j] == r;
  }

  /** Where no record matches, there was nothing. */
  lemma UnmatchedReads(tn: Tnode, l: nat, width: nat, records: seq<Record>, y: nat)
    requires 0 < width < 32 && width % 2 == 0 && Shaped(tn, l, width / 2)
    requires records == Dump(tn, l, width / 2, 0) && Unmatched(records, |records|, y)
    ensures Lookup(tn, l, width, y) == Zeros(width)
  {
    hide Dump, Above;
    if Above(y, l) == 0 && LeafAt(tn, l, width / 2, y).Leaf? {
      LeafMatched(tn, l, width, y);
    }
  }

  /** Leaves of the size that the tree has. */
  predicate Sized(records: seq<Record>, width: nat) {
    0 < width < 32 && width % 2 == 0 && forall k :: 0 <= k < |records| ==> |records[k].words| == width / 2
  }

  /** What is stored for chunk `y` after the leaves have been plugged into an empty tree one after another. */
  function Held(records: seq<Record>, width: nat, y: nat): (e: seq<bool>)
    requires Sized(records, width)
    ensures |e| == width
    decreases |records|
  {
    if records == [] then Zeros(width)
    else
      var r := records[|records| - 1];
      if y / ENTRIES == r.base / ENTRIES then Entry(r.words, width, y % ENTRIES)
      else Held(records[..|records| - 1], width, y)
  }

  /** As far as its leaves are there, the tree holds what the tree written out does. */
  lemma {:induction false} HeldSoFar(tn: Tnode, l: nat, width: nat, k: nat, y: nat)
    requires 0 < width < 32 && width % 2 == 0 && Shaped(tn, l, width / 2) && k <= |Dump(tn, l, width / 2, 0)|
    ensures var records := Dump(tn, l, width / 2, 0);
            && Sized(records[..k], width)
            && (Held(records[..k], width, y) == Lookup(tn, l, width, y) ||
                (Held(records[..k], width, y) == Zeros(width) && Unmatched(records, k, y)))
  {
    hide Dump, Lookup, LeafAt, Above, Shaped;
    var records := Dump(tn, l, width / 2, 0);
    if k > 0 {
      HeldSoFar(tn, l, width, k - 1, y);
      assert records[..k][..k - 1] == records[..k - 1];
      RecordReads(tn, l, width, records[k - 1], records[k - 1].base);
      if y / ENTRIES == records[k - 1].base / ENTRIES { RecordReads(tn, l, width, records[k - 1], y); }
    }
  }

  /** Plugging all leaves of a tree into an empty one gives a tree that holds the same. */
  lemma HeldIsLookup(tn: Tnode, l: nat, width: nat, y: nat)
    requires 0 < width < 32 && width % 2 == 0 && Shaped(tn, l, width / 2)
    ensures Sized(Dump(tn, l, width / 2, 0), width)
    ensures Held(Dump(tn, l, width / 2, 0), width, y) == Lookup(tn, l, width, y)
  {
    hide Dump, Lookup, LeafAt, Above, Shaped, Held;
    var records := Dump(tn, l, width / 2, 0);
    HeldSoFar(tn, l, width, |records|, y);
    assert records[..|records|] == records;
    if Unmatched(records, |records|, y) { UnmatchedReads(tn, l, width, records, y); }
  }

  lemma HeldMore(records: seq<Record>, r: Record, width: nat, y: nat)
    requires Sized(records, width) && |r.words| == width / 2
    ensures Sized(records + [r], width)
    ensures Held(records + [r], width, y) ==
            if y / ENTRIES == r.base / ENTRIES then Entry(r.words, width, y % ENTRIES) else Held(records, width, y)
  {
    assert (records + [r])[..|records|] == records;
  }

  /** The tree holds what the leaves plugged into it say. */
  ghost predicate Plugged(f: FileVar, records: seq<Record>)
    reads f
  {
    f.Valid() && Sized(records, f.width) && forall y: nat :: f.Stands(y) == Held(records, f.width, y)
  }

  /** Plugs a leaf into the tree; this fails exactly if it is for a chunk id that is too large. */
  method Plug(f: FileVar, r: Record, ghost records: seq<Record>) returns (ok: bool)
    requires Plugged(f, records) && |r.words| == f.width / 2
    modifies f
    ensures ok <==> r.base <= MAX_CHUNK_ID
    ensures f.Valid() && (ok ==> Plugged(f, records + [r]))
  {
    hide Held, Lookup, LeafAt, Above, Spine;
    LeafWords(Leaf(r.words), f.width / 2);
    var t := f.AddFindTnode0(r.base, Leaf(r.words));
    ok := !t.Null?;
    if ok {
      forall y: nat ensures f.Stands(y) == Held(records + [r], f.width, y) { HeldMore(records, r, f.width, y); }
    }
  }
}
