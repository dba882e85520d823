/**
 Flash pages and the objects that own them: every page in use has one owner, and what happens to a page does not
 show in what can be read.
 */
module Owners {
  import opened Common
  import opened Space

  /** A programmed page: the tags that say which chunk of which object it is, 0 for the header, and the data.  A
      header also has the size of the file, and the flag saying that the file was cut to it. */
  datatype Page = Page(obj: nat, id: nat, data: seq<bv8>, size: nat, isShrink: bool)

  function DataPage(obj: nat, id: nat, data: seq<bv8>): Page { Page(obj, id, data, 0, false) }

  /** An object: its header page, the pages of its chunks, its size, and, once it was soft-deleted, only the number
      of its data pages that are still on flash. */
  datatype Obj = Obj(hdr: Option<Chunk>, chunks: map<nat, Chunk>, softDeleted: bool, nData: int, size: nat)

  function NewObj(): Obj { Obj(None, map[], false, 0, 0) }

  type Nand = map<Chunk, Page>
  type Objs = map<nat, Obj>

  // ---------- Who owns a page ----------

  /** The data pages in use that are tagged with object `o`. */
  function DataPages(bits: set<Chunk>, nand: Nand, o: nat): set<Chunk> {
    set c | c in bits && c in nand && nand[c].obj == o && nand[c].id > 0
  }

  /** Object `ob` owns page `c`, which is tagged with chunk `id`. */
  predicate Owns(ob: Obj, id: nat, c: Chunk) {
    if id == 0 then ob.hdr == Some(c) else ob.softDeleted || (id in ob.chunks && ob.chunks[id] == c)
  }

  /** What object `o` points to is in use and tagged with it. */
  ghost predicate Rightful(bits: set<Chunk>, nand: Nand, o: nat, ob: Obj) {
    && (ob.hdr.Some? ==>
        ob.hdr.value in bits && ob.hdr.value in nand && nand[ob.hdr.value].obj == o
        && nand[ob.hdr.value].id == 0)
    && (forall id :: id in ob.chunks ==> id > 0 && ob.chunks[id] in bits && ob.chunks[id] in nand
                                         && nand[ob.chunks[id]].obj == o && nand[ob.chunks[id]].id == id)
    && (ob.softDeleted ==> ob.chunks == map[])
    && ob.nData == |DataPages(bits, nand, o)|
  }

  /** Every page in use has exactly one owner, the one in its tags, and the soft-deleted pages are those of
      soft-deleted files. */
  ghost predicate Owned(bits: set<Chunk>, soft: set<Chunk>, nand: Nand, objs: Objs) {
    && (forall c :: c in bits ==> HasOwner(soft, nand, objs, c))
    && (forall o :: o in objs ==> Rightful(bits, nand, o, objs[o]))
    && soft <= bits
  }

  ghost predicate HasOwner(soft: set<Chunk>, nand: Nand, objs: Objs, c: Chunk) {
    && c in nand && nand[c].obj in objs && Owns(objs[nand[c].obj], nand[c].id, c)
    && (c in soft <==> nand[c].id > 0 && objs[nand[c].obj].softDeleted)
  }

  /** The files scheduled for deletion are exactly those that are soft-deleted and have no data page left. */
  ghost predicate Scheduled(cleanUps: seq<nat>, objs: Objs) {
    forall o :: o in objs ==> (o in cleanUps <==> objs[o].softDeleted && objs[o].nData <= 0)
  }

  /** The data of chunk `id` of object `o`. */
  function Lookup(nand: Nand, objs: Objs, o: nat, id: nat): Option<seq<bv8>> {
    if o in objs && id in objs[o].chunks && objs[o].chunks[id] in nand then Some(nand[objs[o].chunks[id]].data)
        else None
  }

  ghost predicate SameReads(nand: Nand, objs: Objs, nand': Nand, objs': Objs) {
    forall o, id :: Lookup(nand', objs', o, id) == Lookup(nand, objs, o, id)
  }

  // ---------- What happens to the owners ----------

  /** Page `c` of object `ob` is replaced by page `c'`. */
  function Moved(ob: Obj, id: nat, c': Chunk): Obj {
    if id == 0 then ob.(hdr := Some(c')) else ob.(chunks := ob.chunks[id := c'])
  }

  /** `nand'` holds, for the pages in use, what `nand` held, but for page `c'`, which holds `p`. */
  ghost predicate Programmed(bits': set<Chunk>, nand: Nand, nand': Nand, c': Chunk, p: Page) {
    forall x :: x in bits' ==> x in nand' && if x == c' then nand'[x] == p else x in nand && nand'[x] == nand[x]
  }

  lemma PagesMoved(bits: set<Chunk>, nand: Nand, nand': Nand, c: Chunk, c': Chunk, p: Page, o: nat)
    requires c in bits && c in nand && c' !in bits && p.obj == nand[c].obj && p.id == nand[c].id
    requires Programmed(bits + {c'} - {c}, nand, nand', c', p)
    ensures |DataPages(bits + {c'} - {c}, nand', o)| == |DataPages(bits, nand, o)|
  {
    var old', new' := DataPages(bits, nand, o), DataPages(bits + {c'} - {c}, nand', o);
    if p.obj == o && p.id > 0 {
      assert c in old' && new' == old' - {c} + {c'};
    } else {
      assert new' == old';
    }
  }

  lemma RightfulMove(bits: set<Chunk>, nand: Nand, nand': Nand, o: nat, ob: Obj, c: Chunk, c': Chunk, p: Page)
    requires Rightful(bits, nand, o, ob) && c in bits && c in nand && c' !in bits
    requires p.obj == nand[c].obj && p.id == nand[c].id && Programmed(bits + {c'} - {c}, nand, nand', c', p)
    ensures o != p.obj ==> Rightful(bits + {c'} - {c}, nand', o, ob)
    ensures o == p.obj && Owns(ob, p.id, c) && (p.id > 0 ==> !ob.softDeleted) ==>
              Rightful(bits + {c'} - {c}, nand', o, Moved(ob, p.id, c'))
  {
    PagesMoved(bits, nand, nand', c, c', p, o);
  }

  /** A live page is copied and the old one given up: there is again one owner for every page. */
  lemma OwnedMove(bits: set<Chunk>, soft: set<Chunk>, nand: Nand, objs: Objs, nand': Nand, c: Chunk, c': Chunk, p: Page)
    requires Owned(bits, soft, nand, objs) && c in bits && c !in soft && c' !in bits
    requires p.obj == nand[c].obj && p.id == nand[c].id
    requires Programmed(bits + {c'} - {c}, nand, nand', c', p)
    ensures Owned(bits + {c'} - {c}, soft, nand', objs[p.obj := Moved(objs[p.obj], p.id, c')])
  {
    hide Rightful;
    var bits', objs' := bits + {c'} - {c}, objs[p.obj := Moved(objs[p.obj], p.id, c')];
    assert HasOwner(soft, nand, objs, c);
    forall o | o in objs' ensures Rightful(bits', nand', o, objs'[o]) {
      RightfulMove(bits, nand, nand', o, objs[o], c, c', p);
    }
    forall x | x in bits' ensures HasOwner(soft, nand', objs', x) {
      if x != c' { assert HasOwner(soft, nand, objs, x); }
    }
  }

  /** A chunk of an object is read from the page the object owns. */
  lemma LookupOwned(bits: set<Chunk>, nand: Nand, nand': Nand, o: nat, ob: Obj, id: nat, c: Chunk)
    requires Rightful(bits, nand, o, ob) && c in nand && (o != nand[c].obj || id != nand[c].id)
    requires forall x :: x in bits - {c} ==> x in nand' && x in nand && nand'[x] == nand[x]
    ensures id in ob.chunks ==>
            ob.chunks[id] in nand' && ob.chunks[id] in nand
            && nand'[ob.chunks[id]] == nand[ob.chunks[id]]
  {
  }

  lemma ReadsMove(bits: set<Chunk>, soft: set<Chunk>, nand: Nand, objs: Objs, nand': Nand, c: Chunk, c': Chunk, p: Page)
    requires Owned(bits, soft, nand, objs) && c in bits && c !in soft && c' !in bits
    requires p.obj == nand[c].obj && p.id == nand[c].id && (p.id > 0 ==> p == nand[c])
    requires Programmed(bits + {c'} - {c}, nand, nand', c', p)
    ensures SameReads(nand, objs, nand', objs[p.obj := Moved(objs[p.obj], p.id, c')])
  {
    hide Rightful;
    var objs' := objs[p.obj := Moved(objs[p.obj], p.id, c')];
    OwnerOf(bits, soft, nand, objs, c);
    ReadsReplace(bits, soft, nand, objs, nand', c, c', p);
    NoChunkZero(bits, soft, nand, objs, p.obj);
    forall o, id ensures Lookup(nand', objs', o, id) == Lookup(nand, objs, o, id) {
    }
  }

  lemma NoChunkZero(bits: set<Chunk>, soft: set<Chunk>, nand: Nand, objs: Objs, o: nat)
    requires Owned(bits, soft, nand, objs) && o in objs
    ensures 0 !in objs[o].chunks
  {
    assert Rightful(bits, nand, o, objs[o]);
  }

  /** An object gets a page it did not have. */
  function Grown(ob: Obj, id: nat, c: Chunk): Obj {
    if id == 0 then ob.(hdr := Some(c)) else ob.(chunks := ob.chunks[id := c], nData := ob.nData + 1)
  }

  lemma PagesAdded(bits: set<Chunk>, nand: Nand, nand': Nand, o: nat, c: Chunk, p: Page)
    requires c !in bits && Programmed(bits + {c}, nand, nand', c, p)
    ensures |DataPages(bits + {c}, nand', o)| == |DataPages(bits, nand, o)| + if o == p.obj && p.id > 0 then 1 else 0
  {
    var was, now := DataPages(bits, nand, o), DataPages(bits + {c}, nand', o);
    if o == p.obj && p.id > 0 { assert c in now && now == was + {c}; } else { assert now == was; }
  }

  lemma RightfulAdd(bits: set<Chunk>, nand: Nand, nand': Nand, o: nat, ob: Obj, c: Chunk, p: Page)
    requires Rightful(bits, nand, o, ob) && c !in bits && Programmed(bits + {c}, nand, nand', c, p)
    ensures o != p.obj ==> Rightful(bits + {c}, nand', o, ob)
    ensures o == p.obj && !ob.softDeleted && p.id !in ob.chunks ==> Rightful(bits + {c}, nand', o, Grown(ob, p.id, c))
  {
    PagesAdded(bits, nand, nand', o, c, p);
  }

  lemma OwnedAdd(bits: set<Chunk>, soft: set<Chunk>, nand: Nand, objs: Objs, nand': Nand, c: Chunk, p: Page)
    requires Owned(bits, soft, nand, objs) && c !in bits && Programmed(bits + {c}, nand, nand', c, p)
    requires p.obj in objs && !objs[p.obj].softDeleted && p.id !in objs[p.obj].chunks
    requires p.id == 0 ==> objs[p.obj].hdr.None?
    ensures Owned(bits + {c}, soft, nand', objs[p.obj := Grown(objs[p.obj], p.id, c)])
  {
    hide Rightful;
    var bits', objs' := bits + {c}, objs[p.obj := Grown(objs[p.obj], p.id, c)];
    forall o | o in objs' ensures Rightful(bits', nand', o, objs'[o]) {
      RightfulAdd(bits, nand, nand', o, objs[o], c, p);
    }
    forall x | x in bits' ensures HasOwner(soft, nand', objs', x) {
      if x != c { assert HasOwner(soft, nand, objs, x); }
    }
  }

  /** Only the chunk that was written reads differently. */
  ghost predicate ReadsBut(nand: Nand, objs: Objs, nand': Nand, objs': Objs, p: Page) {
    && (p.id > 0 ==> Lookup(nand', objs', p.obj, p.id) == Some(p.data))
    && forall o: nat, id: nat :: id == 0 || o != p.obj || id != p.id ==>
      Lookup(nand', objs', o, id) == Lookup(nand, objs, o, id)
  }

  lemma ReadsAdd(bits: set<Chunk>, soft: set<Chunk>, nand: Nand, objs: Objs, nand': Nand, c: Chunk, p: Page)
    requires Owned(bits, soft, nand, objs) && c !in bits && Programmed(bits + {c}, nand, nand', c, p)
    requires p.obj in objs && c in nand'
    ensures ReadsBut(nand, objs, nand', objs[p.obj := Grown(objs[p.obj], p.id, c)], p)
  {
    var objs' := objs[p.obj := Grown(objs[p.obj], p.id, c)];
    forall o: nat, id: nat | id == 0 || o != p.obj || id != p.id
      ensures Lookup(nand', objs', o, id) == Lookup(nand, objs, o, id)
    {
      if o in objs { assert Rightful(bits, nand, o, objs[o]); }
    }
  }

  lemma ReadsReplace(bits: set<Chunk>, soft: set<Chunk>, nand: Nand, objs: Objs, nand': Nand, c: Chunk, c': Chunk,
                     p: Page)
    requires Owned(bits, soft, nand, objs) && c in bits && c' !in bits
    requires p.obj == nand[c].obj && p.id == nand[c].id && p.obj in objs
    requires Programmed(bits + {c'} - {c}, nand, nand', c', p)
    ensures ReadsBut(nand, objs, nand', objs[p.obj := Moved(objs[p.obj], p.id, c')], p)
  {
    hide Rightful;
    var objs' := objs[p.obj := Moved(objs[p.obj], p.id, c')];
    NoChunkZero(bits, soft, nand, objs, p.obj);
    forall x | x in bits ensures x in nand { OwnerOf(bits, soft, nand, objs, x); }
    forall o: nat, id: nat | id == 0 || o != p.obj || id != p.id
      ensures Lookup(nand', objs', o, id) == Lookup(nand, objs, o, id)
    {
      if o in objs && (o != p.obj || id != p.id) { LookupOwned(bits, nand, nand', o, objs[o], id, c); }
    }
  }

  /** The page an object has for chunk `id` is in use, tagged with it, and not soft-deleted. */
  lemma PreviousPage(bits: set<Chunk>, soft: set<Chunk>, nand: Nand, objs: Objs, o: nat, id: nat)
    requires Owned(bits, soft, nand, objs) && o in objs && !objs[o].softDeleted
    ensures 0 !in objs[o].chunks
    ensures var prev := if id == 0 then objs[o].hdr else if id in objs[o].chunks then Some(objs[o].chunks[id])
            else None;
            prev.Some? ==> prev.value in bits && prev.value !in soft && prev.value in nand &&
                           nand[prev.value].obj == o && nand[prev.value].id == id
  {
    assert Rightful(bits, nand, o, objs[o]);
    var prev := if id == 0 then objs[o].hdr else if id in objs[o].chunks then Some(objs[o].chunks[id]) else None;
    if prev.Some? { assert HasOwner(soft, nand, objs, prev.value); }
  }

  lemma OwnedCreate(bits: set<Chunk>, soft: set<Chunk>, nand: Nand, objs: Objs, o: nat)
    requires Owned(bits, soft, nand, objs) && o !in objs
    ensures Owned(bits, soft, nand, objs[o := NewObj()])
  {
    var objs' := objs[o := NewObj()];
    forall x | x in bits ensures HasOwner(soft, nand, objs', x) && nand[x].obj != o {
      assert HasOwner(soft, nand, objs, x);
    }
    assert DataPages(bits, nand, o) == {};
    forall j | j in objs' ensures Rightful(bits, nand, j, objs'[j]) {
      if j != o { assert Rightful(bits, nand, j, objs[j]); }
    }
  }

  function Dropped(ob: Obj, id: nat): Obj { ob.(chunks := ob.chunks - {id}, nData := ob.nData - 1) }

  lemma RightfulDrop(bits: set<Chunk>, nand: Nand, nand': Nand, o: nat, ob: Obj, c: Chunk)
    requires Rightful(bits, nand, o, ob) && c in bits && c in nand && nand[c].id > 0
    requires forall x :: x in bits - {c} ==> x in nand && x in nand' && nand'[x] == nand[x]
    ensures o != nand[c].obj ==> Rightful(bits - {c}, nand', o, ob)
    ensures o == nand[c].obj && !ob.softDeleted ==> Rightful(bits - {c}, nand', o, Dropped(ob, nand[c].id))
  {
    var was, now := DataPages(bits, nand, o), DataPages(bits - {c}, nand', o);
    if o == nand[c].obj { assert c in was && now == was - {c}; } else { assert now == was; }
  }

  lemma OwnedDrop(bits: set<Chunk>, soft: set<Chunk>, nand: Nand, objs: Objs, nand': Nand, o: nat, id: nat)
    requires Owned(bits, soft, nand, objs) && o in objs && !objs[o].softDeleted && id in objs[o].chunks
    requires forall x :: x in bits - {objs[o].chunks[id]} ==> x in nand' && nand'[x] == nand[x]
    ensures var objs' := objs[o := Dropped(objs[o], id)];
            && Owned(bits - {objs[o].chunks[id]}, soft, nand', objs')
            && forall j, i :: Lookup(nand', objs', j, i) == if j == o && i == id then None else Lookup(nand, objs, j, i)
  {
    hide Rightful;
    var c, objs' := objs[o].chunks[id], objs[o := Dropped(objs[o], id)];
    NoChunkZero(bits, soft, nand, objs, o);
    PreviousPage(bits, soft, nand, objs, o, id);
    forall x | x in bits ensures x in nand { OwnerOf(bits, soft, nand, objs, x); }
    forall j | j in objs' ensures Rightful(bits - {c}, nand', j, objs'[j]) {
      RightfulDrop(bits, nand, nand', j, objs[j], c);
    }
    forall x | x in bits - {c} ensures HasOwner(soft, nand', objs', x) { OwnerOf(bits, soft, nand, objs, x); }
    forall j, i ensures Lookup(nand', objs', j, i) == if j == o && i == id then None else Lookup(nand, objs, j, i) {
      if j in objs && (j != o || i != id) { LookupOwned(bits, nand, nand', j, objs[j], i, c); }
    }
  }

  /** The pages of a live file are in use, are not soft-deleted, and are all different. */
  lemma FilePages(bits: set<Chunk>, soft: set<Chunk>, nand: Nand, objs: Objs, o: nat)
    requires Owned(bits, soft, nand, objs) && o in objs && !objs[o].softDeleted
    ensures forall id :: id in objs[o].chunks ==> objs[o].chunks[id] in bits && objs[o].chunks[id] !in soft
    ensures forall i, j :: i in objs[o].chunks && j in objs[o].chunks && i != j ==>
            objs[o].chunks[i] != objs[o].chunks[j]
  {
    assert Rightful(bits, nand, o, objs[o]);
    forall id | id in objs[o].chunks ensures objs[o].chunks[id] in bits && objs[o].chunks[id] !in soft {
      assert HasOwner(soft, nand, objs, objs[o].chunks[id]);
    }
  }

  lemma OwnedSoft(bits: set<Chunk>, soft: set<Chunk>, nand: Nand, objs: Objs, o: nat, soft': set<Chunk>)
    requires Owned(bits, soft, nand, objs) && o in objs && !objs[o].softDeleted
    requires soft' <= bits
    requires forall c :: c in soft' <==> c in soft || exists id :: id in objs[o].chunks && objs[o].chunks[id] == c
    ensures Owned(bits, soft', nand, objs[o := objs[o].(softDeleted := true, chunks := map[])])
  {
    var objs' := objs[o := objs[o].(softDeleted := true, chunks := map[])];
    forall j | j in objs' ensures Rightful(bits, nand, j, objs'[j]) { assert Rightful(bits, nand, j, objs[j]); }
    forall x | x in bits ensures HasOwner(soft', nand, objs', x) {
      assert HasOwner(soft, nand, objs, x);
      assert Rightful(bits, nand, o, objs[o]);
    }
  }

  lemma RightfulForget(bits: set<Chunk>, nand: Nand, nand': Nand, o: nat, ob: Obj, c: Chunk)
    requires Rightful(bits, nand, o, ob) && c in bits && c in nand && nand[c].id > 0
    requires forall x :: x in bits - {c} ==> x in nand && x in nand' && nand'[x] == nand[x]
    ensures o != nand[c].obj ==> Rightful(bits - {c}, nand', o, ob)
    ensures o == nand[c].obj && ob.softDeleted ==> Rightful(bits - {c}, nand', o, ob.(nData := ob.nData - 1))
  {
    var was, now := DataPages(bits, nand, o), DataPages(bits - {c}, nand', o);
    if o == nand[c].obj { assert c in was && now == was - {c}; } else { assert now == was; }
  }

  /** A page of a soft-deleted file is given up. */
  lemma OwnedForget(bits: set<Chunk>, soft: set<Chunk>, nand: Nand, objs: Objs, nand': Nand, c: Chunk)
    requires Owned(bits, soft, nand, objs) && c in soft
    requires forall x :: x in bits - {c} ==> x in nand' && nand'[x] == nand[x]
    ensures var o := nand[c].obj;
            Owned(bits - {c}, soft - {c}, nand', objs[o := objs[o].(nData := objs[o].nData - 1)])
  {
    hide Rightful;
    assert HasOwner(soft, nand, objs, c);
    var o := nand[c].obj;
    var bits', objs' := bits - {c}, objs[o := objs[o].(nData := objs[o].nData - 1)];
    forall x | x in bits ensures x in nand { assert HasOwner(soft, nand, objs, x); }
    forall j | j in objs' ensures Rightful(bits', nand', j, objs'[j]) {
      RightfulForget(bits, nand, nand', j, objs[j], c);
    }
    forall x | x in bits' ensures HasOwner(soft - {c}, nand', objs', x) {
      assert HasOwner(soft, nand, objs, x);
    }
  }

  lemma ReadsForget(bits: set<Chunk>, soft: set<Chunk>, nand: Nand, objs: Objs, nand': Nand, c: Chunk)
    requires Owned(bits, soft, nand, objs) && c in soft
    requires forall x :: x in bits - {c} ==> x in nand' && nand'[x] == nand[x]
    ensures var o := nand[c].obj; SameReads(nand, objs, nand', objs[o := objs[o].(nData := objs[o].nData - 1)])
  {
    assert HasOwner(soft, nand, objs, c);
    var o := nand[c].obj;
    var objs' := objs[o := objs[o].(nData := objs[o].nData - 1)];
    forall j, id ensures Lookup(nand', objs', j, id) == Lookup(nand, objs, j, id) {
      if j in objs { assert Rightful(bits, nand, j, objs[j]); }
    }
  }

  function HeaderSet(ob: Obj): set<Chunk> { if ob.hdr.Some? then {ob.hdr.value} else {} }

  /** An object without data pages owns at most its header. */
  lemma OnlyHeader(bits: set<Chunk>, soft: set<Chunk>, nand: Nand, objs: Objs, o: nat)
    requires Owned(bits, soft, nand, objs) && o in objs && objs[o].nData <= 0
    ensures objs[o].chunks == map[]
    ensures forall c :: c in bits && nand[c].obj == o ==> c in HeaderSet(objs[o])
  {
    assert Rightful(bits, nand, o, objs[o]);
    assert DataPages(bits, nand, o) == {};
    assert forall id :: id in objs[o].chunks ==> objs[o].chunks[id] in DataPages(bits, nand, o);
    forall c | c in bits && nand[c].obj == o ensures c in HeaderSet(objs[o]) {
      assert HasOwner(soft, nand, objs, c);
      assert c !in DataPages(bits, nand, o);
    }
  }

  lemma RightfulDelete(bits: set<Chunk>, gone: set<Chunk>, nand: Nand, nand': Nand, o: nat, ob: Obj)
    requires Rightful(bits, nand, o, ob)
    requires forall x :: x in bits - gone ==> x in nand && x in nand' && nand'[x] == nand[x]
    requires forall x :: x in bits * gone ==> x in nand && nand[x].obj != o
    ensures Rightful(bits - gone, nand', o, ob)
  {
    assert DataPages(bits - gone, nand', o) == DataPages(bits, nand, o);
  }

  /** An object without data pages is deleted, with its header if it has one. */
  lemma OwnedDelete(bits: set<Chunk>, soft: set<Chunk>, nand: Nand, objs: Objs, nand': Nand, o: nat)
    requires Owned(bits, soft, nand, objs) && o in objs && objs[o].nData <= 0
    requires forall x :: x in bits - HeaderSet(objs[o]) ==> x in nand' && nand'[x] == nand[x]
    ensures Owned(bits - HeaderSet(objs[o]), soft, nand', objs - {o})
  {
    hide Rightful;
    var bits', objs' := bits - HeaderSet(objs[o]), objs - {o};
    OnlyHeader(bits, soft, nand, objs, o);
    HeaderOf(bits, nand, o, objs[o]);
    forall x | x in bits ensures x in nand && (x in soft ==> nand[x].id > 0) { assert HasOwner(soft, nand, objs, x); }
    forall j | j in objs' ensures Rightful(bits', nand', j, objs'[j]) {
      RightfulDelete(bits, HeaderSet(objs[o]), nand, nand', j, objs[j]);
    }
    forall x | x in bits' ensures HasOwner(soft, nand', objs', x) { assert HasOwner(soft, nand, objs, x); }
  }

  lemma HeaderOf(bits: set<Chunk>, nand: Nand, o: nat, ob: Obj)
    requires Rightful(bits, nand, o, ob)
    ensures forall c :: c in HeaderSet(ob) ==> c in bits && c in nand && nand[c].obj == o && nand[c].id == 0
  {
  }

  lemma ReadsDelete(bits: set<Chunk>, soft: set<Chunk>, nand: Nand, objs: Objs, nand': Nand, o: nat)
    requires Owned(bits, soft, nand, objs) && o in objs && objs[o].nData <= 0
    requires forall x :: x in bits - HeaderSet(objs[o]) ==> x in nand' && nand'[x] == nand[x]
    ensures SameReads(nand, objs, nand', objs - {o})
  {
    var objs' := objs - {o};
    OnlyHeader(bits, soft, nand, objs, o);
    assert Rightful(bits, nand, o, objs[o]);
    forall j, id ensures Lookup(nand', objs', j, id) == Lookup(nand, objs, j, id) {
      if j in objs { assert Rightful(bits, nand, j, objs[j]); }
    }
  }

  /** The pages in use are as they were. */
  lemma OwnedSame(bits: set<Chunk>, soft: set<Chunk>, nand: Nand, objs: Objs, nand': Nand)
    requires Owned(bits, soft, nand, objs)
    requires forall x :: x in bits ==> x in nand' && (x in nand ==> nand'[x] == nand[x])
    ensures Owned(bits, soft, nand', objs) && SameReads(nand, objs, nand', objs)
  {
    forall x | x in bits ensures HasOwner(soft, nand', objs, x) && x in nand { assert HasOwner(soft, nand, objs, x); }
    forall o | o in objs ensures Rightful(bits, nand', o, objs[o]) {
      assert Rightful(bits, nand, o, objs[o]);
      assert DataPages(bits, nand', o) == DataPages(bits, nand, o);
    }
    forall o, id ensures Lookup(nand', objs, o, id) == Lookup(nand, objs, o, id) {
      if o in objs { assert Rightful(bits, nand, o, objs[o]); }
    }
  }

  lemma HeaderNotSoft(bits: set<Chunk>, soft: set<Chunk>, nand: Nand, objs: Objs, o: nat)
    requires Owned(bits, soft, nand, objs) && o in objs
    ensures forall c :: c in HeaderSet(objs[o]) ==> c in bits && c !in soft
  {
    assert Rightful(bits, nand, o, objs[o]);
    forall c | c in HeaderSet(objs[o]) ensures c in bits && c !in soft { assert HasOwner(soft, nand, objs, c); }
  }

  lemma ReadsSame(nand: Nand, objs: Objs)
    ensures SameReads(nand, objs, nand, objs)
  {
  }

  lemma ReadsThen(nand: Nand, objs: Objs, nand': Nand, objs': Objs, nand'': Nand, objs'': Objs)
    requires SameReads(nand, objs, nand', objs') && SameReads(nand', objs', nand'', objs'')
    ensures SameReads(nand, objs, nand'', objs'')
  {
    forall o, id ensures Lookup(nand'', objs'', o, id) == Lookup(nand, objs, o, id) {
      assert Lookup(nand'', objs'', o, id) == Lookup(nand', objs', o, id) == Lookup(nand, objs, o, id);
    }
  }

  lemma OwnerOf(bits: set<Chunk>, soft: set<Chunk>, nand: Nand, objs: Objs, c: Chunk)
    requires Owned(bits, soft, nand, objs) && c in bits
    ensures HasOwner(soft, nand, objs, c)
  {
  }

  /** Page `p` at `ch` takes the place of the page `prev` that its object had for the chunk, if there was one. */
  lemma OwnedInstall(bits: set<Chunk>, soft: set<Chunk>, nand: Nand, objs: Objs, nand': Nand, ch: Chunk, p: Page,
                     prev: Option<Chunk>)
    requires Owned(bits, soft, nand, objs) && p.obj in objs && !objs[p.obj].softDeleted
    requires prev == if p.id == 0 then objs[p.obj].hdr
                     else if p.id in objs[p.obj].chunks then Some(objs[p.obj].chunks[p.id]) else None
    requires ch !in bits && ch in nand' && nand'[ch] == p
    requires forall x :: x in bits ==> x in nand && x in nand' && nand'[x] == nand[x]
    ensures prev.Some? ==> prev.value in bits && prev.value !in soft
    ensures var left := if prev.Some? then {prev.value} else {};
            var ob' := if prev.Some? then Moved(objs[p.obj], p.id, ch) else Grown(objs[p.obj], p.id, ch);
            && Owned(bits + {ch} - left, soft, nand', objs[p.obj := ob'])
            && ReadsBut(nand, objs, nand', objs[p.obj := ob'], p)
  {
    hide Owned, ReadsBut;
    PreviousPage(bits, soft, nand, objs, p.obj, p.id);
    if prev.Some? {
      OwnedMove(bits, soft, nand, objs, nand', prev.value, ch, p);
      ReadsReplace(bits, soft, nand, objs, nand', prev.value, ch, p);
    } else {
      OwnedAdd(bits, soft, nand, objs, nand', ch, p);
      ReadsAdd(bits, soft, nand, objs, nand', ch, p);
    }
    assert bits + {ch} - {} == bits + {ch};
  }

  lemma OwnedSize(bits: set<Chunk>, soft: set<Chunk>, nand: Nand, objs: Objs, o: nat, size: nat)
    requires Owned(bits, soft, nand, objs) && o in objs
    ensures var objs' := objs[o := objs[o].(size := size)];
            Owned(bits, soft, nand, objs') && SameReads(nand, objs, nand, objs')
  {
    var objs' := objs[o := objs[o].(size := size)];
    forall x | x in bits ensures HasOwner(soft, nand, objs', x) { assert HasOwner(soft, nand, objs, x); }
    forall j | j in objs' ensures Rightful(bits, nand, j, objs'[j]) { assert Rightful(bits, nand, j, objs[j]); }
  }
}
