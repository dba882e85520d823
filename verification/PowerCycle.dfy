/** Power is lost and comes back: a file that had been flushed is there again, and can be written again. */
module PowerCycle {
  import opened BackwardScan
  import opened Common
  import opened Contents
  import opened Device
  import opened DeviceLog
  import opened Journal
  import opened LiveFile
  import opened Mount
  import opened Owners
  import opened Restart
  import opened Space
  import F = FileCache
  import L = FlashLog

  /** The object found is the one that there was. */
  lemma SameObject(c: nat, cpb: nat, o: nat, ob: Obj, objs: Objs, log: seq<L.Page>, size: nat)
    requires Tracks(c, cpb, o, ob, log, size, false, true, true) && Restored(c, cpb, o, objs, log)
    requires PagesOk(cpb, ob) && (o in objs ==> PagesOk(cpb, objs[o]))
    ensures o in objs && !objs[o].softDeleted && objs[o].chunks == ob.chunks && objs[o].hdr == ob.hdr
    ensures objs[o].size == size
  {
    hide Addr, L.Replay, L.ReplaySize, L.LastHeader, Fits, Spans;
    ShowsParts(c, cpb, o, ob, log, size);
    FoundAt(c, cpb, o, ob, log, size, false, true, true);
    AddrSplit(cpb, ob.hdr.value);
    AddrPositive(cpb, ob.hdr.value);
    var ob' := objs[o];
    SamePlaces(cpb, ob.chunks, ob'.chunks);
    AddrDistinct(cpb, ob.hdr.value, ob'.hdr.value);
  }

  lemma AddrPositive(cpb: nat, x: Chunk)
    requires x.page < cpb
    ensures Addr(cpb, x) > 0
  {
    AddrSplit(cpb, x);
  }

  lemma SamePlaces(cpb: nat, m: map<nat, Chunk>, m': map<nat, Chunk>)
    requires Addrs(cpb, m) == Addrs(cpb, m')
    requires forall id :: id in m ==> m[id].page < cpb
    requires forall id :: id in m' ==> m'[id].page < cpb
    ensures m == m'
  {
    hide Addr;
    forall id: nat ensures (id in m <==> id in m') && (id in m ==> m[id] == m'[id]) {
      assert id in m <==> id in Addrs(cpb, m);
      assert id in m' <==> id in Addrs(cpb, m');
      if id in m && id in m' {
        assert Addrs(cpb, m)[id] == Addrs(cpb, m')[id];
        AddrDistinct(cpb, m[id], m'[id]);
      }
    }
  }

  /** All pages that an object points to are pages of a block. */
  lemma PagesOfObject(d: Dev, o: nat)
    requires d.Valid() && o in d.objs
    ensures PagesOk(d.cpb, d.objs[o])
  {
    hide Journaled;
    PagesBelow(d.cpb, d.Now());
    OwnedPages(d.cpb, d.bits, d.soft, d.nand, d.objs, o, 0);
  }

  lemma SameTracks(c: nat, cpb: nat, o: nat, ob: Obj, ob': Obj, log: seq<L.Page>, size: nat)
    requires Tracks(c, cpb, o, ob, log, size, false, true, true)
    requires ob'.chunks == ob.chunks && ob'.hdr == ob.hdr
    ensures Tracks(c, cpb, o, ob', log, size, false, true, true)
  {
  }

  lemma StoredOf(c: nat, nand: Nand, objs: Objs, objs': Objs, o: nat)
    requires o in objs && o in objs' && objs'[o].chunks == objs[o].chunks
    ensures Stored(c, nand, objs', o) == Stored(c, nand, objs, o)
  {
    StoredSame(c, nand, objs, nand, objs', o);
  }

  /** A file that has been flushed is the same after the power was lost, on a device that is in order. */
  method LoseAndRegain(f: File, collects: bool) returns (g: File)
    requires f.Valid() && !f.adrift && !f.dirty
    requires |f.dev.blocks| < 0x8000_0000 && f.dev.seqNumber < HIGHEST_SEQUENCE_NUMBER
    requires AllNear(Image(f.dev.cpb, f.dev.nand, f.dev.blocks))
    requires Begun(f.dev.nand, f.dev.blocks, HighestSeq(f.dev.blocks))
    requires forall o :: Addressable(f.dev.c, LOFF, o, f.dev.log)
    ensures fresh(g) && fresh(g.dev) && g.Valid() && g.obj == f.obj && g.collects == collects && !g.adrift && !g.dirty
    ensures g.dev.c == f.dev.c && g.Bytes() == f.Bytes()
  {
    hide Balanced, Journaled, Owned, Tracks, Scheduled, Idle, AllNear, Image, Begun, Restored, SameReads, AllEroded,
      Stored, ZeroAfter, F.FileBytes, HeaderSize, Addressable, PagesOk, Dev.Valid;
    var d := PowerOn(f.dev, LOFF);
    var o := f.obj;
    PagesOfObject(f.dev, o);
    if o in d.objs { PagesOfObject(d, o); }
    SameObject(d.c, d.cpb, o, f.Ob(), d.objs, f.dev.log, f.Size());
    SameTracks(d.c, d.cpb, o, f.Ob(), d.objs[o], f.dev.log, f.Size());
    ErodedObject(d.c, d.cpb, d.objs, f.dev.log, d.log, o);
    TracksEroded(d.c, d.cpb, o, d.objs[o], f.dev.log, d.log, f.Size(), false, true, true);
    ErodedHeaderSize(d.c, d.cpb, o, d.objs[o], f.dev.log, d.log, f.Size(), false, true, true);
    StoredOf(d.c, f.dev.nand, f.dev.objs, d.objs, o);
    SameStored(d.c, f.dev.nand, d.objs, d.nand, d.objs, o);
    g := new File.Reopened(d, o, collects);
  }
}
