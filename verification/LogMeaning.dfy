/**
 What a log means, said page by page and without reading it in order.  The numbers are written out here.
 */
module LogMeaning {
  import opened Common
  import opened FlashLog

  /** A data page of chunk `id` of object `o`, with tags that are believed. */
  predicate DataOf(c: nat, o: nat, id: int, p: Page) {
    p.Data? && p.obj == o <= 0x3_ffff && o != 0x10 && p.id == id && 1 <= id <= 0xfff_ffff && p.nBytes <= c
  }

  /** A header of object `o`, with tags that are believed. */
  predicate HeaderOf(o: nat, p: Page) { p.Header? && p.obj == o <= 0x3_ffff && o != 0x10 }

  ghost predicate NoHeader(o: nat, log: seq<Page>) { forall p :: p in log ==> !HeaderOf(o, p) }

  /** Header `j` takes away what older pages hold at position `x`: the last header does from its size on.  One that is
      followed by others does so from its size on if it is a shrink header, and everywhere if its parent is the
      directory of unlinked files or that of deleted ones. */
  ghost predicate TakesAway(o: nat, log: seq<Page>, j: nat, x: int)
    requires j < |log|
  {
    && HeaderOf(o, log[j])
    && if NoHeader(o, log[j + 1..]) then log[j].size <= x
       else log[j].parent == 3 || log[j].parent == 4 || (log[j].isShrink && log[j].size <= x)
  }

  /** Page `k` is a copy of chunk `id`, and no later page replaces it or takes it away. */
  ghost predicate Stands(c: nat, o: nat, log: seq<Page>, k: nat, id: nat) {
    && k < |log| && DataOf(c, o, id, log[k])
    && forall j :: k < j < |log| ==> !DataOf(c, o, id, log[j]) && !TakesAway(o, log, j, (id - 1) * c)
  }

  /** A page with chunk `id` stands at address `a`. */
  ghost predicate StandsAt(c: nat, o: nat, log: seq<Page>, id: nat, a: nat) {
    exists k: nat :: Stands(c, o, log, k, id) && log[k].chunk == a
  }

  lemma OfIs(c: nat, o: nat, id: nat, p: Page)
    ensures DataOf(c, o, id, p) <==> IsDataOf(c, o, p) && p.id == id
    ensures HeaderOf(o, p) <==> IsHeaderOf(c, o, p)
  {
  }

  lemma HeaderAbove(o: nat, log: seq<Page>, j: nat)
    requires j + 1 < |log|
    ensures HeaderOf(o, log[|log| - 1]) ==> !NoHeader(o, log[j + 1..])
    ensures !HeaderOf(o, log[|log| - 1]) ==> (NoHeader(o, log[j + 1..]) <==> NoHeader(o, log[..|log| - 1][j + 1..]))
  {
    var n := |log| - 1;
    assert log[j + 1..] == log[..n][j + 1..] + [log[n]];
  }

  /** Where the last page is no header, it makes no difference to the ones before. */
  lemma StandsFront(c: nat, o: nat, log: seq<Page>, k: nat, id: nat)
    requires log != [] && k < |log| - 1 && !HeaderOf(o, log[|log| - 1])
    ensures Stands(c, o, log, k, id) <==>
              Stands(c, o, log[..|log| - 1], k, id) && !DataOf(c, o, id, log[|log| - 1])
  {
    hide NoHeader, DataOf, HeaderOf;
    var n, x := |log| - 1, (id - 1) * c;
    forall j: nat | j < n ensures TakesAway(o, log[..n], j, x) <==> TakesAway(o, log, j, x) { HeaderAbove(o, log, j); }
    if Stands(c, o, log, k, id) {
      assert !DataOf(c, o, id, log[n]);
      assert forall j :: k < j < n ==> log[..n][j] == log[j];
    }
    if Stands(c, o, log[..n], k, id) && !DataOf(c, o, id, log[n]) {
      forall j | k < j < |log| ensures !DataOf(c, o, id, log[j]) && !TakesAway(o, log, j, x) {
        if j < n { assert log[..n][j] == log[j]; }
      }
    }
  }

  /** Where the last page is a header, the headers before it are superseded. */
  lemma Superseded(c: nat, o: nat, log: seq<Page>, j: nat, id: nat)
    requires j + 1 < |log| && HeaderOf(o, log[|log| - 1]) && id > 0
    ensures Spares(c, o, log[j], id) <==> !DataOf(c, o, id, log[j]) && !TakesAway(o, log, j, (id - 1) * c)
  {
    HeaderAbove(o, log, j);
    hide NoHeader;
  }

  lemma LastTakes(c: nat, o: nat, log: seq<Page>, id: nat)
    requires log != [] && HeaderOf(o, log[|log| - 1])
    ensures !DataOf(c, o, id, log[|log| - 1])
    ensures TakesAway(o, log, |log| - 1, (id - 1) * c) <==> log[|log| - 1].size <= Base(c, id)
  {
  }

  lemma StandsBelow(c: nat, o: nat, log: seq<Page>, k: nat, id: nat)
    requires log != [] && k < |log| - 1 && HeaderOf(o, log[|log| - 1])
    ensures Stands(c, o, log, k, id) <==>
              Survives(c, o, log[..|log| - 1], k) && log[k].id == id && Base(c, id) < log[|log| - 1].size
  {
    var n, x := |log| - 1, (id - 1) * c;
    OfIs(c, o, id, log[k]);
    LastTakes(c, o, log, id);
    hide NoHeader, DataOf, HeaderOf, IsDataOf, IsCut, Spares, TakesAway;
    if DataOf(c, o, id, log[k]) {
      IdPositive(c, o, id, log[k]);
      forall j: nat | j < n
        ensures Spares(c, o, log[j], id) <==> !DataOf(c, o, id, log[j]) && !TakesAway(o, log, j, x)
      {
        Superseded(c, o, log, j, id);
      }
      assert forall j :: 0 <= j < n ==> log[..n][j] == log[j];
    }
  }

  lemma IdPositive(c: nat, o: nat, id: nat, p: Page)
    requires DataOf(c, o, id, p)
    ensures id > 0
  {
  }

  /** Chunk `id` is found, at address `a`, exactly if the log has a page with it there that stands. */
  lemma {:induction false} FoundIff(c: nat, o: nat, log: seq<Page>, id: nat, a: nat)
    ensures id in Replay(c, o, log) && Replay(c, o, log)[id] == a <==> StandsAt(c, o, log, id, a)
  {
    hide Stands;
    if log != [] {
      FoundIff(c, o, log[..|log| - 1], id, a);
      if HeaderOf(o, log[|log| - 1]) { FoundBelow(c, o, log, id, a); } else { FoundFront(c, o, log, id, a); }
    } else if k: nat :| Stands(c, o, log, k, id) {
      StandsIn(c, o, log, k, id);
    }
  }

  lemma FoundBelow(c: nat, o: nat, log: seq<Page>, id: nat, a: nat)
    requires log != [] && HeaderOf(o, log[|log| - 1])
    ensures id in Replay(c, o, log) && Replay(c, o, log)[id] == a <==> StandsAt(c, o, log, id, a)
  {
    var n := |log| - 1;
    LastTakes(c, o, log, id);
    hide TakesAway, NoHeader, Spares, Survives;
    if id in Replay(c, o, log) && Replay(c, o, log)[id] == a {
      var k := RawHasSurvivor(c, o, log[..n], id);
      StandsBelow(c, o, log, k, id);
    }
    if k: nat :| Stands(c, o, log, k, id) && log[k].chunk == a {
      assert k != n;
      StandsBelow(c, o, log, k, id);
      SurvivorIsRaw(c, o, log[..n], k);
    }
  }

  lemma FoundFront(c: nat, o: nat, log: seq<Page>, id: nat, a: nat)
    requires log != [] && !HeaderOf(o, log[|log| - 1])
    requires var front := log[..|log| - 1];
             id in Replay(c, o, front) && Replay(c, o, front)[id] == a <==> StandsAt(c, o, front, id, a)
    ensures id in Replay(c, o, log) && Replay(c, o, log)[id] == a <==> StandsAt(c, o, log, id, a)
  {
    var n, front := |log| - 1, log[..|log| - 1];
    OfIs(c, o, id, log[n]);
    LastStands(c, o, log, id);
    hide TakesAway, NoHeader, DataOf, HeaderOf, IsDataOf, IsHeaderOf, Stands;
    if id in Replay(c, o, log) && Replay(c, o, log)[id] == a && !DataOf(c, o, id, log[n]) {
      var k: nat :| Stands(c, o, front, k, id) && front[k].chunk == a;
      StandsIn(c, o, front, k, id);
      StandsFront(c, o, log, k, id);
      assert log[k].chunk == a;
    }
    if k: nat :| Stands(c, o, log, k, id) && log[k].chunk == a && k != n {
      StandsIn(c, o, log, k, id);
      StandsFront(c, o, log, k, id);
      assert front[k].chunk == a;
    }
  }

  lemma StandsIn(c: nat, o: nat, log: seq<Page>, k: nat, id: nat)
    requires Stands(c, o, log, k, id)
    ensures k < |log|
  {
  }

  lemma LastStands(c: nat, o: nat, log: seq<Page>, id: nat)
    requires log != []
    ensures Stands(c, o, log, |log| - 1, id) <==> DataOf(c, o, id, log[|log| - 1])
  {
  }

  /** Page `k` is the last header, or a data page with no header behind it, and says that the file goes to `end`. */
  ghost predicate Reaches(c: nat, o: nat, log: seq<Page>, k: nat, end: int) {
    && k < |log| && NoHeader(o, log[k + 1..])
    && match log[k]
       case Blank(_) => false
       case Header(_, _, size, _, _) => HeaderOf(o, log[k]) && end == size
       case Data(_, id, nBytes, _) => DataOf(c, o, id, log[k]) && end == (id - 1) * c + nBytes
  }

  /** The size is the largest that such a page says, 0 if there is none. */
  ghost predicate IsSize(c: nat, o: nat, log: seq<Page>, size: nat) {
    && (forall k: nat, end: int :: Reaches(c, o, log, k, end) ==> end <= size)
    && (size == 0 || exists k: nat :: Reaches(c, o, log, k, size))
  }

  lemma {:induction false} SizeIs(c: nat, o: nat, log: seq<Page>)
    ensures IsSize(c, o, log, ReplaySize(c, o, log))
  {
    hide Reaches;
    if log == [] {
      if k: nat, end: int :| Reaches(c, o, log, k, end) { ReachesIn(c, o, log, k, end); }
    } else {
      var n, size := |log| - 1, ReplaySize(c, o, log[..|log| - 1]);
      SizeIs(c, o, log[..n]);
      forall k: nat, end: int | Reaches(c, o, log, k, end) ensures end <= ReplaySize(c, o, log) {
        ReachesIn(c, o, log, k, end);
        ReachesMore(c, o, log, k, end);
      }
      LastReaches(c, o, log);
      if size > 0 && !HeaderOf(o, log[n]) {
        var k: nat :| Reaches(c, o, log[..n], k, size);
        ReachesIn(c, o, log[..n], k, size);
        ReachesMore(c, o, log, k, size);
      }
    }
  }

  lemma ReachesIn(c: nat, o: nat, log: seq<Page>, k: nat, end: int)
    requires Reaches(c, o, log, k, end)
    ensures k < |log|
  {
  }

  lemma ReachesMore(c: nat, o: nat, log: seq<Page>, k: nat, end: int)
    requires k < |log|
    ensures k < |log| - 1 ==>
              (Reaches(c, o, log, k, end) <==> Reaches(c, o, log[..|log| - 1], k, end) && !HeaderOf(o, log[|log| - 1]))
    ensures k == |log| - 1 && Reaches(c, o, log, k, end) ==> end <= ReplaySize(c, o, log)
  {
    if k < |log| - 1 { HeaderAbove(o, log, k); hide NoHeader; }
  }

  lemma LastReaches(c: nat, o: nat, log: seq<Page>)
    requires log != []
    ensures var n := |log| - 1;
            var p := log[n];
            && (IsDataOf(c, o, p) ==> Reaches(c, o, log, n, Base(c, p.id) + p.nBytes))
            && (HeaderOf(o, p) ==> Reaches(c, o, log, n, p.size))
            && (HeaderOf(o, p) <==> IsHeaderOf(c, o, p))
  {
  }

  /** Page `k` is the last header. */
  ghost predicate IsLastHeader(o: nat, log: seq<Page>, k: nat) {
    k < |log| && HeaderOf(o, log[k]) && NoHeader(o, log[k + 1..])
  }

  lemma {:induction false} HeaderIs(c: nat, o: nat, log: seq<Page>)
    ensures forall k: nat :: IsLastHeader(o, log, k) ==> LastHeader(c, o, log) == log[k].chunk
    ensures NoHeader(o, log) ==> LastHeader(c, o, log) == 0
  {
    if log != [] {
      var n := |log| - 1;
      HeaderIs(c, o, log[..n]);
      OfIs(c, o, 0, log[n]);
      forall k: nat | IsLastHeader(o, log, k) ensures LastHeader(c, o, log) == log[k].chunk {
        if k < n {
          HeaderAbove(o, log, k);
          assert IsLastHeader(o, log[..n], k);
        }
      }
    }
  }

  /** An older header in the directory of unlinked files, or of deleted ones, takes away all that is older; so does an
      older shrink header with what starts at its size, or beyond. */
  lemma CutsForGood(c: nat, o: nat, log: seq<Page>, j: nat, h: nat, id: nat)
    requires j < h < |log| && o <= 0x3_ffff && o != 0x10
    requires log[j].Header? && log[j].obj == o && log[h].Header? && log[h].obj == o
    requires log[j].parent == 3 || log[j].parent == 4 || (log[j].isShrink && log[j].size <= (id - 1) * c)
    requires forall k :: j < k < |log| && log[k].Data? && log[k].obj == o ==> log[k].id != id
    ensures id !in Replay(c, o, log)
  {
    hide Replay, TakesAway, NoHeader, Stands;
    CutsAt(o, log, j, h, (id - 1) * c);
    forall k: nat ensures !Stands(c, o, log, k, id) { StandsNot(c, o, log, j, k, id); }
    if id in Replay(c, o, log) { FoundIff(c, o, log, id, Replay(c, o, log)[id]); }
  }

  lemma CutsAt(o: nat, log: seq<Page>, j: nat, h: nat, x: int)
    requires j < h < |log| && HeaderOf(o, log[j]) && HeaderOf(o, log[h])
    requires log[j].parent == 3 || log[j].parent == 4 || (log[j].isShrink && log[j].size <= x)
    ensures TakesAway(o, log, j, x)
  {
    assert log[h] == log[j + 1..][h - j - 1];
  }

  lemma StandsNot(c: nat, o: nat, log: seq<Page>, j: nat, k: nat, id: nat)
    requires j < |log| && TakesAway(o, log, j, (id - 1) * c)
    requires forall k :: j < k < |log| ==> !DataOf(c, o, id, log[k])
    ensures !Stands(c, o, log, k, id)
  {
    assert HeaderOf(o, log[j]);
  }

  /** The chunks, the size and the header are those of the pages that stand. */
  ghost predicate Tells(c: nat, o: nat, log: seq<Page>, chunks: ChunkMap, size: nat, hdr: nat) {
    && (forall id: nat, a: nat :: id in chunks && chunks[id] == a <==> StandsAt(c, o, log, id, a))
    && IsSize(c, o, log, size)
    && (forall k: nat :: IsLastHeader(o, log, k) ==> hdr == log[k].chunk) && (NoHeader(o, log) ==> hdr == 0)
  }

  lemma ReplayTells(c: nat, o: nat, log: seq<Page>)
    ensures Tells(c, o, log, Replay(c, o, log), ReplaySize(c, o, log), LastHeader(c, o, log))
  {
    hide StandsAt, IsSize, IsLastHeader, NoHeader, Replay, ReplaySize, LastHeader;
    forall id: nat, a: nat
      ensures id in Replay(c, o, log) && Replay(c, o, log)[id] == a <==> StandsAt(c, o, log, id, a)
    {
      FoundIff(c, o, log, id, a);
    }
    SizeIs(c, o, log);
    HeaderIs(c, o, log);
  }
}
