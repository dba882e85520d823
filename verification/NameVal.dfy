/**
 Names and values kept as records one after another in a buffer.  Scanning the buffer, shifting records and writing
 them behaves as a finite map from names to values, but for a record that ends where the buffer ends: that one is
 hidden until a record before it is deleted.
 */
module NameVal {
  import opened Common
  import opened Octets

  datatype Record = Record(name: Bytes, value: Bytes)

  const INT_SIZE: nat := 4
  const EEXIST := 17
  const ENOSPC := 28
  const ERANGE := 34
  const ENODATA := 61

  // ---------- Records as bytes ----------

  function Size(r: Record): nat { INT_SIZE + |r.name| + 1 + |r.value| }

  function Enc1(r: Record): (s: Bytes)
    ensures |s| == Size(r)
  {
    Le4(Size(r)) + r.name + [0] + r.value
  }

  function Enc(recs: seq<Record>): Bytes {
    if recs == [] then [] else Enc(recs[..|recs| - 1]) + Enc1(recs[|recs| - 1])
  }

  predicate NameOk(name: Bytes) { 0 !in name }

  predicate Distinct(recs: seq<Record>) { forall i, j :: 0 <= i < j < |recs| ==> recs[i].name != recs[j].name }

  /** Behind the records in the first `used` bytes there is a word that is not positive, or nothing but zeros. */
  predicate Quiet(xb: Bytes, used: nat) {
    if used + INT_SIZE <= |xb| then Signed4(xb[used..used + INT_SIZE]) <= 0
    else forall i :: used <= i < |xb| ==> xb[i] == 0
  }

  /** The buffer starts with `recs`, and a scan stops behind them. */
  ghost predicate Scannable(xb: Bytes, recs: seq<Record>) {
    && INT_SIZE <= |xb| < 0x8000_0000 && (forall i :: 0 <= i < |recs| ==> NameOk(recs[i].name)) && Distinct(recs)
    && |Enc(recs)| <= |xb| && xb[..|Enc(recs)|] == Enc(recs) && Ends(xb, |Enc(recs)|)
  }

  /** The size word behind the first `used` bytes, if there is one, ends the scan. */
  predicate Ends(xb: Bytes, used: nat) {
    used + INT_SIZE <= |xb| ==>
      var size := Signed4(xb[used..used + INT_SIZE]); size <= 0 || used + size >= |xb|
  }

  /** The buffer holds `recs`, and more can be set and deleted. */
  ghost predicate Holds(xb: Bytes, recs: seq<Record>) { Scannable(xb, recs) && Quiet(xb, |Enc(recs)|) }

  /** The records that a scan of `n` bytes sees: the last one is hidden if it ends where they end. */
  function Seen(recs: seq<Record>, n: nat): (r: seq<Record>)
    ensures r <= recs
  {
    if recs == [] || |Enc(recs)| < n then recs else recs[..|recs| - 1]
  }

  /** The map that the records stand for. */
  function Get1(recs: seq<Record>, name: Bytes): Option<Bytes> {
    if recs == [] then None
    else if recs[|recs| - 1].name == name then Some(recs[|recs| - 1].value)
    else Get1(recs[..|recs| - 1], name)
  }

  /** The records without the one of `name`. */
  function Without(recs: seq<Record>, name: Bytes): seq<Record> {
    if recs == [] then []
    else Without(recs[..|recs| - 1], name) + if recs[|recs| - 1].name == name then [] else [recs[|recs| - 1]]
  }

  /** Index of the record of `name`. */
  function IndexOf(recs: seq<Record>, name: Bytes): (i: int)
    ensures -1 <= i < |recs| && (i >= 0 ==> recs[i].name == name)
    ensures i < 0 ==> forall j :: 0 <= j < |recs| ==> recs[j].name != name
  {
    if recs == [] then -1 else if recs[|recs| - 1].name == name then |recs| - 1 else IndexOf(recs[..|recs| - 1], name)
  }

  lemma EncMore(recs: seq<Record>, i: nat)
    requires i < |recs|
    ensures Enc(recs[..i + 1]) == Enc(recs[..i]) + Enc1(recs[i])
  {
    assert recs[..i + 1][..i] == recs[..i];
  }

  lemma EncAfter(recs: seq<Record>, r: Record)
    ensures Enc(recs + [r]) == Enc(recs) + Enc1(r)
  {
    assert (recs + [r])[..|recs|] == recs;
  }

  lemma {:induction false} EncPrefix(recs: seq<Record>, i: nat)
    requires i <= |recs|
    ensures Enc(recs[..i]) <= Enc(recs)
  {
    hide Enc1;
    if i == |recs| {
      assert recs[..i] == recs;
    } else {
      EncPrefix(recs[..|recs| - 1], i);
      assert recs[..|recs| - 1][..i] == recs[..i];
    }
  }

  /** A part of what comes first is a part of the whole. */
  lemma SliceOf(s: Bytes, a: Bytes, b: Bytes, c: Bytes)
    requires a + b <= c && c <= s
    ensures |a| + |b| <= |s| && s[|a|..|a| + |b|] == b
  {
  }

  /** Where record `i` is, and that the scan sees it if it ends before the end of the buffer. */
  lemma Visible(xb: Bytes, recs: seq<Record>, i: nat)
    requires Scannable(xb, recs) && i < |recs|
    ensures var pos, size := |Enc(recs[..i])|, Size(recs[i]);
            && pos + size == |Enc(recs[..i + 1])| <= |xb|
            && xb[pos..pos + size] == Enc1(recs[i]) && Signed4(xb[pos..pos + INT_SIZE]) == size
            && (pos + size < |xb| <==> i < |Seen(recs, |xb|)|)
  {
    hide Enc, Enc1, Signed4, Le4, Ends;
    var pos, size := |Enc(recs[..i])|, Size(recs[i]);
    EncMore(recs, i);
    EncPrefix(recs, i + 1);
    SliceOf(xb, Enc(recs[..i]), Enc1(recs[i]), Enc(recs));
    SizeWord(recs[i]);
    assert xb[pos..pos + INT_SIZE] == xb[pos..pos + size][..INT_SIZE];
    if i + 1 < |recs| {
      EncMore(recs, i + 1);
      EncPrefix(recs, i + 2);
    } else {
      assert recs[..i + 1] == recs;
    }
  }

  lemma SizeWord(r: Record)
    requires Size(r) < 0x8000_0000
    ensures Signed4(Enc1(r)[..INT_SIZE]) == Size(r)
  {
    hide Signed4, Le4, Unsigned4;
    assert Enc1(r)[..INT_SIZE] == Le4(Size(r));
    Le4Back(Size(r));
  }

  // ---------- Comparing names ----------

  /** Whether the C strings at the start of `s` and `t` agree in their first `n` characters. */
  predicate SameString(s: Bytes, t: Bytes, n: nat) {
    if n == 0 || s == [] then n == 0
    else
      var b := if t == [] then 0 else t[0];
      s[0] == b && (b == 0 || SameString(s[1..], t[1..], n - 1))
  }

  /** On a terminated name, that is equality of names. */
  lemma {:induction false} SameStringIs(name: Bytes, rest: Bytes, t: Bytes, n: nat)
    requires NameOk(name) && NameOk(t) && n > |name|
    ensures SameString(name + [0] + rest, t, n) <==> name == t
  {
    var s := name + [0] + rest;
    if name == [] {
      assert s[0] == 0;
    } else {
      assert s[0] == name[0] && s[1..] == name[1..] + [0] + rest;
      if t != [] && t[0] == name[0] {
        SameStringIs(name[1..], rest, t[1..], n - 1);
        assert name == [name[0]] + name[1..] && t == [t[0]] + t[1..];
      }
    }
  }

  // ---------- Scanning ----------

  /** The size word that the scan reads after `i` records. */
  ghost predicate Scanned(xb: Bytes, recs: seq<Record>, i: nat, pos: int, size: int) {
    && i <= |Seen(recs, |xb|)| && pos == |Enc(recs[..i])|
    && if i < |Seen(recs, |xb|)| then size == Size(recs[i]) else size <= 0 || pos + size >= |xb|
  }

  lemma ScanStart(xb: Bytes, recs: seq<Record>)
    requires Scannable(xb, recs)
    ensures |xb| >= INT_SIZE && Scanned(xb, recs, 0, 0, Signed4(xb[0..INT_SIZE]))
  {
    hide Enc1, Signed4;
    assert recs[..0] == [];
    if |recs| > 0 { Visible(xb, recs, 0); } else { assert recs == []; }
  }

  /** The scan goes on as long as there are records that it sees, and stops then. */
  lemma ScanStep(xb: Bytes, recs: seq<Record>, i: nat, pos: int, size: int)
    requires Scannable(xb, recs) && Scanned(xb, recs, i, pos, size)
    ensures i < |Seen(recs, |xb|)| <==> size > 0 && size < |xb| && pos + size < |xb|
    ensures i < |Seen(recs, |xb|)| ==>
              var pos' := pos + size;
              && (pos' < |xb| - INT_SIZE ==> Scanned(xb, recs, i + 1, pos', Signed4(xb[pos'..pos' + INT_SIZE])))
              && (pos' >= |xb| - INT_SIZE ==> Scanned(xb, recs, i + 1, pos', 0))
  {
    hide Enc, Enc1, Signed4;
    if i < |Seen(recs, |xb|)| {
      Visible(xb, recs, i);
      if i + 1 < |recs| { Visible(xb, recs, i + 1); } else { assert recs[..i + 1] == recs; }
    }
  }

  /** Reads the size word at `pos`, if there is room for one before the end. */
  method SizeAt(xb: array<Byte>, pos: nat) returns (size: int)
    requires pos <= xb.Length
    ensures pos < xb.Length - INT_SIZE ==> size == Signed4(xb[pos..pos + INT_SIZE])
    ensures pos >= xb.Length - INT_SIZE ==> size == 0
  {
    if pos < xb.Length - INT_SIZE { size := Signed4(xb[pos..pos + INT_SIZE]); } else { size := 0; }
  }

  lemma ScannableNames(xb: Bytes, recs: seq<Record>, i: nat)
    requires Scannable(xb, recs) && i < |recs|
    ensures NameOk(recs[i].name)
  {
  }

  lemma NameAt(xb: Bytes, recs: seq<Record>, i: nat, name: Bytes)
    requires Scannable(xb, recs) && i < |recs| && NameOk(name)
    ensures var pos := |Enc(recs[..i])|;
            pos + INT_SIZE <= |xb| && (SameString(xb[pos + INT_SIZE..], name, Size(recs[i])) <==> recs[i].name == name)
  {
    hide Enc, Signed4, Le4, Ends, Seen, Scannable, SameString, NameOk;
    var pos, r := |Enc(recs[..i])|, recs[i];
    Visible(xb, recs, i);
    ScannableNames(xb, recs, i);
    var rest := r.value + xb[pos + Size(r)..];
    assert xb[pos..] == Enc1(r) + xb[pos + Size(r)..];
    assert Enc1(r)[INT_SIZE..] == r.name + [0] + r.value;
    assert xb[pos + INT_SIZE..] == r.name + [0] + rest;
    assert Size(r) > |r.name|;
    SameStringIs(r.name, rest, name, Size(r));
  }

  lemma Unique(recs: seq<Record>, name: Bytes, i: nat)
    requires Distinct(recs) && i < |recs| && recs[i].name == name
    ensures IndexOf(recs, name) == i
  {
  }

  /** Where the record of `name` is, and its size; an error when the scan sees none. */
  method Find(xb: array<Byte>, name: Bytes, ghost recs: seq<Record>) returns (pos: int, size: int)
    requires Scannable(xb[..], recs) && NameOk(name)
    ensures var i := IndexOf(Seen(recs, xb.Length), name);
            if i < 0 then pos == -ENODATA && size == 0 else pos == |Enc(recs[..i])| && size == Size(recs[i])
  {
    hide Scannable, Enc, Signed4, Scanned, IndexOf, SameString, Seen;
    ghost var s, i, seen := xb[..], 0, Seen(recs, xb.Length);
    ScanStart(s, recs);
    ScannedIs(s, recs, 0, 0, Signed4(s[0..INT_SIZE]));
    pos := 0;
    size := Signed4(xb[0..INT_SIZE]);
    assert xb[0..INT_SIZE] == s[0..INT_SIZE];
    while size > 0 && size < xb.Length && pos + size < xb.Length
      invariant 0 <= pos && Scanned(s, recs, i, pos, size)
      invariant i <= |seen| && forall j :: 0 <= j < i ==> seen[j].name != name
      decreases |seen| - i
    {
      ScanStep(s, recs, i, pos, size);
      ScannedIs(s, recs, i, pos, size);
      NameAt(s, recs, i, name);
      if SameString(xb[pos + INT_SIZE..], name, size) {
        ScannableDistinct(s, recs);
        Unique(seen, name, i);
        return;
      }
      pos := pos + size;
      size := SizeAt(xb, pos);
      i := i + 1;
    }
    ScanStep(s, recs, i, pos, size);
    NotThere(seen, name);
    pos, size := -ENODATA, 0;
  }

  lemma ScannedIs(xb: Bytes, recs: seq<Record>, i: nat, pos: int, size: int)
    requires Scanned(xb, recs, i, pos, size)
    ensures Seen(recs, |xb|) <= recs && i <= |Seen(recs, |xb|)| && pos == |Enc(recs[..i])|
    ensures i < |Seen(recs, |xb|)| ==> size == Size(recs[i])
  {
  }

  lemma ScannableDistinct(xb: Bytes, recs: seq<Record>)
    requires Scannable(xb, recs)
    ensures Distinct(recs)
  {
  }

  lemma NotThere(recs: seq<Record>, name: Bytes)
    requires forall j :: 0 <= j < |recs| ==> recs[j].name != name
    ensures IndexOf(recs, name) < 0
  {
  }

  /** The number of bytes that the records seen take. */
  method Used(xb: array<Byte>, ghost recs: seq<Record>) returns (pos: nat)
    requires Scannable(xb[..], recs)
    ensures pos == |Enc(Seen(recs, xb.Length))|
  {
    hide Scannable, Enc, Signed4, Scanned, Seen;
    ghost var s, i, seen := xb[..], 0, Seen(recs, xb.Length);
    ScanStart(s, recs);
    ScannedIs(s, recs, 0, 0, Signed4(s[0..INT_SIZE]));
    pos := 0;
    var size := Signed4(xb[0..INT_SIZE]);
    assert xb[0..INT_SIZE] == s[0..INT_SIZE];
    while size > 0 && size < xb.Length && pos + size < xb.Length
      invariant Scanned(s, recs, i, pos, size) && i <= |seen|
      decreases |seen| - i
    {
      ScanStep(s, recs, i, pos, size);
      pos := pos + size;
      size := SizeAt(xb, pos);
      i := i + 1;
    }
    ScanStep(s, recs, i, pos, size);
    ScannedIs(s, recs, i, pos, size);
    assert recs[..i] == seen;
  }

  // ---------- Deleting ----------

  lemma {:induction false} EncConcat(a: seq<Record>, b: seq<Record>)
    ensures Enc(a + b) == Enc(a) + Enc(b)
  {
    hide Enc1;
    if b == [] {
      assert a + b == a;
    } else {
      var n := |b| - 1;
      EncConcat(a, b[..n]);
      assert (a + b)[..|a + b| - 1] == a + b[..n];
    }
  }

  lemma {:induction false} WithoutIs(recs: seq<Record>, name: Bytes, i: nat)
    requires Distinct(recs) && i < |recs| && recs[i].name == name
    ensures Without(recs, name) == recs[..i] + recs[i + 1..]
  {
    var n := |recs| - 1;
    if i == n {
      WithoutNone(recs[..n], name);
    } else {
      WithoutIs(recs[..n], name, i);
      assert recs[..n][..i] == recs[..i] && recs[..n][i + 1..] + [recs[n]] == recs[i + 1..];
    }
  }

  lemma {:induction false} WithoutNone(recs: seq<Record>, name: Bytes)
    requires forall j :: 0 <= j < |recs| ==> recs[j].name != name
    ensures Without(recs, name) == recs
  {
    if recs != [] { WithoutNone(recs[..|recs| - 1], name); }
  }

  /** Deleting a name removes it from the map, and nothing else. */
  lemma {:induction false} WithoutGet(recs: seq<Record>, name: Bytes, n: Bytes)
    ensures Get1(Without(recs, name), n) == if n == name then None else Get1(recs, n)
  {
    if recs != [] {
      var l := |recs| - 1;
      WithoutGet(recs[..l], name, n);
      if recs[l].name != name {
        GetMore(Without(recs[..l], name), recs[l], n);
      } else {
        assert Without(recs[..l], name) + [] == Without(recs[..l], name);
      }
    }
  }

  /** Adding a record adds its name to the map. */
  lemma GetMore(recs: seq<Record>, r: Record, n: Bytes)
    ensures Get1(recs + [r], n) == if n == r.name then Some(r.value) else Get1(recs, n)
  {
    assert (recs + [r])[..|recs|] == recs;
  }

  /** The buffer with `size` bytes from `pos` on taken out, and zeros at the end. */
  function Shifted(s: Bytes, pos: nat, size: nat): Bytes
    requires pos + size <= |s|
  {
    s[..pos] + s[pos + size..] + Zeros(size)
  }

  lemma ShiftedParts(s: Bytes, a: Bytes, b: Bytes, c: Bytes)
    requires a + b + c <= s
    ensures var t, used, n := Shifted(s, |a|, |b|), |a + b + c|, |a + c|;
            && |t| == |s| && n + |b| == used && t[..n] == a + c
            && (forall i :: used <= i < |s| ==> t[i - |b|] == s[i]) && (forall i :: |s| - |b| <= i < |s| ==> t[i] == 0)
  {
    var t := Shifted(s, |a|, |b|);
    assert s[..|a|] == a;
    assert s[|a| + |b|..][..|c|] == c;
    assert t[..|a + c|] == a + c;
  }

  /** What comes behind the records is still quiet once they have moved. */
  lemma QuietShifted(s: Bytes, t: Bytes, used: nat, n: nat)
    requires |t| == |s| && used <= |s| && n + INT_SIZE <= used && Quiet(s, used)
    requires forall i :: used <= i < |s| ==> t[i - (used - n)] == s[i]
    requires forall i :: |s| - (used - n) <= i < |s| ==> t[i] == 0
    ensures Quiet(t, n)
  {
    hide Signed4;
    var w := t[n..n + INT_SIZE];
    if used + INT_SIZE <= |s| {
      forall k | 0 <= k < INT_SIZE ensures w[k] == s[used..used + INT_SIZE][k] {
        assert t[used + k - (used - n)] == s[used + k];
      }
      assert w == s[used..used + INT_SIZE];
    } else {
      forall k | 0 <= k < INT_SIZE ensures w[k] == 0 {
        if used + k < |s| { assert t[used + k - (used - n)] == s[used + k]; }
      }
      assert w == Zeros(INT_SIZE);
      ZeroWord();
    }
  }

  lemma QuietEnds(xb: Bytes, used: nat)
    requires Quiet(xb, used)
    ensures Ends(xb, used)
  {
  }

  /** Taking a record out leaves the others; a hidden one is seen again then. */
  lemma DelHolds(s: Bytes, recs: seq<Record>, name: Bytes, i: nat)
    requires Holds(s, recs) && i < |recs| && recs[i].name == name
    ensures |Enc(recs[..i])| + Size(recs[i]) <= |s|
    ensures Holds(Shifted(s, |Enc(recs[..i])|, Size(recs[i])), Without(recs, name))
    ensures |Enc(Without(recs, name))| + Size(recs[i]) == |Enc(recs)|
  {
    hide Enc, Enc1, Signed4, Shifted, Quiet, Ends;
    var a, b, c := Enc(recs[..i]), Enc1(recs[i]), Enc(recs[i + 1..]);
    EncMore(recs, i);
    assert recs == recs[..i + 1] + recs[i + 1..];
    EncConcat(recs[..i + 1], recs[i + 1..]);
    EncConcat(recs[..i], recs[i + 1..]);
    WithoutIs(recs, name, i);
    ShiftedParts(s, a, b, c);
    QuietShifted(s, Shifted(s, |a|, |b|), |a + b + c|, |a + c|);
    QuietEnds(Shifted(s, |a|, |b|), |a + c|);
    var rest := recs[..i] + recs[i + 1..];
    assert forall j :: 0 <= j < |rest| ==> rest[j] == recs[if j < i then j else j + 1];
  }

  /** Moves the bytes behind those taken out, and fills up with zeros. */
  method ShiftDown(xb: array<Byte>, pos: nat, size: nat)
    requires pos + size <= xb.Length
    modifies xb
    ensures xb[..] == Shifted(old(xb[..]), pos, size)
  {
    forall k | pos <= k < xb.Length { xb[k] := if k + size < xb.Length then xb[k + size] else 0; }
  }

  /** Deletes the record of `name`, if the scan sees one. */
  method Del(xb: array<Byte>, name: Bytes, ghost recs: seq<Record>) returns (r: int)
    requires Holds(xb[..], recs) && NameOk(name)
    modifies xb
    ensures r == (if IndexOf(Seen(recs, xb.Length), name) < 0 then -ENODATA else 0)
    ensures if r == 0 then Holds(xb[..], Without(recs, name)) else xb[..] == old(xb[..])
  {
    hide Holds, Enc, Signed4, IndexOf, Shifted, Without, Seen;
    ghost var s, i := xb[..], IndexOf(Seen(recs, xb.Length), name);
    HoldsScans(s, recs);
    var pos, size := Find(xb, name, recs);
    if i >= 0 { InBuffer(s, recs, i); }
    if pos < 0 || pos >= xb.Length { return -ENODATA; }
    DelHolds(s, recs, name, i);
    ShiftDown(xb, pos, size);
    r := 0;
  }

  lemma HoldsScans(xb: Bytes, recs: seq<Record>)
    requires Holds(xb, recs)
    ensures Scannable(xb, recs)
  {
  }

  lemma InBuffer(xb: Bytes, recs: seq<Record>, i: nat)
    requires Scannable(xb, recs) && i < |recs|
    ensures |Enc(recs[..i])| < |xb|
  {
    Visible(xb, recs, i);
  }

  // ---------- Setting ----------

  /** `s` with `d` written from `at` on, so far as it goes into it. */
  function Stamped(s: Bytes, at: nat, d: Bytes): (r: Bytes)
    ensures |r| == |s| && forall i :: 0 <= i < |s| ==> r[i] == if at <= i < at + |d| then d[i - at] else s[i]
  {
    seq(|s|, i requires 0 <= i < |s| => if at <= i < at + |d| then d[i - at] else s[i])
  }

  /** Writes `d` from `at` on, so far as it goes into the buffer. */
  method Put(xb: array<Byte>, at: nat, d: Bytes)
    modifies xb
    ensures xb[..] == Stamped(old(xb[..]), at, d)
  {
    forall k | at <= k < at + |d| && k < xb.Length { xb[k] := d[k - at]; }
  }

  /** Size word, name padded with zeros to the size of the record, and value, written one after another. */
  lemma WrittenIs(s: Bytes, at: nat, r: Record)
    ensures var t1 := Stamped(s, at, Le4(Size(r)));
            var t2 := Stamped(t1, at + INT_SIZE, r.name + Zeros(Size(r) - |r.name|));
            Stamped(t2, at + INT_SIZE + |r.name| + 1, r.value) == Stamped(s, at, Enc1(r) + Zeros(INT_SIZE))
  {
    hide Le4, Stamped, Zeros;
    var t1 := Stamped(s, at, Le4(Size(r)));
    var t2 := Stamped(t1, at + INT_SIZE, r.name + Zeros(Size(r) - |r.name|));
    var t3 := Stamped(t2, at + INT_SIZE + |r.name| + 1, r.value);
    var t := Stamped(s, at, Enc1(r) + Zeros(INT_SIZE));
    forall i | 0 <= i < |s| ensures t3[i] == t[i] { }
  }

  /** What has been written is there, and so is what was before it. */
  lemma WrittenParts(s: Bytes, at: nat, e: Bytes)
    requires at + |e| <= |s|
    ensures var t, n := Stamped(s, at, e + Zeros(INT_SIZE)), at + |e|;
            |t| == |s| && t[..n] == s[..at] + e && Quiet(t, n)
  {
    hide Signed4, Stamped, Zeros;
    var t, n := Stamped(s, at, e + Zeros(INT_SIZE)), at + |e|;
    assert t[..n] == s[..at] + e;
    if n + INT_SIZE <= |t| {
      assert t[n..n + INT_SIZE] == Zeros(INT_SIZE);
      ZeroWord();
    }
  }

  lemma AddHolds(s: Bytes, recs: seq<Record>, r: Record)
    requires INT_SIZE <= |s| < 0x8000_0000 && |Enc(recs)| + Size(r) <= |s| && s[..|Enc(recs)|] == Enc(recs)
    requires (forall i :: 0 <= i < |recs| ==> NameOk(recs[i].name)) && Distinct(recs)
    requires IndexOf(recs, r.name) < 0 && NameOk(r.name)
    ensures Holds(Stamped(s, |Enc(recs)|, Enc1(r) + Zeros(INT_SIZE)), recs + [r])
  {
    hide Enc, Enc1, Signed4, Stamped, Zeros;
    var recs' := recs + [r];
    assert recs'[..|recs|] == recs && recs'[..|recs| + 1] == recs';
    EncMore(recs', |recs|);
    WrittenParts(s, |Enc(recs)|, Enc1(r));
  }

  /** Of a record that ends outside the buffer there is what goes into it, and a scan stops before it. */
  lemma OverrunScans(s: Bytes, recs: seq<Record>, r: Record)
    requires INT_SIZE <= |s| < 0x8000_0000 && |Enc(recs)| <= |s| && s[..|Enc(recs)|] == Enc(recs)
    requires (forall i :: 0 <= i < |recs| ==> NameOk(recs[i].name)) && Distinct(recs)
    requires |Enc(recs)| + Size(r) > |s| && Size(r) < 0x8000_0000
    ensures var t := Stamped(s, |Enc(recs)|, Enc1(r) + Zeros(INT_SIZE));
            t == (Enc(recs) + Enc1(r))[..|s|] && Scannable(t, recs)
  {
    hide Enc, Enc1, Signed4, Stamped, Zeros;
    var t, used := Stamped(s, |Enc(recs)|, Enc1(r) + Zeros(INT_SIZE)), |Enc(recs)|;
    assert t[..used] == s[..used];
    if used + INT_SIZE <= |s| {
      SizeWord(r);
      assert t[used..used + INT_SIZE] == Enc1(r)[..INT_SIZE];
    }
  }

  lemma ZeroWord()
    ensures Signed4(Zeros(INT_SIZE)) == 0
  {
  }

  /** The flags with which a value is set. */
  datatype Flags = Flags(create: bool, replace: bool)

  /** The error, if any, with which setting a value fails; `n` is the size of the buffer. */
  function SetError(n: nat, recs: seq<Record>, r: Record, flags: Flags): int {
    var seen := Seen(recs, n);
    var i := IndexOf(seen, r.name);
    if flags.create && i >= 0 then -EEXIST
    else if flags.replace && i < 0 then -ENODATA
    else if |Enc(seen)| - (if i >= 0 then Size(seen[i]) else 0) + Size(r) > n then -ENOSPC
    else 0
  }

  /** Setting a value fails if the name has one and must not, if it has none and must, or if the record does not fit
      beside those of the other names; in this order, and not otherwise. */
  lemma SetErrorIs(n: nat, recs: seq<Record>, r: Record, flags: Flags)
    requires Distinct(recs)
    ensures var e, has := SetError(n, recs, r, flags), Get1(Seen(recs, n), r.name).Some?;
            var fits := |Enc(Without(Seen(recs, n), r.name))| + 4 + |r.name| + 1 + |r.value| <= n;
            && (e == -17 <==> flags.create && has)
            && (e == -61 <==> flags.replace && !has)
            && (e == -28 <==> !fits && (flags.create ==> !has) && (flags.replace ==> has))
            && e in {0, -17, -61, -28}
  {
    hide Enc, Without, IndexOf, Get1;
    var seen := Seen(recs, n);
    var i := IndexOf(seen, r.name);
    assert Distinct(seen);
    GetIs(seen, r.name);
    if i >= 0 { WithoutSize(seen, r.name, i); } else { WithoutNone(seen, r.name); }
  }

  /** The records behind which a new one goes.  One that replaces another goes behind a hidden one, which the deletion
      of the other has made to be seen; otherwise a hidden one is overwritten. */
  function Base(n: nat, recs: seq<Record>, name: Bytes): seq<Record> {
    if IndexOf(Seen(recs, n), name) >= 0 then Without(recs, name) else Seen(recs, n)
  }

  /** The records that there are when `r` has been set: without `r` if it does not go into the buffer. */
  function Kept(n: nat, recs: seq<Record>, r: Record): seq<Record> {
    var base := Base(n, recs, r.name);
    if |Enc(base)| + Size(r) <= n then base + [r] else base
  }

  /** A record that is accepted ends outside the buffer exactly if it replaces a shorter one, and a hidden record
      fills the buffer to the last byte: the hidden one is not counted, but comes back. */
  lemma OverrunIff(n: nat, recs: seq<Record>, r: Record, flags: Flags)
    requires Distinct(recs) && |Enc(recs)| <= n && SetError(n, recs, r, flags) == 0
    ensures var i := IndexOf(Seen(recs, n), r.name);
            |Enc(Base(n, recs, r.name))| + Size(r) > n <==>
              i >= 0 && |Enc(recs)| == n && Size(r) > Size(recs[i])
  {
    hide Enc, Without, IndexOf;
    var i := IndexOf(Seen(recs, n), r.name);
    if i >= 0 { WithoutSize(recs, r.name, i); }
  }

  lemma WithoutSize(recs: seq<Record>, name: Bytes, i: nat)
    requires Distinct(recs) && i < |recs| && recs[i].name == name
    ensures |Enc(Without(recs, name))| + Size(recs[i]) == |Enc(recs)|
  {
    hide Enc, Enc1, Without;
    EncMore(recs, i);
    assert recs == recs[..i + 1] + recs[i + 1..];
    EncConcat(recs[..i + 1], recs[i + 1..]);
    EncConcat(recs[..i], recs[i + 1..]);
    WithoutIs(recs, name, i);
  }

  /** Sets the value of a name: the record goes behind the others, with four zeros behind it.  `over` tells how many
      bytes are written outside the buffer; the record itself does not go into it if there are more than four. */
  method Set(xb: array<Byte>, name: Bytes, buf: Bytes, flags: Flags, ghost recs: seq<Record>)
    returns (r: int, over: nat)
    requires Holds(xb[..], recs) && NameOk(name)
    modifies xb
    ensures r == SetError(xb.Length, recs, Record(name, buf), flags)
    ensures r != 0 ==> xb[..] == old(xb[..]) && over == 0
    ensures r == 0 ==>
              var base, rec := Base(xb.Length, recs, name), Record(name, buf);
              var end := |Enc(base)| + Size(rec);
              && over == Max(0, end + INT_SIZE - xb.Length)
              && (end <= xb.Length ==> Holds(xb[..], base + [rec]))
              && (end > xb.Length ==> xb[..] == (Enc(base) + Enc1(rec))[..xb.Length])
              && Scannable(xb[..], Kept(xb.Length, recs, rec))
  {
    hide Scannable, Holds, Enc, Enc1, Signed4, IndexOf, Without, Seen;
    ghost var s, n := xb[..], xb.Length;
    HoldsScans(s, recs);
    var nameLen := if |name| <= xb.Length then |name| else xb.Length;
    var pos, sizeExist := Find(xb, name, recs);
    if flags.create && pos >= 0 { return -EEXIST, 0; }
    if flags.replace && pos < 0 { return -ENODATA, 0; }
    var start := Used(xb, recs);
    var space := xb.Length - start + sizeExist;
    var recLen := INT_SIZE + nameLen + 1 + |buf|;
    SpaceIs(s, recs, name);
    if recLen > space { return -ENOSPC, 0; }
    BaseIs(s, recs, name);
    if pos >= 0 {
      var _ := Del(xb, name, recs);
      AllSeen(xb[..], Without(recs, name), |Enc(recs)|);
      HoldsScans(xb[..], Without(recs, name));
      start := Used(xb, Without(recs, name));
      HoldsIs(xb[..], Without(recs, name));
      WithoutLacks(recs, name);
    }
    var rec := Record(name, buf);
    over := Append(xb, start, name, buf, Base(n, recs, name));
    if start + Size(rec) <= n { HoldsScans(xb[..], Base(n, recs, name) + [rec]); }
    r := 0;
  }

  /** Without a record that was seen there is none that is hidden. */
  lemma AllSeen(xb: Bytes, recs: seq<Record>, used: nat)
    requires |Enc(recs)| < used <= |xb|
    ensures Seen(recs, |xb|) == recs
  {
  }

  lemma HoldsIs(xb: Bytes, recs: seq<Record>)
    requires Holds(xb, recs)
    ensures INT_SIZE <= |xb| < 0x8000_0000 && |Enc(recs)| <= |xb| && xb[..|Enc(recs)|] == Enc(recs)
    ensures (forall i :: 0 <= i < |recs| ==> NameOk(recs[i].name)) && Distinct(recs)
  {
  }

  /** What the buffer starts with if nothing has to be deleted. */
  lemma BaseIs(s: Bytes, recs: seq<Record>, name: Bytes)
    requires Holds(s, recs)
    ensures var b := Seen(recs, |s|); INT_SIZE <= |s| < 0x8000_0000 && |Enc(b)| <= |s| && s[..|Enc(b)|] == Enc(b)
    ensures var b := Seen(recs, |s|); (forall i :: 0 <= i < |b| ==> NameOk(b[i].name)) && Distinct(b)
    ensures var i := IndexOf(Seen(recs, |s|), name); i >= 0 ==> |Enc(Without(recs, name))| < |Enc(recs)| <= |s|
  {
    hide Enc1, Signed4, Quiet;
    var b := Seen(recs, |s|);
    EncPrefix(recs, |b|);
    assert recs[..|b|] == b;
    assert s[..|Enc(b)|] == s[..|Enc(recs)|][..|Enc(b)|];
    var i := IndexOf(b, name);
    if i >= 0 { WithoutSize(recs, name, i); }
  }

  lemma SpaceIs(s: Bytes, recs: seq<Record>, name: Bytes)
    requires Holds(s, recs)
    ensures var seen := Seen(recs, |s|); var i := IndexOf(seen, name);
            |Enc(seen)| <= |s| && (i >= 0 ==> seen[i] == recs[i] && Size(recs[i]) <= |Enc(seen)|)
  {
    hide Enc1, Quiet;
    var seen := Seen(recs, |s|);
    EncPrefix(recs, |seen|);
    assert recs[..|seen|] == seen;
    var i := IndexOf(seen, name);
    if i >= 0 {
      EncMore(seen, i);
      EncPrefix(seen, i + 1);
    }
  }

  /** Writes a record behind the others.  Only what goes into the buffer is kept; `over` is what does not. */
  method Append(xb: array<Byte>, start: nat, name: Bytes, buf: Bytes, ghost recs: seq<Record>) returns (over: nat)
    requires INT_SIZE <= xb.Length < 0x8000_0000 && start == |Enc(recs)| <= xb.Length
    requires Size(Record(name, buf)) < 0x8000_0000
    requires xb[..start] == Enc(recs) && NameOk(name) && IndexOf(recs, name) < 0
    requires (forall i :: 0 <= i < |recs| ==> NameOk(recs[i].name)) && Distinct(recs)
    modifies xb
    ensures var r := Record(name, buf);
            var end := start + Size(r);
            && over == Max(0, end + INT_SIZE - xb.Length)
            && (end <= xb.Length ==> Holds(xb[..], recs + [r]))
            && (end > xb.Length ==> xb[..] == (Enc(recs) + Enc1(r))[..xb.Length] && Scannable(xb[..], recs))
  {
    hide Holds, Scannable, Enc, Enc1, Signed4, IndexOf, Stamped;
    ghost var s, r := xb[..], Record(name, buf);
    assert s[..start] == xb[..start];
    WrittenIs(s, start, r);
    if start + Size(r) <= xb.Length { AddHolds(s, recs, r); } else { OverrunScans(s, recs, r); }
    var recLen := INT_SIZE + |name| + 1 + |buf|;
    Put(xb, start, Le4(recLen));
    Put(xb, start + INT_SIZE, name + Zeros(recLen - |name|));
    Put(xb, start + INT_SIZE + |name| + 1, buf);
    over := Max(0, start + INT_SIZE + recLen - xb.Length);
  }

  lemma {:induction false} WithoutLacks(recs: seq<Record>, name: Bytes)
    ensures IndexOf(Without(recs, name), name) < 0
  {
    if recs != [] {
      var l := |recs| - 1;
      WithoutLacks(recs[..l], name);
      var w := Without(recs[..l], name);
      if recs[l].name != name { assert (w + [recs[l]])[..|w|] == w; } else { assert w + [] == w; }
    }
  }

  // ---------- Getting ----------

  lemma {:induction false} GetIs(recs: seq<Record>, name: Bytes)
    ensures var i := IndexOf(recs, name); Get1(recs, name) == if i < 0 then None else Some(recs[i].value)
  {
    if recs != [] { GetIs(recs[..|recs| - 1], name); }
  }

  lemma SliceOfSlice(s: Bytes, lo: nat, hi: nat, a: nat, b: nat)
    requires lo <= hi <= |s| && a <= b <= hi - lo
    ensures s[lo..hi][a..b] == s[lo + a..lo + b] && (b < hi - lo ==> s[lo..hi][b] == s[lo + b])
  {
    var t, u := s[lo..hi][a..b], s[lo + a..lo + b];
    assert |t| == |u| && forall k :: 0 <= k < |t| ==> t[k] == u[k];
    assert t == u;
  }

  lemma Enc1Parts(r: Record)
    ensures var e, n := Enc1(r), INT_SIZE + |r.name|; e[INT_SIZE..n] == r.name && e[n] == 0 && e[n + 1..] == r.value
  {
    hide Le4;
    var e, n := Enc1(r), INT_SIZE + |r.name|;
    assert e[..n] == Le4(Size(r)) + r.name;
    assert e[INT_SIZE..n] == e[..n][INT_SIZE..] == r.name;
    assert e[n..] == [0] + r.value;
    assert e[n] == e[n..][0];
    assert e[n + 1..] == e[n..][1..] == r.value;
  }

  /** Where name and value of record `i` are. */
  lemma RecordParts(xb: Bytes, recs: seq<Record>, i: nat)
    requires Scannable(xb, recs) && i < |recs|
    ensures var at, r := |Enc(recs[..i])| + INT_SIZE, recs[i];
            var v := at + |r.name| + 1;
            && v + |r.value| <= |xb| && xb[at..v - 1] == r.name && NameOk(r.name)
            && xb[v - 1] == 0 && xb[v..v + |r.value|] == r.value && Signed4(xb[at - INT_SIZE..at]) == Size(r)
  {
    hide Enc, Enc1, Signed4, NameOk, Ends, Seen, Scannable;
    var pos, r := |Enc(recs[..i])|, recs[i];
    Visible(xb, recs, i);
    ScannableNames(xb, recs, i);
    Enc1Parts(r);
    var e, n := xb[pos..pos + Size(r)], INT_SIZE + |r.name|;
    SliceOfSlice(xb, pos, pos + Size(r), INT_SIZE, n);
    SliceOfSlice(xb, pos, pos + Size(r), n + 1, Size(r));
    assert e[n + 1..Size(r)] == e[n + 1..];
  }

  /** Reads the value of a name into a buffer of `bsize` bytes; with `bsize` zero only its size is asked for. */
  method Get(xb: array<Byte>, name: Bytes, bsize: nat, ghost recs: seq<Record>) returns (r: int, buf: Bytes)
    requires Scannable(xb[..], recs) && NameOk(name)
    ensures match Get1(Seen(recs, xb.Length), name)
            case None => r == -ENODATA && buf == []
            case Some(v) => if 0 < bsize < |v| then r == -ERANGE && buf == []
              else r == |v| && buf == if bsize == 0 then [] else v
  {
    hide Scannable, Enc, Signed4, IndexOf, Get1, Seen;
    ghost var s, i := xb[..], IndexOf(Seen(recs, xb.Length), name);
    GetIs(Seen(recs, xb.Length), name);
    buf := [];
    var pos, size := Find(xb, name, recs);
    if i >= 0 { RecordParts(s, recs, i); }
    if pos >= 0 && pos < xb.Length {
      size := Signed4(xb[pos..pos + INT_SIZE]);
      assert xb[pos..pos + INT_SIZE] == s[pos..pos + INT_SIZE];
      pos := pos + INT_SIZE;
      size := size - INT_SIZE;
      ghost var at, name0 := pos, recs[i].name;
      forall k | at <= k < at + |name0| ensures s[k] != 0 { assert s[k] == s[at..at + |name0|][k - at]; }
      while pos < xb.Length && xb[pos] != 0 && size > 0
        invariant at <= pos <= at + |name0| && size == |name0| + 1 + |recs[i].value| - (pos - at)
        decreases xb.Length - pos
      {
        pos := pos + 1;
        size := size - 1;
      }
      pos := pos + 1;
      size := size - 1;
      if bsize == 0 { return size, buf; }
      if size <= bsize {
        buf := xb[pos..pos + size];
        assert buf == s[pos..pos + size];
        return size, buf;
      }
    }
    if pos >= 0 { return -ERANGE, buf; }
    return -ENODATA, buf;
  }

  /** A buffer of zeros holds no records. */
  lemma EmptyBuffer(n: nat)
    requires INT_SIZE <= n < 0x8000_0000
    ensures Holds(Zeros(n), [])
  {
    assert Zeros(n)[0..INT_SIZE] == Zeros(INT_SIZE);
    ZeroWord();
  }

  /** A record that was set is found again exactly if it ends before the end of the buffer.  The other names keep their
      values; a hidden record is seen again if the new one replaces another, and is lost otherwise. */
  lemma SetGets(n: nat, recs: seq<Record>, r: Record, flags: Flags, m: Bytes)
    requires Distinct(recs) && |Enc(recs)| <= n && SetError(n, recs, r, flags) == 0
    ensures Get1(Seen(Kept(n, recs, r), n), m) ==
            if m == r.name then (if |Enc(Base(n, recs, r.name))| + Size(r) < n then Some(r.value) else None)
            else if IndexOf(Seen(recs, n), r.name) >= 0 then Get1(recs, m) else Get1(Seen(recs, n), m)
  {
    hide Enc, Enc1, Without, IndexOf, Get1;
    var b, i := Base(n, recs, r.name), IndexOf(Seen(recs, n), r.name);
    OverrunIff(n, recs, r, flags);
    GetMore(b, r, m);
    WithoutGet(recs, r.name, m);
    assert (b + [r])[..|b|] == b;
    EncAfter(b, r);
    GetIs(Seen(recs, n), r.name);
    if i >= 0 { WithoutSize(recs, r.name, i); }
  }

  /** When a record that was seen is deleted, its name is gone, and a hidden one is seen again. */
  lemma DelGets(n: nat, recs: seq<Record>, name: Bytes, m: Bytes)
    requires |Enc(recs)| <= n && Distinct(recs) && IndexOf(Seen(recs, n), name) >= 0
    ensures Get1(Seen(Without(recs, name), n), m) == if m == name then None else Get1(recs, m)
  {
    hide Enc;
    var i := IndexOf(Seen(recs, n), name);
    WithoutGet(recs, name, m);
    WithoutIs(recs, name, i);
    EncMore(recs, i);
    assert recs == recs[..i + 1] + recs[i + 1..];
    EncConcat(recs[..i + 1], recs[i + 1..]);
    EncConcat(recs[..i], recs[i + 1..]);
  }

  /** A record that fills the buffer to the last byte is set with success, and is not there. */
  method SetAndGone() returns (stored: int, got: int)
    ensures stored == 0 && got == -ENODATA
  {
    var xb := new Byte[8](_ => 0);
    EmptyBuffer(8);
    assert xb[..] == Zeros(8);
    var r := Record([97], [1, 2]);
    EncAfter([], r);
    assert [] + [r] == [r];
    var over;
    stored, over := Set(xb, [97], [1, 2], Flags(false, false), []);
    var buf;
    HoldsScans(xb[..], [r]);
    got, buf := Get(xb, [97], 0, [r]);
  }

  lemma EncOfOne(r: Record)
    ensures Enc([]) == [] && |Enc([r])| == Size(r)
  {
    hide Enc1;
    EncAfter([], r);
    assert [] + [r] == [r];
  }

  lemma EncOfTwo(a: Record, b: Record)
    ensures |Enc([a, b])| == Size(a) + Size(b)
  {
    hide Enc, Enc1;
    EncOfOne(a);
    EncAfter([a], b);
    assert [a] + [b] == [a, b];
  }

  lemma IndexOfOne(r: Record, name: Bytes)
    ensures IndexOf([], name) == -1 && IndexOf([r], name) == if r.name == name then 0 else -1
  {
  }

  lemma WithoutFirst(a: Record, b: Record)
    requires a.name != b.name
    ensures Without([a, b], a.name) == [b]
  {
    hide Without;
    WithoutIs([a, b], a.name, 0);
    assert [a, b][..0] + [a, b][1..] == [b];
  }

  lemma BeyondBases(a: Record, b: Record, c: Record)
    requires Size(a) == 7 && Size(b) == 9 && Size(c) == 8 && a.name == c.name != b.name
    ensures Base(16, [], a.name) == [] && SetError(16, [], a, Flags(false, false)) == 0
    ensures Base(16, [a], b.name) == [a] && SetError(16, [a], b, Flags(false, false)) == 0
    ensures Base(16, [a, b], c.name) == [b] && SetError(16, [a, b], c, Flags(false, false)) == 0
    ensures Enc([]) == [] && |Enc([a])| == 7 && |Enc([b])| == 9 && Seen([b], 16) == [b]
  {
    hide Enc, IndexOf, Without, Size;
    EncOfOne(a);
    EncOfOne(b);
    EncOfTwo(a, b);
    IndexOfOne(a, a.name);
    IndexOfOne(a, b.name);
    WithoutFirst(a, b);
    assert [a, b][..1] == [a];
  }

  /** In 16 bytes, a second record that fills the buffer is hidden, and then the first one is replaced by a longer one.
      That is accepted, one byte of the record is written outside the buffer besides the four zeros, and the
      first name has no value any more; the second one is seen again. */
  method SetBeyond() returns (stored: int, over: nat, first: int, second: int)
    ensures stored == 0 && over == 5 && first == -ENODATA && second == 3
  {
    hide Holds, Scannable, Enc, Enc1, Base, SetError, Seen;
    var xb := new Byte[16](_ => 0);
    EmptyBuffer(16);
    assert xb[..] == Zeros(16);
    ghost var a, b, c := Record([97], [1]), Record([98], [1, 2, 3]), Record([97], [1, 2]);
    BeyondBases(a, b, c);
    assert [] + [a] == [a] && [a] + [b] == [a, b];
    stored, over := Set(xb, [97], [1], Flags(false, false), []);
    stored, over := Set(xb, [98], [1, 2, 3], Flags(false, false), [a]);
    stored, over := Set(xb, [97], [1, 2], Flags(false, false), [a, b]);
    var buf;
    first, buf := Get(xb, [97], 0, [b]);
    second, buf := Get(xb, [98], 0, [b]);
  }
}
