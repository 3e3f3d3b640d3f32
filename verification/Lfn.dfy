/** Long file names in directory entries: what put_lfn writes, dir_read and pick_lfn read. */
module Lfn {
  import opened Bytes

  type Wchar = w: nat | w < 0x10000

  const MAX_LFN: nat := 255
  const LLEF: nat := 0x40
  const AM_LFN: byte := 0x0F
  const FILLER: Wchar := 0xFFFF

  /** Offset of character s in an entry. */
  function Ofs(s: nat): nat {
    if s < 5 then 1 + 2 * s else if s < 11 then 14 + 2 * (s - 5) else 28 + 2 * (s - 11)
  }

  function Word(d: seq<byte>, i: nat): Wchar
    requires i + 1 < |d|
  {
    d[i] as nat + 0x100 * d[i + 1] as nat
  }

  type DirEntry = d: seq<byte> | |d| == 32 witness seq(32, i => 0)

  /** A name that can be stored: 1 to 255 units, none of them the terminator or the filler. */
  predicate Storable(name: seq<Wchar>) {
    1 <= |name| <= MAX_LFN && forall i :: 0 <= i < |name| ==> name[i] != 0 && name[i] != FILLER
  }

  /** The working buffer holds the name and its terminator. */
  predicate Holds(buf: seq<Wchar>, name: seq<Wchar>) {
    |name| < |buf| && buf[..|name|] == name && buf[|name|] == 0
  }

  function Parts(name: seq<Wchar>): nat {
    (|name| + 12) / 13
  }

  /** Unit i of a name that is terminated and filled up. */
  function Padded(name: seq<Wchar>, i: nat): Wchar {
    if i < |name| then name[i] else if i == |name| then 0 else FILLER
  }

  /** The order byte: the last part carries the flag. */
  function OrdByte(name: seq<Wchar>, ord: nat): nat {
    if ord == Parts(name) then ord + LLEF else ord
  }

  /** d is the entry for part ord of the name; every byte of it is determined. */
  ghost predicate IsPart(d: DirEntry, name: seq<Wchar>, ord: nat, sum: byte) {
    && 1 <= ord && d[0] as nat == OrdByte(name, ord) && d[11] == AM_LFN && d[12] == 0 && d[13] == sum && d[26] == 0
        && d[27] == 0
    && forall s: nat :: s < 13 ==> Word(d, Ofs(s)) == Padded(name, 13 * (ord - 1) + s)
  }

  /** The places of a part's units and the other bytes of its entry. */
  lemma PartBytes(d: DirEntry, name: seq<Wchar>, ord: nat, sum: byte)
    requires IsPart(d, name, ord, sum)
    ensures d[0] as nat == (if 13 * ord < |name| then ord else if 13 * ord < |name| + 13 then 0x40 + ord else ord)
    ensures d[11] == 0x0F && d[12] == 0 && d[13] == sum && d[26] == 0 && d[27] == 0
    ensures var p := [1, 3, 5, 7, 9, 14, 16, 18, 20, 22, 24, 28, 30];
      forall s: nat :: s < 13 ==>
        d[p[s]] as nat + 256 * d[p[s] + 1] as nat
        == (var i := 13 * (ord - 1) + s; if i < |name| then name[i] else if i == |name| then 0 else 0xFFFF)
  {
    forall s: nat | s < 13 ensures Ofs(s) == [1, 3, 5, 7, 9, 14, 16, 18, 20, 22, 24, 28, 30][s] {
    }
    forall s: nat | s < 13 ensures Word(d, Ofs(s)) == Padded(name, 13 * (ord - 1) + s) {
    }
  }

  function Low(w: Wchar): byte { (w % 0x100) as byte }

  function High(w: Wchar): byte { (w / 0x100) as byte }

  /** The characters of a part are in place up to s. */
  ghost predicate Written(d: seq<byte>, name: seq<Wchar>, base: nat, s: nat) {
    |d| == 32 && forall t: nat :: t < s <= 13 ==> Word(d, Ofs(t)) == Padded(name, base + t)
  }

  lemma WrittenNext(d: seq<byte>, name: seq<Wchar>, base: nat, s: nat, wc: Wchar)
    requires Written(d, name, base, s) && s < 13 && wc == Padded(name, base + s)
    ensures Written(d[Ofs(s) := Low(wc)][Ofs(s) + 1 := High(wc)], name, base, s + 1)
  {
    hide Padded;
    var d' := d[Ofs(s) := Low(wc)][Ofs(s) + 1 := High(wc)];
    forall t: nat | t < s + 1 ensures Word(d', Ofs(t)) == Padded(name, base + t) {
      if t < s {
        assert Ofs(t) + 1 < Ofs(s);
      }
    }
  }

  /** The loop of put_lfn: the next index in the buffer and the last unit put. */
  method PutUnits(lfn: array<Wchar>, dir: array<byte>, base: nat, ghost name: seq<Wchar>) returns (i: nat, wc: Wchar)
    requires dir.Length == 32 && Storable(name) && Holds(lfn[..], name) && base < |name|
    modifies dir
    ensures Written(dir[..], name, base, 13)
    ensures forall k :: k == 0 || k == 11 || k == 12 || k == 13 || k == 26 || k == 27 ==> dir[k] == old(dir[k])
    ensures if base + 13 <= |name| then i == base + 13 && wc == name[base + 12] else wc == FILLER
  {
    hide Written, Low, High;
    i := base;
    var s := 0;
    wc := 0;
    WrittenNone(dir[..], name, base);
    while s < 13
      invariant s <= 13 && Written(dir[..], name, base, s)
      invariant i == if base + s <= |name| then base + s else |name| + 1
      invariant s > 0 ==> wc == (if base + s - 1 < |name| then name[base + s - 1] else FILLER)
      invariant s == 0 ==> wc == 0
      invariant forall k :: k == 0 || k == 11 || k == 12 || k == 13 || k == 26 || k == 27 ==> dir[k] == old(dir[k])
    {
      if wc != FILLER {
        wc := lfn[i];
        i := i + 1;
      }
      WrittenNext(dir[..], name, base, s, wc);
      ghost var d := dir[..];
      dir[Ofs(s)] := Low(wc);
      dir[Ofs(s) + 1] := High(wc);
      assert dir[..] == d[Ofs(s) := Low(wc)][Ofs(s) + 1 := High(wc)];
      if wc == 0 {
        wc := FILLER;
      }
      s := s + 1;
    }
  }

  lemma WrittenNone(d: seq<byte>, name: seq<Wchar>, base: nat)
    requires |d| == 32
    ensures Written(d, name, base, 0)
  {
  }

  method PutLfn(lfn: array<Wchar>, dir: array<byte>, ord: nat, sum: byte, ghost name: seq<Wchar>)
    requires dir.Length == 32 && Storable(name) && Holds(lfn[..], name) && 1 <= ord <= Parts(name)
    modifies dir
    ensures IsPart(dir[..], name, ord, sum)
  {
    hide Padded;
    dir[13] := sum;
    dir[11] := AM_LFN;
    dir[12] := 0;
    dir[26], dir[27] := 0, 0;
    var i, wc := PutUnits(lfn, dir, (ord - 1) * 13, name);
    var flagged := ord;
    if wc == FILLER || lfn[i] == 0 {
      flagged := ord + LLEF;
    }
    ghost var d := dir[..];
    dir[0] := flagged as byte;
    forall s: nat | s < 13 ensures Word(dir[..], Ofs(s)) == Padded(name, 13 * (ord - 1) + s) {
      assert Word(d, Ofs(s)) == Padded(name, (ord - 1) * 13 + s);
    }
  }

  lemma HeldUnit(buf: seq<Wchar>, name: seq<Wchar>, i: nat)
    requires Storable(name) && Holds(buf, name) && i <= |name|
    ensures buf[i] == Padded(name, i) && (buf[i] == 0 <==> i == |name|)
  {
    assert i < |name| ==> buf[..|name|][i] == name[i];
  }

  /** dir_register's loop: the entries in the order they are stored, last part first. */
  method StoreName(lfn: array<Wchar>, sum: byte, ghost name: seq<Wchar>) returns (entries: seq<DirEntry>)
    requires Storable(name) && Holds(lfn[..], name)
    ensures IsStored(entries, name, sum)
  {
    var len := 0;
    while lfn[len] != 0
      invariant len <= |name|
      decreases |name| - len
    {
      assert lfn[..][..|name|][len] == name[len];
      len := len + 1;
    }
    HeldUnit(lfn[..], name, len);
    var ord := (len + 12) / 13;
    entries := [];
    while ord > 0
      invariant 0 <= ord <= Parts(name) && |entries| == Parts(name) - ord
      invariant forall k :: 0 <= k < |entries| ==> IsPart(entries[k], name, Parts(name) - k, sum)
    {
      var dir := new byte[32](i => 0);
      PutLfn(lfn, dir, ord, sum, name);
      entries := entries + [dir[..]];
      ord := ord - 1;
    }
  }

  ghost predicate IsStored(entries: seq<DirEntry>, name: seq<Wchar>, sum: byte) {
    |entries| == Parts(name) && forall k :: 0 <= k < |entries| ==> IsPart(entries[k], name, Parts(name) - k, sum)
  }

  // ---- reading

  datatype Picked = Picked(ok: bool, buf: seq<Wchar>)

  /** Is the last-part flag set? */
  predicate IsLast(b: byte) {
    b as nat / LLEF % 2 == 1
  }

  function Unflagged(b: byte): (o: nat)
    ensures o < 0x100
  {
    if IsLast(b) then b as nat - LLEF else b as nat
  }

  /** pick_lfn from character s on, with wc the previous unit and i the next index. */
  function PickFrom(buf: seq<Wchar>, d: DirEntry, i: nat, wc: Wchar, s: nat): (r: Picked)
    requires s <= 13 && |buf| == MAX_LFN + 1
    ensures |r.buf| == |buf|
    decreases 13 - s
  {
    if s == 13 then
      if IsLast(d[0]) && wc != 0 then
        if i >= MAX_LFN + 1 then Picked(false, buf) else Picked(true, buf[i := 0])
      else Picked(true, buf)
    else
      var uc := Word(d, Ofs(s));
      if wc != 0 then
        if i >= MAX_LFN + 1 then Picked(false, buf) else PickFrom(buf[i := uc], d, i + 1, uc, s + 1)
      else if uc != FILLER then Picked(false, buf)
      else PickFrom(buf, d, i, wc, s + 1)
  }

  function Pick(buf: seq<Wchar>, d: DirEntry): (r: Picked)
    requires |buf| == MAX_LFN + 1
    ensures |r.buf| == |buf|
  {
    if Word(d, 26) != 0 then Picked(false, buf)
    else PickFrom(buf, d, (Unflagged(d[0]) - 1) * 13 % 0x1_0000_0000, 1, 0)
  }

  method PickLfn(lfnbuf: array<Wchar>, d: DirEntry) returns (ok: bool)
    requires lfnbuf.Length == MAX_LFN + 1
    modifies lfnbuf
    ensures Picked(ok, lfnbuf[..]) == Pick(old(lfnbuf[..]), d)
  {
    if Word(d, 26) != 0 {
      return false;
    }
    var i := (Unflagged(d[0]) - 1) * 13 % 0x1_0000_0000;
    var s, wc := 0, 1;
    while s < 13
      invariant s <= 13 && i >= 0 && wc < 0x10000 && wc >= 0
      invariant PickFrom(lfnbuf[..], d, i, wc, s) == Pick(old(lfnbuf[..]), d)
    {
      var uc := Word(d, Ofs(s));
      if wc != 0 {
        if i >= MAX_LFN + 1 {
          return false;
        }
        ghost var b := lfnbuf[..];
        lfnbuf[i] := uc;
        assert lfnbuf[..] == b[i := uc];
        wc := uc;
        i := i + 1;
      } else if uc != FILLER {
        return false;
      }
      s := s + 1;
    }
    if IsLast(d[0]) && wc != 0 {
      if i >= MAX_LFN + 1 {
        return false;
      }
      ghost var b := lfnbuf[..];
      lfnbuf[i] := 0;
      assert lfnbuf[..] == b[i := 0];
    }
    ok := true;
  }

  // ---- a stored part is read back

  /** The buffer holds the name and its terminator from index k on. */
  ghost predicate HoldsFrom(buf: seq<Wchar>, name: seq<Wchar>, k: nat) {
    |name| < |buf| && forall j: nat :: k <= j <= |name| ==> buf[j] == Padded(name, j)
  }

  /** As HoldsFrom, or nothing has been read yet. */
  ghost predicate ReadTo(buf: seq<Wchar>, name: seq<Wchar>, base: nat, i: nat) {
    && |name| < |buf| == MAX_LFN + 1
    && (forall j: nat :: base <= j < i && j <= |name| ==> buf[j] == Padded(name, j))
    && (forall j: nat :: base + 13 <= j <= |name| && base + 13 < |name| ==> buf[j] == Padded(name, j))
  }

  lemma {:induction false} PickPart(buf: seq<Wchar>, d: DirEntry, name: seq<Wchar>, ord: nat, sum: byte, s: nat,
      i: nat, wc: Wchar)
    requires Storable(name) && IsPart(d, name, ord, sum) && ord <= Parts(name) && s <= 13
    requires var base := 13 * (ord - 1);
      && ReadTo(buf, name, base, i) && i == (if base + s <= |name| then base + s else |name| + 1)
      && (wc == 0 <==> base + s > |name|)
    ensures var r := PickFrom(buf, d, i, wc, s); r.ok && HoldsFrom(r.buf, name, 13 * (ord - 1))
    decreases 13 - s
  {
    var base := 13 * (ord - 1);
    PartFlag(d, name, ord, sum);
    if s < 13 {
      var uc := Word(d, Ofs(s));
      assert uc == Padded(name, base + s);
      if wc != 0 {
        PickPart(buf[i := uc], d, name, ord, sum, s + 1, i + 1, uc);
      } else {
        PickPart(buf, d, name, ord, sum, s + 1, i, wc);
      }
    }
  }

  lemma PartFlag(d: DirEntry, name: seq<Wchar>, ord: nat, sum: byte)
    requires Storable(name) && IsPart(d, name, ord, sum) && ord <= Parts(name)
    ensures Unflagged(d[0]) == ord && (IsLast(d[0]) <==> ord == Parts(name))
    ensures 13 * (ord - 1) < |name| && (ord == Parts(name) <==> 13 * (ord - 1) + 13 >= |name|) && ord <= 20
  {
  }

  // ---- dir_read

  /** The checksum that ties long name entries to their short name entry. */
  function SumFrom(d: DirEntry, sum: nat, k: nat): (r: nat)
    requires k <= 11 && sum < 0x100
    ensures r < 0x100
    decreases 11 - k
  {
    if k == 11 then sum else SumFrom(d, (sum / 2 + sum * 0x80 + d[k] as nat) % 0x100, k + 1)
  }

  function SumSfn(d: DirEntry): (r: nat)
    ensures r < 0x100
  {
    SumFrom(d, 0, 0)
  }

  /** Each step rotates the sum to the right by one bit and adds a byte, modulo 256. */
  lemma SumStep(d: DirEntry, sum: nat, k: nat)
    requires k < 11 && sum < 0x100
    ensures var rotated := sum / 2 + 128 * (sum % 2);
      SumFrom(d, sum, k) == SumFrom(d, (rotated + d[k] as nat) % 256, k + 1)
  {
    RotateAdd(sum, d[k] as nat);
  }

  lemma RotateAdd(x: nat, b: nat)
    ensures (x / 2 + x * 0x80 + b) % 0x100 == (x / 2 + 128 * (x % 2) + b) % 256
  {
    var q, r := x / 2, x % 2;
    assert x / 2 + x * 0x80 + b == q + 128 * r + b + 256 * q;
  }

  method ComputeSum(d: DirEntry) returns (sum: nat)
    ensures sum == SumSfn(d)
  {
    sum := 0;
    var k := 0;
    while k < 11
      invariant k <= 11 && sum < 0x100 && SumFrom(d, sum, k) == SumSfn(d)
    {
      sum := (sum / 2 + sum * 0x80 + d[k] as nat) % 0x100;
      k := k + 1;
    }
  }

  datatype Found = Missing | Found(index: nat, named: bool, buf: seq<Wchar>)

  function Attr(d: DirEntry): nat {
    d[11] as nat % 0x40
  }

  /** Deleted, a dot entry, or a volume label. */
  predicate Skipped(d: DirEntry) {
    d[0] == 0xE5 || d[0] == 0x2E || Attr(d) % 0x20 == 0x08
  }

  predicate IsShort(d: DirEntry) {
    d[0] != 0 && !Skipped(d) && Attr(d) != 0x0F
  }

  /** The expected order after a long name entry, 0xFF when the sequence is broken. */
  function NextOrd(d: DirEntry, ord: nat, sum: nat, buf: seq<Wchar>): nat
    requires |buf| == MAX_LFN + 1
  {
    var ord' := if IsLast(d[0]) then Unflagged(d[0]) else ord;
    var sum' := if IsLast(d[0]) then d[13] as nat else sum;
    if Unflagged(d[0]) == ord' && sum' == d[13] as nat && Pick(buf, d).ok then (ord' - 1) % 0x100 else 0xFF
  }

  function NextBuf(d: DirEntry, ord: nat, sum: nat, buf: seq<Wchar>): (r: seq<Wchar>)
    requires |buf| == MAX_LFN + 1
    ensures |r| == |buf|
  {
    var ord' := if IsLast(d[0]) then Unflagged(d[0]) else ord;
    var sum' := if IsLast(d[0]) then d[13] as nat else sum;
    if Unflagged(d[0]) == ord' && sum' == d[13] as nat then Pick(buf, d).buf else buf
  }

  /** The next file in a directory from entry k on, and whether the long name in the buffer
      is its name. */
  function Scan(entries: seq<DirEntry>, k: nat, ord: nat, sum: nat, buf: seq<Wchar>): Found
    requires k <= |entries| && |buf| == MAX_LFN + 1
    decreases |entries| - k
  {
    if k == |entries| || entries[k][0] == 0 then Missing
    else
      var d := entries[k];
      if Skipped(d) then Scan(entries, k + 1, 0xFF, sum, buf)
      else if Attr(d) == 0x0F then
        Scan(entries, k + 1, NextOrd(d, ord, sum, buf), if IsLast(d[0]) then d[13] as nat
            else sum, NextBuf(d, ord, sum, buf))
      else Found(k, ord == 0 && sum == SumSfn(d), buf)
  }

  /** An entry that dir_read passes over: deleted, a dot entry, a volume label, or a part of a
      long name. */
  predicate PassedOver(first: byte, attr: byte) {
    first == 0xE5 || first == 0x2E || attr as nat % 0x20 == 0x08 || attr as nat % 0x40 == 0x0F
  }

  lemma Passes(d: DirEntry)
    ensures PassedOver(d[0], d[11]) <==> Skipped(d) || Attr(d) == 0x0F
  {
  }

  /** dir_read stops at the first entry that is not passed over, or at the end mark. */
  lemma {:induction false} ScanPasses(entries: seq<DirEntry>, k: nat, ord: nat, sum: nat, buf: seq<Wchar>)
    returns (end: nat)
    requires k <= |entries| && |buf| == MAX_LFN + 1
    ensures k <= end <= |entries|
    ensures forall j :: k <= j < end ==> entries[j][0] != 0 && PassedOver(entries[j][0], entries[j][11])
    ensures var r := Scan(entries, k, ord, sum, buf);
      if end < |entries| && entries[end][0] != 0 then r.Found? && r.index == end
          && !PassedOver(entries[end][0], entries[end][11])
      else r == Missing
    decreases |entries| - k
  {
    hide Pick, SumSfn, NextOrd, NextBuf, Skipped, Attr, PassedOver, IsLast;
    end := k;
    if k < |entries| && entries[k][0] != 0 {
      var d := entries[k];
      Passes(d);
      if Skipped(d) {
        end := ScanPasses(entries, k + 1, 0xFF, sum, buf);
      } else if Attr(d) == 0x0F {
        end := ScanPasses(entries, k + 1, NextOrd(d, ord, sum, buf), if IsLast(d[0]) then d[13] as nat else sum,
                          NextBuf(d, ord, sum, buf));
      }
    }
  }

  /** A deleted file does not come back. */
  lemma DeletedStays(d: DirEntry, buf: seq<Wchar>)
    requires d[0] == 0xE5 && |buf| == MAX_LFN + 1
    ensures Scan([d], 0, 0xFF, 0xFF, buf) == Missing
  {
    var end := ScanPasses([d], 0, 0xFF, 0xFF, buf);
  }

  method DirRead(entries: seq<DirEntry>, start: nat, lfnbuf: array<Wchar>) returns (found: bool, index: nat,
      named: bool)
    requires start <= |entries| && lfnbuf.Length == MAX_LFN + 1
    modifies lfnbuf
    ensures var r := Scan(entries, start, 0xFF, 0xFF, old(lfnbuf[..]));
      if found then r == Found(index, named, lfnbuf[..]) else r == Missing
  {
    hide Pick, SumSfn;
    var ord: int, sum: nat := 0xFF, 0xFF;
    index, named := start, false;
    while index < |entries|
      invariant start <= index <= |entries| && ord >= 0
      invariant Scan(entries, index, ord, sum, lfnbuf[..]) == Scan(entries, start, 0xFF, 0xFF, old(lfnbuf[..]))
    {
      var d := entries[index];
      if d[0] == 0 {
        return false, index, false;
      }
      if Skipped(d) {
        ord := 0xFF;
      } else if Attr(d) == 0x0F {
        ghost var ord0, sum0, buf0 := ord, sum, lfnbuf[..];
        if IsLast(d[0]) {
          sum := d[13] as nat;
          ord := Unflagged(d[0]);
        }
        if Unflagged(d[0]) == ord && sum == d[13] as nat {
          var ok := PickLfn(lfnbuf, d);
          ord := if ok then (ord - 1) % 0x100 else 0xFF;
        } else {
          ord := 0xFF;
        }
        assert ord == NextOrd(d, ord0, sum0, buf0) && lfnbuf[..] == NextBuf(d, ord0, sum0, buf0);
      } else {
        var s := ComputeSum(d);
        return true, index, ord == 0 && sum == s;
      }
      index := index + 1;
    }
    found := false;
  }

  /** Reading the parts of a stored name one after the other. */
  lemma {:induction false} ReadParts(entries: seq<DirEntry>, p: nat, k: nat, ord: nat, sum: nat, buf: seq<Wchar>,
      name: seq<Wchar>, check: byte)
    requires Storable(name) && k <= Parts(name) && p + Parts(name) < |entries| && |buf| == MAX_LFN + 1
    requires IsStored(entries[p..p + Parts(name)], name, check) && IsShort(entries[p + Parts(name)])
    requires k > 0 ==> ord == Parts(name) - k && sum == check as nat && HoldsFrom(buf, name, 13 * ord)
    requires check as nat == SumSfn(entries[p + Parts(name)])
    ensures var r := Scan(entries, p + k, ord, sum, buf);
      r.Found? && r.index == p + Parts(name) && r.named && |r.buf| == MAX_LFN + 1 && HoldsFrom(r.buf, name, 0)
    decreases Parts(name) - k
  {
    hide Pick, SumSfn, IsPart, Scan, NextOrd, NextBuf, Skipped, Attr, Padded;
    if k < Parts(name) {
      var d, o := entries[p + k], Parts(name) - k;
      assert d == entries[p..p + Parts(name)][k];
      ReadOne(d, name, o, check, buf);
      NextPart(d, ord, sum, buf, o, k > 0);
      ScanPart(entries, p + k, ord, sum, buf);
      ReadParts(entries, p, k + 1, o - 1, check as nat, NextBuf(d, ord, sum, buf), name, check);
    } else {
      ScanShort(entries, p + k, ord, sum, buf);
    }
  }

  lemma ScanPart(entries: seq<DirEntry>, k: nat, ord: nat, sum: nat, buf: seq<Wchar>)
    requires k < |entries| && |buf| == MAX_LFN + 1 && entries[k][0] != 0 && !Skipped(entries[k])
        && Attr(entries[k]) == 0x0F
    ensures var d := entries[k];
      Scan(entries, k, ord, sum, buf)
      == Scan(entries, k + 1, NextOrd(d, ord, sum, buf), if IsLast(d[0]) then d[13] as nat
          else sum, NextBuf(d, ord, sum, buf))
  {
    hide NextOrd, NextBuf;
  }

  lemma ScanShort(entries: seq<DirEntry>, k: nat, ord: nat, sum: nat, buf: seq<Wchar>)
    requires k < |entries| && |buf| == MAX_LFN + 1 && IsShort(entries[k])
    ensures Scan(entries, k, ord, sum, buf) == Found(k, ord == 0 && sum == SumSfn(entries[k]), buf)
  {
    hide SumSfn;
  }

  lemma NextPart(d: DirEntry, ord: nat, sum: nat, buf: seq<Wchar>, o: nat, more: bool)
    requires |buf| == MAX_LFN + 1 && Pick(buf, d).ok && Unflagged(d[0]) == o && 1 <= o <= 20
    requires IsLast(d[0]) || (more && ord == o && sum == d[13] as nat)
    ensures NextOrd(d, ord, sum, buf) == o - 1 && NextBuf(d, ord, sum, buf) == Pick(buf, d).buf
  {
    hide Pick;
  }

  lemma ReadOne(d: DirEntry, name: seq<Wchar>, o: nat, check: byte, buf: seq<Wchar>)
    requires Storable(name) && IsPart(d, name, o, check) && o <= Parts(name) && |buf| == MAX_LFN + 1
    requires o < Parts(name) ==> HoldsFrom(buf, name, 13 * o)
    ensures Pick(buf, d).ok && HoldsFrom(Pick(buf, d).buf, name, 13 * (o - 1))
    ensures Unflagged(d[0]) == o <= 20 && (IsLast(d[0]) <==> o == Parts(name)) && d[13] == check
    ensures d[0] != 0 && !Skipped(d) && Attr(d) == 0x0F
  {
    hide PickFrom, Padded;
    PartFlag(d, name, o, check);
    PickPart(buf, d, name, o, check, 0, 13 * (o - 1), 1);
  }

  /** A name stored by dir_register is read back by dir_read, whatever precedes its entries:
      all lengths from 1 to 255 units, multiples of 13 included. */
  lemma RoundTrip(entries: seq<DirEntry>, p: nat, ord: nat, sum: nat, buf: seq<Wchar>, name: seq<Wchar>)
    requires Storable(name) && p + Parts(name) < |entries| && |buf| == MAX_LFN + 1 && IsShort(entries[p + Parts(name)])
    requires IsStored(entries[p..p + Parts(name)], name, SumSfn(entries[p + Parts(name)]) as byte)
    ensures var r := Scan(entries, p, ord, sum, buf);
      r.Found? && r.index == p + Parts(name) && r.named && Holds(r.buf, name)
  {
    hide Scan;
    ReadParts(entries, p, 0, ord, sum, buf, name, SumSfn(entries[p + Parts(name)]) as byte);
    var r := Scan(entries, p, ord, sum, buf);
    assert r.buf[|name|] == Padded(name, |name|);
    assert forall i: nat :: i < |name| ==> r.buf[i] == Padded(name, i);
  }

  /** The entries before k are the parts top to ord + 1 of one name, the first one flagged. */
  ghost predicate Sequence(entries: seq<DirEntry>, k: nat, ord: nat, sum: nat, top: nat) {
    && k <= |entries| && ord < top && top - ord <= k
    && IsLast(entries[k - (top - ord)][0])
    && forall j: nat :: k - (top - ord) <= j < k ==> IsPartOf(entries[j], ord + (k - j), sum)
  }

  predicate IsPartOf(d: DirEntry, o: nat, sum: nat) {
    Attr(d) == 0x0F && Unflagged(d[0]) == o && d[13] as nat == sum && Word(d, 26) == 0
  }

  /** One long name entry extends the sequence, starts a new one, or breaks it. */
  lemma SequenceNext(entries: seq<DirEntry>, k: nat, ord: nat, sum: nat, top: nat, buf: seq<Wchar>)
    requires k < |entries| && |buf| == MAX_LFN + 1 && Attr(entries[k]) == 0x0F && ord <= 0xFF
    requires ord != 0xFF ==> Sequence(entries, k, ord, sum, top)
    ensures var d := entries[k]; var ord' := NextOrd(d, ord, sum, buf);
      ord' <= 0xFF && (ord' != 0xFF ==>
        Sequence(entries, k + 1, ord', if IsLast(d[0]) then d[13] as nat
            else sum, if IsLast(d[0]) then Unflagged(d[0]) else top))
  {
    hide Pick;
    if Pick(buf, entries[k]).ok {
      PickFirst(buf, entries[k]);
    }
  }

  /** An entry that is accepted has an order and a zero cluster field. */
  lemma PickFirst(buf: seq<Wchar>, d: DirEntry)
    requires |buf| == MAX_LFN + 1 && Pick(buf, d).ok
    ensures Unflagged(d[0]) != 0 && Word(d, 26) == 0
  {
    assert -13 % 0x1_0000_0000 == 0x1_0000_0000 - 13;
  }

  /** A long name is accepted only after a complete sequence of parts, from a flagged one
      down to part 1, that all carry the checksum of the short name. */
  lemma {:induction false} NamedOnly(entries: seq<DirEntry>, k: nat, ord: nat, sum: nat, top: nat,
      buf: seq<Wchar>) returns (n: nat)
    requires k <= |entries| && |buf| == MAX_LFN + 1 && ord <= 0xFF
    requires ord != 0xFF ==> Sequence(entries, k, ord, sum, top)
    ensures var r := Scan(entries, k, ord, sum, buf);
      r.Found? && r.named ==> r.index < |entries| && Sequence(entries, r.index, 0, SumSfn(entries[r.index]), n)
    decreases |entries| - k
  {
    hide SumSfn, Sequence, NextOrd, NextBuf;
    n := top;
    if k < |entries| && entries[k][0] != 0 {
      var d := entries[k];
      if Skipped(d) {
        n := NamedOnly(entries, k + 1, 0xFF, sum, top, buf);
      } else if Attr(d) == 0x0F {
        SequenceNext(entries, k, ord, sum, top, buf);
        n := NamedOnly(entries, k + 1, NextOrd(d, ord, sum, buf), if IsLast(d[0]) then d[13] as nat else sum,
                       if IsLast(d[0]) then Unflagged(d[0]) else top, NextBuf(d, ord, sum, buf));
      }
    }
  }
}
