/** An open file: f_read, f_write, f_lseek and f_truncate behave like operations on a
    sequence of bytes with a cursor. */
module FatFile {
  import opened Arith
  import opened Bits
  import opened Bytes
  import opened FatTable
  import opened FatWindow
  import opened FatChain
  import opened FatAlloc
  import opened FatData
  import opened FatVolume

  /** A sector address lies in a run, by unsigned subtraction. */
  lemma InRun(sect: nat, s: nat, n: nat)
    requires sect < WORD && s < WORD && s + n <= WORD
    ensures (sect - s) % WORD < n <==> s <= sect < s + n
    ensures s <= sect ==> (sect - s) % WORD == sect - s
  {
    Wrap(sect - s);
  }

  /** The volume has no free cluster, or believes so. */
  ghost predicate NoSpace(fs: Fatfs)
    requires fs.Valid()
    reads fs, fs.win
  {
    fs.freeClst == 0 || FreeClusters(TableOf(fs.g, fs.view)) == 0
  }

  /** The clusters that n bytes need. */
  function Needed(g: Geometry, n: nat): nat {
    if n == 0 || g.csize == 0 then 0 else (n - 1) / (g.csize * SS) + 1
  }

  /** A chain of a clusters became one of b: it grew as far as n bytes need, and no further. */
  predicate Sized(g: Geometry, a: nat, b: nat, n: nat) {
    b == if a < Needed(g, n) then Needed(g, n) else a
  }

  /** Clusters are neither lost nor made: what a chain gains the volume has given. */
  ghost predicate Balanced(g: Geometry, w0: Window, ch0: seq<nat>, w: Window, ch: seq<nat>) {
    && FatWindow.Valid(g, w0) && FatWindow.Valid(g, w)
    && FreeClusters(TableOf(g, w)) + |ch| == FreeClusters(TableOf(g, w0)) + |ch0|
  }

  lemma NeededIndex(g: Geometry, n: nat)
    requires g.csize > 0 && n > 0
    ensures Needed(g, n) == ClusterIndex(g, n - 1) + 1
  {
    BytesIndex(g, n - 1);
  }

  lemma NeededGrows(g: Geometry, m: nat, n: nat)
    requires g.csize > 0 && m <= n
    ensures Needed(g, m) <= Needed(g, n)
  {
    if m > 0 {
      DivMonotone(m - 1, n - 1, g.csize * SS);
    }
  }

  /** A chain holds n bytes exactly if it has the clusters they need. */
  lemma NeededFits(g: Geometry, n: nat, k: nat)
    requires g.csize > 0
    ensures n <= SS * (g.csize * k) <==> Needed(g, n) <= k
  {
    if n > 0 {
      NeededIndex(g, n);
      IndexBound(g, n - 1, k);
    }
  }

  lemma SizedNot(g: Geometry, w: Window, f: File)
    requires Base(g, w, f)
    ensures Sized(g, |f.chain|, |f.chain|, f.objsize) && Needed(g, f.objsize) <= |f.chain|
  {
    NeededFits(g, f.objsize, |f.chain|);
  }

  lemma SizedTrans(g: Geometry, a: nat, b: nat, c: nat, m: nat, n: nat)
    requires g.csize > 0 && Sized(g, a, b, m) && Sized(g, b, c, n) && m <= n
    ensures Sized(g, a, c, n)
  {
    hide Needed;
    NeededGrows(g, m, n);
  }

  /** Bytes written from p on are in the cluster of p, if that had to be allocated. */
  lemma SizedWritten(g: Geometry, w: Window, f: File, a: nat, p: nat)
    requires Base(g, w, f) && p < f.objsize && |f.chain| == if a < ClusterIndex(g, p) + 1 then ClusterIndex(g, p) + 1
        else a
    ensures Sized(g, a, |f.chain|, f.objsize)
  {
    hide Needed, ClusterIndex;
    SizedNot(g, w, f);
    NeededIndex(g, p + 1);
    NeededGrows(g, p + 1, f.objsize);
  }

  /** At the end of the chain all of it is needed. */
  lemma SizedEnd(g: Geometry, f: File, a: nat)
    requires g.csize > 0 && AtEnd(g, f) && a <= |f.chain|
    ensures Sized(g, a, |f.chain|, f.fptr)
  {
    hide ClusterIndex;
    if f.chain != [] {
      EndIndex(g, |f.chain|);
      NeededIndex(g, f.fptr);
    } else {
      TimesZero(g.csize);
    }
  }

  /** A place in the cluster that was walked to needs the clusters up to that one. */
  lemma SizedPlace(g: Geometry, n: nat, a: nat, q: nat, p: nat, b: nat)
    requires g.csize > 0 && Needed(g, n) <= a && p > 0 && ClusterIndex(g, p - 1) == q
    requires b == if a < q + 1 then q + 1 else a
    ensures Sized(g, a, b, if p > n then p else n)
  {
    hide Needed, ClusterIndex;
    NeededIndex(g, p);
    if p <= n {
      NeededGrows(g, p, n);
    }
  }

  /** After a seek the chain is as long as the place it led to needs. */
  lemma SeekSized(g: Geometry, w0: Window, f0: File, w1: Window, f1: File, f2: File, rest: nat, c: nat, q: nat)
    requires Base(g, w0, f0) && Base(g, w1, f1) && f0.chain <= f1.chain && f2.chain == f1.chain
    requires f2.fptr == f1.fptr + rest && f2.objsize == if f2.fptr > f0.objsize then f2.fptr else f0.objsize
    requires rest > 0 ==>
        AtCluster(g, f1, c, q) && rest <= g.csize * SS && |f1.chain| == if |f0.chain| < q + 1 then q + 1 else |f0.chain|
    requires rest == 0 ==> (AtEnd(g, f1) && f1.objsize == f0.objsize) || (f1.fptr == 0 && f1.chain == f0.chain)
    ensures Sized(g, |f0.chain|, |f2.chain|, f2.objsize)
  {
    hide Base, Needed, ClusterIndex;
    SizedNot(g, w0, f0);
    if rest > 0 {
      RestPlace(g, q, rest);
      SizedPlace(g, f0.objsize, |f0.chain|, q, f2.fptr, |f2.chain|);
    } else if AtEnd(g, f1) {
      SizedEnd(g, f1, |f0.chain|);
      EndBehind(g, w1, f1);
    }
  }

  /** What a seek that fails has done. */
  lemma SeekFailed(g: Geometry, w0: Window, f0: File, w: Window, f: File)
    requires Extends(g, w0, f0, w, f) && AtEnd(g, f)
    ensures f0.chain <= f.chain && Apart(g, w0, f0.chain, w, f.chain) && Balanced(g, w0, f0.chain, w, f.chain)
    ensures Base(g, w0, f0) && Base(g, w, f) && Contents(g, w, f) == Contents(g, w0, f0)
    ensures f.objsize == f0.objsize <= f.fptr && Sized(g, |f0.chain|, |f.chain|, f.fptr)
  {
    hide Base, Apart, Balanced, Sized, AtEnd, Contents, Image;
    ExtendsContents(g, w0, f0, w, f);
    EndBehind(g, w, f);
    SizedEnd(g, f, |f0.chain|);
  }

  /** What a seek that succeeds has done. */
  lemma SeekDone(g: Geometry, w0: Window, f0: File, w1: Window, f1: File, w: Window, f: File, rest: nat, c: nat, q: nat)
    requires Extends(g, w0, f0, w1, f1) && Grew(g, w1, f1, w, f) && f.chain == f1.chain
    requires TableOf(g, w) == TableOf(g, w1)
    requires f.fptr == f1.fptr + rest && f.objsize == if f.fptr > f1.objsize then f.fptr else f1.objsize
    requires rest > 0 ==>
        AtCluster(g, f1, c, q) && rest <= g.csize * SS && |f1.chain| == if |f0.chain| < q + 1 then q + 1 else |f0.chain|
    requires rest == 0 ==> AtEnd(g, f1) || (f1.fptr == 0 && f1.chain == f0.chain)
    ensures f0.chain <= f.chain && Apart(g, w0, f0.chain, w, f.chain) && Balanced(g, w0, f0.chain, w, f.chain)
    ensures Base(g, w0, f0) && Base(g, w, f) && Contents(g, w0, f0) <= Contents(g, w, f)
    ensures f1.objsize == f0.objsize && Sized(g, |f0.chain|, |f.chain|, f.objsize)
    ensures AtEnd(g, f1) ==> f0.objsize <= f1.fptr
  {
    hide Base, Apart, Balanced, Sized, AtEnd, AtCluster, Contents, Image, TableOf;
    ExtendsContents(g, w0, f0, w1, f1);
    EndBehind(g, w1, f1);
    ApartTrans(g, w0, f0.chain, w1, f1.chain, w, f.chain);
    SeekSized(g, w0, f0, w1, f1, f, rest, c, q);
    BaseValid(g, w, f);
    BalancedTable(g, w0, f0.chain, w1, f1.chain, w);
  }

  lemma BalancedTable(g: Geometry, w0: Window, ch0: seq<nat>, w1: Window, ch: seq<nat>, w: Window)
    requires Balanced(g, w0, ch0, w1, ch) && FatWindow.Valid(g, w) && TableOf(g, w) == TableOf(g, w1)
    ensures Balanced(g, w0, ch0, w, ch)
  {
    hide TableOf, FatWindow.Valid;
  }

  lemma BalancedSelf(g: Geometry, w: Window, ch: seq<nat>)
    requires FatWindow.Valid(g, w)
    ensures Balanced(g, w, ch, w, ch)
  {
  }

  lemma StretchedCount(t: seq<nat>, clst: nat, ncl: nat, eoc: nat)
    requires Cluster(t, ncl) && t[ncl] == 0 && eoc > 0 && (clst == 0 || (Cluster(t, clst) && t[clst] != 0))
    ensures FreeClusters(Stretched(t, clst, ncl, eoc)) == FreeClusters(t) - 1
  {
    CountUpdate(t, |t|, ncl, eoc);
    if clst != 0 {
      CountUpdate(t[ncl := eoc], |t|, clst, ncl);
    }
  }

  /** The free count of the volume, if it is valid, is the number of free clusters. */
  ghost predicate TrueCount(fs: Fatfs)
    requires fs.Valid()
    reads fs, fs.win
  {
    Counted(TableOf(fs.g, fs.view), fs.freeClst)
  }

  /** How much of a write is attempted: a file stays below 4 GiB. */
  function WriteCount(p: nat, n: nat): nat {
    if p + n >= WORD && p < WORD then WORD - 1 - p else n
  }

  lemma ClipCount(p: nat, n: nat)
    requires p < WORD && n < WORD
    ensures WriteCount(p, n) == if (p + n) % WORD < p then WORD - 1 - p else n
    ensures WriteCount(p, n) <= n && p + WriteCount(p, n) < WORD
  {
    if p + n >= WORD {
      Wrap(p + n - WORD);
      ModUnique(p + n, WORD, 1, p + n - WORD);
    }
  }

  /** Where a seek ends when the volume has room: read-only files are not extended. */
  function SeekTarget(ofs: nat, size: nat, canWrite: bool): nat {
    if ofs > size && !canWrite then size else ofs
  }

  class Fil {
    const fs: Fatfs
    const buf: array<byte>
    const canRead: bool
    const canWrite: bool
    var err: FatVolume.Result
    var modified: bool
    var dirty: bool
    var fptr: nat
    var clust: nat
    var sect: nat
    var sclust: nat
    var objsize: nat
    ghost var file: File

    /** f_open of an existing file whose clusters are chain: cursor at 0, empty buffer. */
    constructor (fs: Fatfs, canRead: bool, canWrite: bool, sclust: nat, objsize: nat, ghost chain: seq<nat>)
      requires fs.Valid() && objsize < WORD
      requires if sclust == 0 then chain == [] else IsChain(TableOf(fs.g, fs.view), chain) && chain[0] == sclust
      requires objsize <= SS * (fs.g.csize * |chain|) && (fs.wflag ==> !OfFile(fs.g, chain, fs.winsect))
      ensures Valid() && fresh(buf) && this.fs == fs && this.canRead == canRead && this.canWrite == canWrite
      ensures err == Success && fptr == 0 && file.chain == chain && this.sclust == sclust && this.objsize == objsize
    {
      this.fs := fs;
      this.canRead, this.canWrite := canRead, canWrite;
      this.sclust, this.objsize := sclust, objsize;
      buf := new byte[SS](i => 0);
      err := Success;
      modified, dirty := false, false;
      fptr, clust, sect := 0, 0, 0;
      new;
      file := File(chain, sclust, objsize, 0, 0, 0, false, buf[..]);
      OpenedBase(fs.g, fs.view, file);
    }

    /** The fields are those of a file on the volume. */
    ghost predicate Tied()
      reads this, buf, fs, fs.win
    {
      && buf.Length == SS && buf != fs.win && fs.Valid()
      && file == File(file.chain, sclust, objsize, fptr, clust, sect, dirty, buf[..])
      && Base(fs.g, fs.view, file)
    }

    ghost predicate Valid()
      reads this, buf, fs, fs.win
    {
      Tied() && (err == Success ==> Cursor(fs.g, file))
    }

    /** What the file holds. */
    ghost function Bytes(): (r: seq<byte>)
      requires Tied()
      reads this, buf, fs, fs.win
    {
      Contents(fs.g, fs.view, file)
    }

    /** Write back a dirty buffer. */
    method Flush()
      requires Tied()
      modifies `dirty, `file, fs`disk, fs`view
      ensures Tied() && file == old(file).(dirty := false) && SameFile(fs.g, old(fs.view), old(file), fs.view, file)
    {
      hide Apart, Base, Image, TableOf, FatWindow.Valid, PutSectors;
      ghost var w0, f0 := fs.view, file;
      SameSelf(fs.g, w0, f0);
      if dirty {
        FlushPlace(fs.g, w0, f0);
        fs.DiskWrite(sect, buf[..], 1);
        dirty := false;
        file := file.(dirty := false);
      }
    }

    /** Bring a sector of the file into the buffer. */
    method Fill(s: nat, ghost j: nat)
      requires Tied() && j < fs.g.csize * |file.chain| && s == SectorOf(fs.g, file.chain, j)
      modifies `dirty, `sect, `file, fs`disk, fs`view, buf
      ensures Tied() && SameFile(fs.g, old(fs.view), old(file), fs.view, file)
      ensures file == old(file).(sect := s, dirty := dirty, buf := buf[..])
          && file.buf == Image(fs.g, fs.view.disk, file)[j]
    {
      hide Apart, Base, Image, TableOf, FatWindow.Valid;
      ghost var w0, f0 := fs.view, file;
      SameSelf(fs.g, w0, f0);
      if sect != s {
        Flush();
        ghost var w1, f1 := fs.view, file;
        FillPlace(fs.g, w1, f1, j);
        var data := fs.disk[s];
        forall i | 0 <= i < SS {
          buf[i] := data[i];
        }
        assert buf[..] == data;
        file := file.(sect := s, buf := data);
        sect := s;
        SameTrans(fs.g, w0, f0, w1, f1, fs.view, file);
      }
      ImageHere(fs.g, fs.view, file, j);
      sect := s;
    }

    /** The sector to read next at a sector boundary. */
    method LocateRead() returns (s: nat, csect: nat)
      requires Tied() && Cursor(fs.g, file) && fptr < objsize && fptr % SS == 0
      modifies `clust, `file, fs`disk, fs`wflag, fs`winsect, fs`view, fs.win
      ensures Tied() && SameFile(fs.g, old(fs.view), old(file), fs.view, file) && file == old(file).(clust := clust)
      ensures Located(fs.g, file) && csect == (fptr / SS) % fs.g.csize && fptr / SS < fs.g.csize * |file.chain|
      ensures s == SectorOf(fs.g, file.chain, fptr / SS)
    {
      hide Apart, Base, Image, TableOf, FatWindow.Valid, SectorOf, Cursor, ClusterIndex, And;
      ghost var w0, f0 := fs.view, file;
      ReadPlace(fs.g, w0, f0);
      SectorMask(fs.g, fptr / SS);
      SameSelf(fs.g, w0, f0);
      csect := And(fptr / SS, fs.g.csize - 1);
      if csect == 0 {
        var clst := sclust;
        if fptr != 0 {
          clst := fs.GetFat(clust);
          AccessSame(fs.g, w0, fs.view, f0);
        }
        ghost var w1 := fs.view;
        ClustSame(fs.g, w1, f0, clst);
        clust := clst;
        file := file.(clust := clst);
        SameTrans(fs.g, w0, f0, w1, f0, fs.view, file);
      }
      SectorTop(fs.g, file);
      s := fs.Clst2Sect(clust);
      s := s + csect;
    }

    /** Read cc sectors of the file straight to the caller, then replace the one the buffer
        holds dirty. */
    method ReadSectors(buff: array<byte>, at: nat, s: nat, cc: nat, ghost j: nat)
      requires Tied() && buff != buf && buff != fs.win && at + SS * cc <= buff.Length
      requires j < fs.g.csize * |file.chain| && s == SectorOf(fs.g, file.chain, j) && 0 < cc
          && j % fs.g.csize + cc <= fs.g.csize
      modifies buff
      ensures j + cc <= fs.g.csize * |file.chain|
      ensures buff[at..at + SS * cc] == Slice(Image(fs.g, fs.view.disk, file), SS * j, SS * (j + cc))
      ensures buff[..at] == old(buff[..at]) && buff[at + SS * cc..] == old(buff[at + SS * cc..])
    {
      hide Apart, Base, Image, TableOf, FatWindow.Valid, SectorOf, ByteAt, Slice;
      ghost var img := Image(fs.g, fs.view.disk, file);
      RunPlace(fs.g, fs.view, file, j, cc);
      InRun(sect, s, cc);
      fs.DiskRead(buff, at, s, cc);
      if dirty && (sect - s) % WORD < cc {
        CopySector(buff, at + (sect - s) % WORD * SS);
      }
      ghost var got, want := buff[at..at + SS * cc], Slice(img, SS * j, SS * (j + cc));
      forall i | 0 <= i < SS * cc ensures got[i] == want[i] {
        SliceAt(img, SS * j, SS * (j + cc), i);
        RunByte(fs.g, fs.view, file, j, cc, i);
        assert got[i] == buff[at + i];
      }
    }

    method CopySector(buff: array<byte>, at: nat)
      requires buf.Length == SS && buff != buf && at + SS <= buff.Length
      modifies buff
      ensures forall i :: 0 <= i < buff.Length ==> buff[i] == if at <= i < at + SS then buf[i - at] else old(buff[i])
    {
      forall i | 0 <= i < SS {
        buff[at + i] := buf[i];
      }
    }

    /** Copy a part of the buffer to the caller. */
    method CopyOut(buff: array<byte>, at: nat, rcnt: nat, ghost img: seq<Sector>)
      requires Tied() && buff != buf && buff != fs.win && at + rcnt <= buff.Length && fptr % SS + rcnt <= SS
      requires fptr / SS < |img| && img[fptr / SS] == buf[..]
      modifies buff
      ensures fptr + rcnt <= SS * |img| && buff[at..at + rcnt] == Slice(img, fptr, fptr + rcnt)
      ensures buff[..at] == old(buff[..at]) && buff[at + rcnt..] == old(buff[at + rcnt..])
    {
      hide Apart, Tied;
      var o := fptr % SS;
      forall i | 0 <= i < rcnt {
        buff[at + i] := buf[o + i];
      }
      ghost var got, want := buff[at..at + rcnt], Slice(img, fptr, fptr + rcnt);
      forall i | 0 <= i < rcnt ensures got[i] == want[i] {
        SliceAt(img, fptr, fptr + rcnt, i);
        assert (fptr + i) / SS == fptr / SS && (fptr + i) % SS == o + i;
      }
    }

    /** Move the cursor over n transferred bytes. */
    method Advance(n: nat)
      requires Tied() && Located(fs.g, file) && 0 < n && Within(fs.g, fptr, n) && fptr <= objsize && fptr + n < WORD
      requires (fptr + n) % SS != 0 ==>
          fptr / SS < fs.g.csize * |file.chain| && sect == SectorOf(fs.g, file.chain, fptr / SS)
      modifies `fptr, `objsize, `file
      ensures Tied() && Cursor(fs.g, file) && file == Advanced(old(file), n)
      ensures Image(fs.g, fs.view.disk, file) == Image(fs.g, fs.view.disk, old(file))
    {
      hide Apart, Base, Image, TableOf, FatWindow.Valid, SectorOf, Cursor, Located, Within;
      AdvancedKeeps(fs.g, fs.view, file, n);
      fptr := fptr + n;
      objsize := if fptr > objsize then fptr else objsize;
      file := file.(fptr := fptr, objsize := objsize);
    }

    /** Whole sectors of one cluster, as many as are asked for. */
    method ReadWhole(buff: array<byte>, at: nat, btr: nat, s: nat, csect: nat) returns (rcnt: nat)
      requires Tied() && Located(fs.g, file) && buff != buf && buff != fs.win && fptr % SS == 0 && SS <= btr
      requires fptr + btr <= objsize && at + btr <= buff.Length && fptr / SS < fs.g.csize * |file.chain|
      requires csect == (fptr / SS) % fs.g.csize && s == SectorOf(fs.g, file.chain, fptr / SS)
      modifies `fptr, `objsize, `file, buff
      ensures Tied() && Cursor(fs.g, file) && SameFile(fs.g, fs.view, old(file), fs.view, file)
      ensures 0 < rcnt <= btr && fptr == old(fptr) + rcnt <= SS * |Image(fs.g, fs.view.disk, file)|
      ensures buff[at..at + rcnt] == Slice(Image(fs.g, fs.view.disk, file), old(fptr), fptr)
      ensures buff[..at] == old(buff[..at]) && buff[at + rcnt..] == old(buff[at + rcnt..])
    {
      hide Apart, Base, Image, TableOf, FatWindow.Valid, SectorOf, Cursor, Located, SameFile, Within, Slice;
      ghost var f1 := file;
      SameSelf(fs.g, fs.view, f1);
      ReadFits(fs.g, fs.view, f1, btr);
      var cc := btr / SS;
      if csect + cc > fs.g.csize {
        cc := fs.g.csize - csect;
      }
      RunWithin(fs.g, fptr, cc);
      ReadSectors(buff, at, s, cc, fptr / SS);
      rcnt := SS * cc;
      Advance(rcnt);
      AdvancedSame(fs.g, fs.view, f1, fs.view, f1, rcnt);
    }

    /** A part of the sector the buffer shows. */
    method ReadTail(buff: array<byte>, at: nat, btr: nat) returns (rcnt: nat)
      requires Tied() && Located(fs.g, file) && buff != buf && buff != fs.win
      requires 0 < btr && fptr + btr <= objsize && at + btr <= buff.Length && fptr / SS < fs.g.csize * |file.chain|
      requires file.sect == SectorOf(fs.g, file.chain, fptr / SS)
      modifies `fptr, `objsize, `file, buff
      ensures Tied() && Cursor(fs.g, file) && SameFile(fs.g, fs.view, old(file), fs.view, file)
      ensures 0 < rcnt <= btr && fptr == old(fptr) + rcnt <= SS * |Image(fs.g, fs.view.disk, file)|
      ensures buff[at..at + rcnt] == Slice(Image(fs.g, fs.view.disk, file), old(fptr), fptr)
      ensures buff[..at] == old(buff[..at]) && buff[at + rcnt..] == old(buff[at + rcnt..])
    {
      hide Apart, Base, Image, TableOf, FatWindow.Valid, SectorOf, Cursor, Located, SameFile, Within, Slice;
      ghost var f1 := file;
      SameSelf(fs.g, fs.view, f1);
      ReadFits(fs.g, fs.view, f1, btr);
      ImageHere(fs.g, fs.view, f1, fptr / SS);
      rcnt := SS - fptr % SS;
      if rcnt > btr {
        rcnt := btr;
      }
      PartWithin(fs.g, fptr, rcnt);
      CopyOut(buff, at, rcnt, Image(fs.g, fs.view.disk, f1));
      Advance(rcnt);
      AdvancedSame(fs.g, fs.view, f1, fs.view, f1, rcnt);
    }

    /** One round of f_read's loop: whole sectors directly, else a part of a sector. */
    method ReadPart(buff: array<byte>, at: nat, btr: nat) returns (rcnt: nat)
      requires Tied() && Cursor(fs.g, file) && buff != buf && buff != fs.win
      requires 0 < btr && fptr + btr <= objsize && at + btr <= buff.Length
      modifies `clust, `dirty, `sect, `fptr, `objsize, `file, fs`disk, fs`wflag, fs`winsect, fs`view, fs.win, buf, buff
      ensures Tied() && Cursor(fs.g, file) && SameFile(fs.g, old(fs.view), old(file), fs.view, file)
      ensures 0 < rcnt <= btr && fptr == old(fptr) + rcnt <= SS * |Image(fs.g, fs.view.disk, file)|
      ensures buff[at..at + rcnt] == Slice(Image(fs.g, fs.view.disk, file), old(fptr), fptr)
      ensures buff[..at] == old(buff[..at]) && buff[at + rcnt..] == old(buff[at + rcnt..])
    {
      hide Apart, Base, Image, TableOf, FatWindow.Valid, SectorOf, Cursor, Located, SameFile, Slice;
      ghost var w0, f0 := fs.view, file;
      SameSelf(fs.g, w0, f0);
      ReadPlace(fs.g, w0, f0);
      if fptr % SS == 0 {
        var s, csect := LocateRead();
        ghost var w1, f1 := fs.view, file;
        if btr / SS > 0 {
          rcnt := ReadWhole(buff, at, btr, s, csect);
          SameTrans(fs.g, w0, f0, w1, f1, fs.view, file);
          return;
        }
        Fill(s, fptr / SS);
        SameTrans(fs.g, w0, f0, w1, f1, fs.view, file);
        LocatedSame(fs.g, f1, file);
      } else {
        MidPlace(fs.g, w0, f0);
      }
      ghost var w2, f2 := fs.view, file;
      rcnt := ReadTail(buff, at, btr);
      SameTrans(fs.g, w0, f0, w2, f2, fs.view, file);
    }

    /** The loop of f_read for n bytes that the file has. */
    method ReadAll(buff: array<byte>, n: nat)
      requires Tied() && Cursor(fs.g, file) && buff != buf && buff != fs.win && fptr + n <= objsize && n <= buff.Length
      modifies `clust, `dirty, `sect, `fptr, `objsize, `file, fs`disk, fs`wflag, fs`winsect, fs`view, fs.win, buf, buff
      ensures Tied() && Cursor(fs.g, file) && SameFile(fs.g, old(fs.view), old(file), fs.view, file)
      ensures fptr == old(fptr) + n <= SS * |Image(fs.g, fs.view.disk, file)|
      ensures buff[..n] == Slice(Image(fs.g, fs.view.disk, file), old(fptr), fptr) && buff[n..] == old(buff[n..])
    {
      hide Apart, Base, Image, TableOf, FatWindow.Valid, SectorOf, Cursor, SameFile, Slice;
      ghost var w0, f0, p0 := fs.view, file, fptr;
      ghost var img := Image(fs.g, w0.disk, f0);
      SameSelf(fs.g, w0, f0);
      SameImage(fs.g, w0, f0, fs.view, file);
      SliceEmpty(img, p0);
      var br: nat := 0;
      while br < n
        invariant Tied() && Cursor(fs.g, file) && SameFile(fs.g, w0, f0, fs.view, file) && objsize == f0.objsize
        invariant br <= n && fptr == p0 + br <= SS * |img|
        invariant buff[..br] == Slice(img, p0, p0 + br) && buff[n..] == old(buff[n..])
      {
        ghost var w1, f1 := fs.view, file;
        ghost var got, rest := buff[..br], buff[br..];
        var rcnt := ReadPart(buff, br, n - br);
        SameTrans(fs.g, w0, f0, w1, f1, fs.view, file);
        SameImage(fs.g, w0, f0, fs.view, file);
        SliceJoin(img, p0, p0 + br, p0 + br + rcnt);
        Pieces(got, buff[..], br, rcnt, n, rest);
        br := br + rcnt;
      }
      SameImage(fs.g, w0, f0, fs.view, file);
    }

    method Read(buff: array<byte>, btr: nat) returns (res: FatVolume.Result, br: nat)
      requires Valid() && buff != buf && buff != fs.win && btr <= buff.Length
      modifies `clust, `dirty, `sect, `fptr, `objsize, `file, fs`disk, fs`wflag, fs`winsect, fs`view, fs.win, buf, buff
      ensures Valid() && SameFile(fs.g, old(fs.view), old(file), fs.view, file) && Bytes() == old(Bytes())
      ensures err == Success && canRead ==>
                && res == Success && br == (if btr > objsize - old(fptr) then objsize - old(fptr) else btr)
                && old(fptr) + br <= objsize && buff[..br] == Bytes()[old(fptr)..old(fptr) + br]
      ensures err != Success ==> res == err && br == 0
      ensures err == Success && !canRead ==> res == Denied && br == 0
      ensures fptr == old(fptr) + br && br <= buff.Length && buff[br..] == old(buff[br..])
      ensures old(TrueCount(fs)) ==> TrueCount(fs)
    {
      hide Apart, Base, Image, TableOf, FatWindow.Valid, SectorOf, SameFile, Slice, Counted;
      ghost var w0, f0, p0 := fs.view, file, fptr;
      SameSelf(fs.g, w0, f0);
      br := 0;
      if err != Success {
        return err, 0;
      }
      if !canRead {
        return Denied, 0;
      }
      br := btr;
      if br > objsize - fptr {
        br := objsize - fptr;
      }
      ReadAll(buff, br);
      SameImage(fs.g, w0, f0, fs.view, file);
      SliceOf(Image(fs.g, fs.view.disk, file), objsize, p0, p0 + br);
      res := Success;
    }

    /** create_chain on the file's own chain: the cluster after element i - 1, a new one at
        the end, or none. The first cluster of an empty file also becomes its start. */
    method Stretch(clst: nat, ghost i: nat) returns (r: nat)
      requires Tied() && i <= |file.chain| && clst == (if i == 0 then 0 else file.chain[i - 1])
          && (i == 0 ==> file.chain == [])
      modifies `sclust, `file, fs, fs.win
      ensures Tied() && Extends(fs.g, old(fs.view), old(file), fs.view, file)
      ensures file == old(file).(chain := file.chain, sclust := sclust)
      ensures r >= 2 ==> i < |file.chain| && r == file.chain[i]
      ensures r < 2 ==> file == old(file) && i == |file.chain|
      ensures r == 0 ==> NoSpace(fs)
      ensures r == 1 ==> BadEntry(TableOf(fs.g, fs.view))
      ensures old(TrueCount(fs)) ==> TrueCount(fs)
      ensures |file.chain| == if r >= 2 && i == |old(file.chain)| then i + 1 else |old(file.chain)|
    {
      hide Sized, Needed, Balanced, Apart, Base, Image, TableOf, FatWindow.Valid, Outcome, Took, Created,
          FreeClusters, BadEntry, Counted;
      ghost var w0, f0 := fs.view, file;
      StretchPlace(fs.g, w0, f0, i, fs.lastClst, fs.freeClst);
      r := fs.CreateChain(clst);
      if r >= 2 && sclust == 0 {
        sclust := r;
      }
      if i < |file.chain| || r < 2 {
        AccessSame(fs.g, w0, fs.view, f0);
        ExtendsSame(fs.g, w0, f0, fs.view, f0);
      } else {
        ExtendsGrown(fs.g, w0, fs.view, f0, r, Cut(fs.g.fsType, EOC));
        file := Grown(file, r);
      }
    }

    /** The sector to write next at a sector boundary, 0 when there is no cluster for it;
        a dirty buffer is written back. */
    method LocateWrite() returns (s: nat, csect: nat, clst: nat)
      requires Tied() && Cursor(fs.g, file) && fptr % SS == 0
      modifies `clust, `sclust, `dirty, `file, fs, fs.win
      ensures Tied() && Extends(fs.g, old(fs.view), old(file), fs.view, file) && fptr == old(fptr)
      ensures clst >= 2 ==>
                && Located(fs.g, file) && !dirty && csect == (fptr / SS) % fs.g.csize
                && fptr / SS < fs.g.csize * |file.chain| && s == SectorOf(fs.g, file.chain, fptr / SS)
      ensures clst < 2 ==> file == old(file) && fptr == objsize == SS * (fs.g.csize * |file.chain|)
      ensures clst == 0 ==> NoSpace(fs)
      ensures clst == 1 ==> BadEntry(TableOf(fs.g, fs.view))
      ensures old(TrueCount(fs)) ==> TrueCount(fs)
      ensures clst >= 2 ==>
                var k := ClusterIndex(fs.g, fptr) + 1;
                    |file.chain| == if |old(file.chain)| < k then k else |old(file.chain)|
    {
      hide Sized, Needed, Balanced, Apart, Base, Image, TableOf, FatWindow.Valid, SectorOf, Cursor, ClusterIndex, And,
          Extends, NoSpace,
          BadEntry, Counted;
      ghost var w0, f0 := fs.view, file;
      WritePlace(fs.g, w0, f0);
      SectorMask(fs.g, fptr / SS);
      SameSelf(fs.g, w0, f0);
      ExtendsSame(fs.g, w0, f0, w0, f0);
      s, clst := 0, clust;
      csect := And(fptr / SS, fs.g.csize - 1);
      if csect == 0 {
        if fptr == 0 {
          clst := sclust;
          if clst == 0 {
            clst := Stretch(0, 0);
          }
        } else {
          clst := Stretch(clust, ClusterIndex(fs.g, fptr));
        }
        if clst < 2 {
          NoMore(fs.g, f0);
          return;
        }
        ghost var w1, f1 := fs.view, file;
        ExtendsBase(fs.g, w0, f0, w1, f1);
        ClustSame(fs.g, w1, f1, clst);
        clust := clst;
        file := file.(clust := clst);
        ExtendsSame(fs.g, w1, f1, fs.view, file);
        ExtendsTrans(fs.g, w0, f0, w1, f1, fs.view, file);
      }
      ghost var w2, f2 := fs.view, file;
      Flush();
      ExtendsSame(fs.g, w2, f2, fs.view, file);
      ExtendsTrans(fs.g, w0, f0, w2, f2, fs.view, file);
      LocatedSame(fs.g, f2, file);
      SectorTop(fs.g, file);
      s := fs.Clst2Sect(clust);
      s := s + csect;
    }

    /** Write cc sectors straight from the caller's data; a buffer that holds one of them is
        refilled. */
    method WriteSectors(d: seq<byte>, s: nat, cc: nat)
      requires Tied() && !dirty && fptr % SS == 0 && fptr <= objsize && 0 < cc && SS * cc <= |d|
      requires fptr / SS < fs.g.csize * |file.chain| && (fptr / SS) % fs.g.csize + cc <= fs.g.csize
      requires s == SectorOf(fs.g, file.chain, fptr / SS)
      modifies `dirty, `file, fs`disk, fs`view, buf
      ensures Tied() && file == Refilled(old(file), s, d, cc)
      ensures Spliced(Image(fs.g, old(fs.view.disk), old(file)), Image(fs.g, fs.view.disk, file), objsize, fptr,
          d[..SS * cc])
      ensures Apart(fs.g, old(fs.view), file.chain, fs.view, file.chain)
      ensures TableOf(fs.g, fs.view) == TableOf(fs.g, old(fs.view))
    {
      hide Apart, Base, Image, TableOf, FatWindow.Valid, SectorOf, Spliced, PutSectors, Chunk;
      RunPlace(fs.g, fs.view, file, fptr / SS, cc);
      WholePlace(fs.g, fs.view, file, d, cc);
      InRun(sect, s, cc);
      fs.DiskWrite(s, d, cc);
      file := Refilled(file, s, d, cc);
      if (sect - s) % WORD < cc {
        var data := Chunk(d, sect - s);
        forall i | 0 <= i < SS {
          buf[i] := data[i];
        }
        assert buf[..] == data;
        dirty := false;
      }
    }

    /** Whole sectors of one cluster, as many as there is data for. */
    method WriteWhole(d: seq<byte>, s: nat, csect: nat) returns (wcnt: nat)
      requires Tied() && Located(fs.g, file) && !dirty && fptr % SS == 0 && fptr <= objsize && SS <= |d|
          && fptr + |d| < WORD
      requires csect == (fptr / SS) % fs.g.csize && fptr / SS < fs.g.csize * |file.chain|
          && s == SectorOf(fs.g, file.chain, fptr / SS)
      modifies `fptr, `objsize, `dirty, `file, fs`disk, fs`view, buf
      ensures Tied() && Cursor(fs.g, file) && 0 < wcnt <= |d| && fptr == old(fptr) + wcnt
      ensures Wrote(fs.g, old(fs.view), old(file), fs.view, file, d[..wcnt])
      ensures TableOf(fs.g, fs.view) == TableOf(fs.g, old(fs.view))
      ensures file.chain == old(file.chain) && objsize == (if fptr > old(objsize) then fptr else old(objsize))
    {
      hide Sized, Needed, Balanced, Apart, Base, Image, TableOf, FatWindow.Valid, SectorOf, Cursor, Located, Wrote,
          Within, Spliced;
      ghost var w0, f0 := fs.view, file;
      var cc := |d| / SS;
      if csect + cc > fs.g.csize {
        cc := fs.g.csize - csect;
      }
      RunWithin(fs.g, fptr, cc);
      WriteSectors(d, s, cc);
      wcnt := SS * cc;
      ghost var f1 := file;
      LocatedSame(fs.g, f0, f1);
      Advance(wcnt);
      WroteAdvanced(fs.g, w0, f0, fs.view, f1, d[..wcnt]);
    }

    /** Put a part of one sector in the buffer, which is not filled first at the growing edge. */
    method StoreTail(d: seq<byte>, s: nat)
      requires Tied() && fptr <= objsize && fptr % SS + |d| <= SS
      requires fptr / SS < fs.g.csize * |file.chain| && s == SectorOf(fs.g, file.chain, fptr / SS)
      requires (dirty ==> sect == s) && (fptr % SS != 0 ==> sect == s)
      modifies `dirty, `sect, `file, buf
      ensures Tied() && file == old(file).(sect := s, buf := buf[..], dirty := true)
      ensures Spliced(Image(fs.g, fs.view.disk, old(file)), Image(fs.g, fs.view.disk, file), objsize, fptr, d)
    {
      hide Apart, Base, Image, TableOf, FatWindow.Valid, SectorOf, Spliced;
      ghost var f0 := file;
      TailPlace(fs.g, fs.view, f0);
      if sect != s && fptr < objsize {
        var data := fs.disk[s];
        forall i | 0 <= i < SS {
          buf[i] := data[i];
        }
        assert buf[..] == data;
      }
      sect := s;
      ghost var b := buf[..];
      var o := fptr % SS;
      forall i | 0 <= i < |d| {
        buf[o + i] := d[i];
      }
      dirty := true;
      assert buf[..] == Patch(b, o, d);
      file := file.(sect := s, buf := buf[..], dirty := true);
      TailStores(fs.g, fs.view, f0, b, d);
    }

    method WriteTail(d: seq<byte>, s: nat) returns (wcnt: nat)
      requires Tied() && Located(fs.g, file) && fptr <= objsize && 0 < |d| && fptr + |d| < WORD
      requires fptr / SS < fs.g.csize * |file.chain| && s == SectorOf(fs.g, file.chain, fptr / SS)
      requires (dirty ==> sect == s) && (fptr % SS != 0 ==> sect == s)
      modifies `fptr, `objsize, `dirty, `sect, `file, buf
      ensures Tied() && Cursor(fs.g, file) && 0 < wcnt <= |d| && fptr == old(fptr) + wcnt
      ensures Wrote(fs.g, fs.view, old(file), fs.view, file, d[..wcnt])
      ensures file.chain == old(file.chain) && objsize == (if fptr > old(objsize) then fptr else old(objsize))
    {
      hide Sized, Needed, Balanced, Apart, Base, Image, TableOf, FatWindow.Valid, SectorOf, Cursor, Located, Wrote,
          Within, Spliced;
      ghost var f0 := file;
      wcnt := SS - fptr % SS;
      if wcnt > |d| {
        wcnt := |d|;
      }
      PartWithin(fs.g, fptr, wcnt);
      StoreTail(d[..wcnt], s);
      ghost var f1 := file;
      BaseValid(fs.g, fs.view, f1);
      ApartSelf(fs.g, fs.view, f1.chain);
      LocatedSame(fs.g, f0, f1);
      Advance(wcnt);
      WroteAdvanced(fs.g, fs.view, f0, fs.view, f1, d[..wcnt]);
    }

    /** One round of f_write's loop; nothing is written when no cluster can be had. */
    method WritePart(d: seq<byte>) returns (wcnt: nat, res: FatVolume.Result)
      requires Tied() && Cursor(fs.g, file) && 0 < |d| && fptr + |d| < WORD
      modifies `fptr, `objsize, `clust, `sclust, `dirty, `sect, `file, fs, fs.win, buf
      ensures Tied() && Cursor(fs.g, file) && wcnt <= |d| && Wrote(fs.g, old(fs.view), old(file), fs.view, file,
          d[..wcnt])
      ensures wcnt > 0 ==> res == Success
      ensures wcnt == 0 ==> fptr == objsize == SS * (fs.g.csize * |file.chain|)
      ensures wcnt == 0 && res == Success ==> NoSpace(fs)
      ensures res != Success ==> res == IntErr && BadEntry(TableOf(fs.g, fs.view))
      ensures old(TrueCount(fs)) ==> TrueCount(fs)
      ensures Sized(fs.g, |old(file.chain)|, |file.chain|, objsize) && old(objsize) <= objsize
    {
      hide ClusterIndex, Cached, Linked, Sized, Needed, Balanced, Apart, Base, Image, TableOf, FatWindow.Valid,
          SectorOf, Located, Wrote, Extends, NoSpace, BadEntry, Counted;
      ghost var w0, f0 := fs.view, file;
      res := Success;
      if fptr % SS == 0 {
        var s, csect, clst := LocateWrite();
        ghost var w1, f1 := fs.view, file;
        WroteNothing(fs.g, w0, f0, w1, f1);
        if clst < 2 {
          assert d[..0] == [];
          SizedNot(fs.g, fs.view, file);
          return 0, if clst == 0 then Success else IntErr;
        }
        if |d| / SS > 0 {
          wcnt := WriteWhole(d, s, csect);
        } else {
          wcnt := WriteTail(d, s);
        }
        WroteTrans(fs.g, w0, f0, w1, f1, fs.view, file, [], d[..wcnt]);
        assert [] + d[..wcnt] == d[..wcnt];
        SizedWritten(fs.g, fs.view, file, |f0.chain|, f0.fptr);
      } else {
        MidPlace(fs.g, w0, f0);
        MidLocated(fs.g, w0, f0);
        wcnt := WriteTail(d, sect);
        SizedNot(fs.g, fs.view, file);
      }
    }

    /** The loop of f_write. */
    method WriteAll(d: seq<byte>) returns (bw: nat, res: FatVolume.Result)
      requires Tied() && Cursor(fs.g, file) && fptr + |d| < WORD
      modifies `fptr, `objsize, `clust, `sclust, `dirty, `sect, `file, fs, fs.win, buf
      ensures Tied() && Cursor(fs.g, file) && bw <= |d| && Wrote(fs.g, old(fs.view), old(file), fs.view, file, d[..bw])
      ensures bw < |d| && res == Success ==> NoSpace(fs)
      ensures bw < |d| ==> fptr == objsize == SS * (fs.g.csize * |file.chain|)
      ensures res != Success ==> bw < |d|
      ensures res != Success ==> res == IntErr && BadEntry(TableOf(fs.g, fs.view))
      ensures old(TrueCount(fs)) ==> TrueCount(fs)
      ensures Sized(fs.g, |old(file.chain)|, |file.chain|, objsize) && old(objsize) <= objsize
    {
      hide Sized, Needed, Balanced, Apart, Base, Image, TableOf, FatWindow.Valid, Extends, Contents, NoSpace,
          BadEntry, Splice, Counted;
      ghost var w0, f0 := fs.view, file;
      SameSelf(fs.g, w0, f0);
      ExtendsSame(fs.g, w0, f0, w0, f0);
      CursorFits(fs.g, f0);
      WroteNothing(fs.g, w0, f0, w0, f0);
      bw, res := 0, Success;
      assert d[..0] == [];
      SizedNot(fs.g, w0, f0);
      while bw < |d|
        invariant Sized(fs.g, |f0.chain|, |file.chain|, objsize) && f0.objsize <= objsize
        invariant Tied() && Cursor(fs.g, file) && bw <= |d| && Wrote(fs.g, w0, f0, fs.view, file, d[..bw])
            && res == Success
        invariant old(TrueCount(fs)) ==> TrueCount(fs)
      {
        ghost var w1, f1 := fs.view, file;
        var wcnt;
        wcnt, res := WritePart(d[bw..]);
        WroteTrans(fs.g, w0, f0, w1, f1, fs.view, file, d[..bw], d[bw..][..wcnt]);
        SizedTrans(fs.g, |f0.chain|, |f1.chain|, |file.chain|, f1.objsize, objsize);
        assert d[..bw] + d[bw..][..wcnt] == d[..bw + wcnt];
        bw := bw + wcnt;
        if wcnt == 0 {
          break;
        }
      }
    }

    /** f_write of the first btw bytes of buff. */
    method Write(buff: seq<byte>, btw: nat) returns (res: FatVolume.Result, bw: nat)
      requires Valid() && btw <= |buff| && btw < WORD
      modifies this, fs, fs.win, buf
      ensures Valid() && bw <= WriteCount(old(fptr), btw) && fptr == old(fptr) + bw
      ensures old(file.chain) <= file.chain && Apart(fs.g, old(fs.view), old(file.chain), fs.view, file.chain)
      ensures old(err) == Success && canWrite ==>
                && old(fptr) <= old(objsize) && Bytes() == Splice(old(Bytes()), old(fptr), buff[..bw])
                && (res == Success ==> err == Success && modified && (bw < WriteCount(old(fptr), btw) ==> NoSpace(fs)))
                && (res != Success ==>
                    res == err == IntErr && BadEntry(TableOf(fs.g, fs.view)) && bw < WriteCount(old(fptr), btw))
                && (bw < WriteCount(old(fptr), btw) ==> fptr == objsize == SS * (fs.g.csize * |file.chain|))
      ensures !(old(err) == Success && canWrite) ==>
                && bw == 0 && res == (if old(err) != Success then old(err) else Denied) && err == old(err)
                && file == old(file) && fs.view == old(fs.view)
      ensures old(TrueCount(fs)) ==> TrueCount(fs)
      ensures Sized(fs.g, |old(file.chain)|, |file.chain|, objsize)
      ensures Balanced(fs.g, old(fs.view), old(file.chain), fs.view, file.chain)
    {
      hide Sized, Needed, Balanced, Apart, Base, Image, TableOf, FatWindow.Valid, Contents, NoSpace, BadEntry, Splice,
          Counted;
      BaseValid(fs.g, fs.view, file);
      ApartSelf(fs.g, fs.view, file.chain);
      SizedNot(fs.g, fs.view, file);
      BalancedSelf(fs.g, fs.view, file.chain);
      if err != Success {
        return err, 0;
      }
      if !canWrite {
        return Denied, 0;
      }
      FptrFits(fs.g, fs.view, file);
      ClipCount(fptr, btw);
      var n := btw;
      if (fptr + btw) % WORD < fptr {
        n := WORD - 1 - fptr;
      }
      bw, res := WriteAll(buff[..n]);
      assert buff[..n][..bw] == buff[..bw];
      if res != Success {
        err := res;
        return;
      }
      modified := true;
    }

    /** Put the cursor at the start of a cluster on the way to the target. */
    method Place(p: nat, c: nat)
      requires Tied() && p < WORD
      modifies `fptr, `clust, `file
      ensures Tied() && file == old(file).(fptr := p, clust := c) && SameFile(fs.g, fs.view, old(file), fs.view, file)
    {
      hide Apart, Base, Image, TableOf, FatWindow.Valid, SameFile;
      SeekSame(fs.g, fs.view, file, p, c);
      SameFacts(fs.g, fs.view, file, fs.view, file.(fptr := p, clust := c));
      fptr, clust := p, c;
      file := file.(fptr := p, clust := c);
    }

    /** Where f_lseek starts: the current cluster if the target is not before it, else the
        first one, which is allocated if the file has none. */
    method SeekStart(ofs: nat) returns (rest: nat, clst: nat, ghost q: nat)
      requires Tied() && Cursor(fs.g, file) && 0 < ofs < WORD && (!canWrite ==> ofs <= objsize)
      modifies `fptr, `clust, `sclust, `file, fs, fs.win
      ensures Tied() && Extends(fs.g, old(fs.view), old(file), fs.view, file)
      ensures clst >= 2 ==> AtCluster(fs.g, file, clst, q) && rest > 0 && fptr + rest == ofs
      ensures clst < 2 ==> AtEnd(fs.g, file) && fptr < ofs && canWrite
      ensures clst == 0 ==> NoSpace(fs)
      ensures clst == 1 ==> BadEntry(TableOf(fs.g, fs.view))
      ensures old(TrueCount(fs)) ==> TrueCount(fs)
      ensures clst >= 2 ==> |file.chain| == if |old(file.chain)| < q + 1 then q + 1 else |old(file.chain)|
    {
      hide Sized, Needed, Balanced, Apart, Base, Image, TableOf, FatWindow.Valid, ClusterIndex, And, Extends, NoSpace,
          BadEntry, Counted;
      ghost var w0, f0 := fs.view, file;
      SeekPlace(fs.g, w0, f0, ofs);
      rest, q := ofs, 0;
      var bcs := fs.g.csize * SS;
      if fptr > 0 && (ofs - 1) / bcs >= (fptr - 1) / bcs {
        var p := And(fptr - 1, WORD - 1 - (bcs - 1));
        q := ClusterIndex(fs.g, fptr - 1);
        rest := ofs - p;
        clst := clust;
        Place(p, clst);
        ExtendsSame(fs.g, w0, f0, fs.view, file);
      } else {
        Place(0, clust);
        ghost var w1, f1 := fs.view, file;
        ExtendsSame(fs.g, w0, f0, w1, f1);
        clst := sclust;
        if clst == 0 {
          clst := Stretch(0, 0);
          ExtendsTrans(fs.g, w0, f0, w1, f1, fs.view, file);
          if clst == 1 {
            return;
          }
        }
        ghost var w2, f2 := fs.view, file;
        Place(0, clst);
        ExtendsSame(fs.g, w2, f2, fs.view, file);
        ExtendsTrans(fs.g, w0, f0, w2, f2, fs.view, file);
      }
    }

    /** Follow or stretch the chain until the target is in the current cluster. */
    method SeekFollow(rest0: nat, clst0: nat, ghost q0: nat, ghost ofs: nat) returns (rest: nat, clst: nat,
        ghost q: nat)
      requires Tied() && AtCluster(fs.g, file, clst0, q0) && clst0 >= 2 && rest0 > 0 && fptr + rest0 == ofs < WORD
      requires !canWrite ==> ofs <= objsize
      requires |file.chain| >= q0 + 1
      modifies `fptr, `clust, `sclust, `file, fs, fs.win
      ensures Tied() && Extends(fs.g, old(fs.view), old(file), fs.view, file)
      ensures clst >= 2 ==> AtCluster(fs.g, file, clst, q) && 0 < rest <= fs.g.csize * SS && fptr + rest == ofs
      ensures clst < 2 ==> rest == 0 && AtEnd(fs.g, file) && fptr < ofs && canWrite
      ensures clst == 0 ==> NoSpace(fs)
      ensures clst == 1 ==> BadEntry(TableOf(fs.g, fs.view))
      ensures old(TrueCount(fs)) ==> TrueCount(fs)
      ensures clst >= 2 ==> |file.chain| == if |old(file.chain)| < q + 1 then q + 1 else |old(file.chain)|
      ensures q >= q0
    {
      hide Sized, Needed, Balanced, Apart, Base, Image, TableOf, FatWindow.Valid, AtCluster, Extends, NoSpace,
          BadEntry, AtEnd, Counted;
      ghost var w0, f0 := fs.view, file;
      SameSelf(fs.g, w0, f0);
      ExtendsSame(fs.g, w0, f0, w0, f0);
      rest, clst, q := rest0, clst0, q0;
      var bcs := fs.g.csize * SS;
      while rest > bcs
        invariant Tied() && Extends(fs.g, w0, f0, fs.view, file) && objsize == f0.objsize
        invariant clst >= 2 && AtCluster(fs.g, file, clst, q) && rest > 0 && fptr + rest == ofs
        invariant q >= q0 && |file.chain| == if |f0.chain| < q + 1 then q + 1 else |f0.chain|
        invariant old(TrueCount(fs)) ==> TrueCount(fs)
        decreases rest
      {
        ghost var w1, f1 := fs.view, file;
        clst := SeekNext(clst, q, ofs);
        ExtendsTrans(fs.g, w0, f0, w1, f1, fs.view, file);
        ExtendsSize(fs.g, w0, f0, fs.view, file);
        if clst < 2 {
          rest := 0;
          break;
        }
        rest := rest - bcs;
        q := q + 1;
      }
    }

    /** One step of the cluster following loop of f_lseek. */
    method SeekNext(clst0: nat, ghost q: nat, ghost ofs: nat) returns (clst: nat)
      requires Tied() && AtCluster(fs.g, file, clst0, q) && fptr + fs.g.csize * SS < ofs < WORD
          && (!canWrite ==> ofs <= objsize)
      modifies `fptr, `clust, `sclust, `file, fs, fs.win
      ensures Tied() && Extends(fs.g, old(fs.view), old(file), fs.view, file)
      ensures fptr == old(fptr) + fs.g.csize * SS
      ensures clst >= 2 ==> AtCluster(fs.g, file, clst, q + 1)
      ensures clst < 2 ==> AtEnd(fs.g, file) && canWrite
      ensures clst == 0 ==> NoSpace(fs)
      ensures clst == 1 ==> BadEntry(TableOf(fs.g, fs.view))
      ensures old(TrueCount(fs)) ==> TrueCount(fs)
      ensures clst >= 2 ==> |file.chain| == if |old(file.chain)| < q + 2 then q + 2 else |old(file.chain)|
    {
      hide Sized, Needed, Balanced, Apart, Base, Image, TableOf, FatWindow.Valid, Extends, NoSpace, BadEntry, Counted;
      ghost var w0, f0 := fs.view, file;
      NextPlace(fs.g, w0, f0, clst0, q, ofs);
      Place(fptr + fs.g.csize * SS, clst0);
      ghost var w1, f1 := fs.view, file;
      ExtendsSame(fs.g, w0, f0, w1, f1);
      if canWrite {
        clst := Stretch(clst0, q + 1);
        ExtendsTrans(fs.g, w0, f0, w1, f1, fs.view, file);
        if clst < 2 {
          return;
        }
      } else {
        clst := fs.GetFat(clst0);
        AccessSame(fs.g, w1, fs.view, f1);
        ExtendsSame(fs.g, w1, f1, fs.view, f1);
        ExtendsTrans(fs.g, w0, f0, w1, f1, fs.view, file);
      }
      ghost var w2, f2 := fs.view, file;
      Place(fptr, clst);
      ExtendsSame(fs.g, w2, f2, fs.view, file);
      ExtendsTrans(fs.g, w0, f0, w2, f2, fs.view, file);
    }

    /** Move over the rest of the way, raise the size, show the sector under the cursor. */
    method SeekFinish(rest: nat, clst: nat, ghost q: nat)
      requires Tied() && fptr + rest < WORD
      requires if rest > 0 then AtCluster(fs.g, file, clst, q) && rest <= fs.g.csize * SS
               else AtEnd(fs.g, file) || fptr == 0
      modifies `fptr, `objsize, `modified, `dirty, `sect, `file, fs`disk, fs`view, buf
      ensures Tied() && Cursor(fs.g, file) && fptr == old(fptr) + rest
      ensures Grew(fs.g, old(fs.view), old(file), fs.view, file)
          && objsize == (if fptr > old(objsize) then fptr else old(objsize))
      ensures AtEnd(fs.g, old(file)) ==> AtEnd(fs.g, file) || rest > 0
      ensures TableOf(fs.g, fs.view) == TableOf(fs.g, old(fs.view))
      ensures objsize > old(objsize) ==> modified
      ensures file.chain == old(file.chain)
    {
      hide Balanced, Apart, Base, Image, TableOf, FatWindow.Valid, SectorOf, Cursor, Contents, Grew, ClusterIndex;
      ghost var w0, f0 := fs.view, file;
      FinishPlace(fs.g, w0, f0, rest, clst, q);
      fptr := fptr + rest;
      file := file.(fptr := fptr);
      var nsect := 0;
      if rest % SS != 0 {
        nsect := fs.Clst2Sect(clst);
        nsect := nsect + rest / SS;
      }
      if fptr > objsize {
        objsize := fptr;
        modified := true;
      }
      file := file.(objsize := objsize);
      ghost var f1 := file;
      if fptr % SS != 0 {
        Fill(nsect, fptr / SS);
        FinishFilled(fs.g, w0, f0, f1, fs.view, file);
      }
    }

    /** f_lseek to byte ofs. */
    method Seek(ofs: nat) returns (res: FatVolume.Result)
      requires Valid() && ofs < WORD
      modifies this, fs, fs.win, buf
      ensures Valid() && old(file.chain) <= file.chain && Apart(fs.g, old(fs.view), old(file.chain), fs.view,
          file.chain)
      ensures old(err) != Success ==> res == err == old(err) && file == old(file) && fs.view == old(fs.view)
      ensures old(err) == Success && res == Success ==>
                && err == Success && old(Bytes()) <= Bytes()
                    && objsize == (if fptr > old(objsize) then fptr else old(objsize))
                && (fptr == SeekTarget(ofs, old(objsize), canWrite)
                    || (old(objsize) <= fptr < ofs && canWrite && NoSpace(fs) && AtEnd(fs.g, file)))
                && (objsize > old(objsize) ==> modified)
      ensures old(err) == Success && res != Success ==>
                && res == err == IntErr && Bytes() == old(Bytes()) && BadEntry(TableOf(fs.g, fs.view)) && canWrite
                && old(objsize) <= fptr < ofs && AtEnd(fs.g, file)
      ensures old(TrueCount(fs)) ==> TrueCount(fs)
      ensures old(err) == Success ==>
          Sized(fs.g, |old(file.chain)|, |file.chain|, if fptr > objsize then fptr else objsize)
      ensures Balanced(fs.g, old(fs.view), old(file.chain), fs.view, file.chain)
    {
      hide Sized, Needed, Balanced, Apart, Base, Image, TableOf, FatWindow.Valid, Contents, FreeClusters, BadEntry,
          Extends, AtCluster, AtEnd,
          Grew, Counted;
      res := Success;
      BaseValid(fs.g, fs.view, file);
      ApartSelf(fs.g, fs.view, file.chain);
      BalancedSelf(fs.g, fs.view, file.chain);
      if err != Success {
        return err;
      }
      var target := ofs;
      if ofs > objsize && !canWrite {
        target := objsize;
      }
      ghost var w0, f0 := fs.view, file;
      var rest, clst := 0, 0;
      ghost var q := 0;
      SameSelf(fs.g, w0, f0);
      if target == 0 {
        Place(0, clust);
        ExtendsSame(fs.g, w0, f0, fs.view, file);
      } else {
        rest, clst, res, q := SeekWalk(target);
      }
      if res != Success {
        SeekFailed(fs.g, w0, f0, fs.view, file);
        err := res;
        return;
      }
      ghost var w1, f1 := fs.view, file;
      SeekFinish(rest, clst, q);
      SeekDone(fs.g, w0, f0, w1, f1, fs.view, file, rest, clst, q);
    }

    /** The part of f_lseek that follows the chain to a target other than 0. */
    method SeekWalk(target: nat) returns (rest: nat, clst: nat, res: FatVolume.Result, ghost q: nat)
      requires Tied() && Cursor(fs.g, file) && 0 < target < WORD && (!canWrite ==> target <= objsize)
      modifies `fptr, `clust, `sclust, `file, fs, fs.win
      ensures Tied() && Extends(fs.g, old(fs.view), old(file), fs.view, file)
      ensures res != Success ==> res == IntErr && BadEntry(TableOf(fs.g, fs.view))
      ensures res != Success || rest == 0 ==> AtEnd(fs.g, file) && fptr < target && canWrite
      ensures res == Success && rest > 0 ==>
          AtCluster(fs.g, file, clst, q) && rest <= fs.g.csize * SS && fptr + rest == target
      ensures res == Success && rest == 0 ==> NoSpace(fs)
      ensures old(TrueCount(fs)) ==> TrueCount(fs)
      ensures res == Success && rest > 0 ==> |file.chain| == if |old(file.chain)| < q + 1 then q + 1
          else |old(file.chain)|
    {
      hide Sized, Needed, Balanced, Apart, Base, Image, TableOf, FatWindow.Valid, NoSpace, BadEntry, Extends,
          AtCluster, AtEnd, Cursor, Counted;
      ghost var w0, f0 := fs.view, file;
      rest, clst, q := SeekStart(target);
      res := if clst == 1 then IntErr else Success;
      if clst < 2 {
        rest := 0;
        return;
      }
      ghost var w1, f1 := fs.view, file;
      ExtendsSize(fs.g, w0, f0, w1, f1);
      rest, clst, q := SeekFollow(rest, clst, q, target);
      ExtendsTrans(fs.g, w0, f0, w1, f1, fs.view, file);
      res := if clst == 1 then IntErr else Success;
    }

    /** f_truncate at the cursor. */
    method Truncate() returns (res: FatVolume.Result)
      requires Valid()
      modifies this, fs, fs.win, buf
      ensures Valid() && err == old(err) && fptr == old(fptr)
          && Apart(fs.g, old(fs.view), old(file.chain), fs.view, file.chain)
      ensures err == Success && canWrite ==>
                && res == Success && fptr <= old(objsize) && Bytes() == old(Bytes())[..fptr]
                && (fptr < old(objsize) ==>
                      modified && !dirty && file.chain <= old(file.chain) && |file.chain| == Needed(fs.g, fptr))
                && (fptr == old(objsize) ==> file == old(file) && fs.view == old(fs.view))
      ensures Balanced(fs.g, old(fs.view), old(file.chain), fs.view, file.chain)
      ensures !(err == Success && canWrite) ==>
                res == (if err != Success then err else Denied) && file == old(file) && fs.view == old(fs.view)
      ensures old(TrueCount(fs)) ==> TrueCount(fs)
    {
      hide Balanced, Needed, Apart, Base, Image, TableOf, FatWindow.Valid, Contents, FreeClusters, Kept, Tight,
          CutTable, Keeps, Cursor,
          FlushedDisk, Counted;
      BaseValid(fs.g, fs.view, file);
      BalancedSelf(fs.g, fs.view, file.chain);
      ApartSelf(fs.g, fs.view, file.chain);
      if err != Success {
        return err;
      }
      if !canWrite {
        return Denied;
      }
      ghost var w0, f0 := fs.view, file;
      res := Success;
      CutPlace(fs.g, w0, f0);
      if fptr < objsize {
        res := CutChain(Kept(fs.g, f0));
        CutDone(fs.g, w0, f0, fs.view);
        CutBalanced(fs.g, w0, f0, fs.view);
        if fptr == 0 {
          sclust := 0;
        }
        objsize := fptr;
        modified := true;
        WriteBack(f0);
        file := Shortened(f0, Kept(fs.g, f0));
      }
    }

    /** Write back the buffer if it is dirty, whether or not it is still a sector of the file. */
    method WriteBack(ghost f0: File)
      requires buf.Length == SS && fs.Valid() && dirty == f0.dirty && sect == f0.sect && buf[..] == f0.buf
      requires dirty ==> fs.g.database <= sect < fs.g.sectors
      modifies `dirty, fs`disk, fs`view
      ensures fs.Valid() && !dirty && fs.view == old(fs.view).(disk := FlushedDisk(old(fs.view).disk, f0))
      ensures TableOf(fs.g, fs.view) == TableOf(fs.g, old(fs.view))
    {
      hide Apart, FatWindow.Valid, PutSectors;
      if dirty {
        PutOne(fs.view.disk, sect, buf[..]);
        fs.DiskWrite(sect, buf[..], 1);
        dirty := false;
      }
    }

    /** Free the clusters behind the cursor. */
    method CutChain(ghost k: nat) returns (res: FatVolume.Result)
      requires Tied() && Cursor(fs.g, file) && fptr < objsize && k == Kept(fs.g, file)
      modifies fs, fs.win
      ensures fs.Valid() && Keeps(fs.g, old(fs.view), fs.view) && res == Success
      ensures k <= |file.chain| && CutTable(fs.g, TableOf(fs.g, old(fs.view)), TableOf(fs.g, fs.view), file.chain, k)
      ensures old(TrueCount(fs)) ==> TrueCount(fs)
    {
      hide Apart, Base, TableOf, FatWindow.Valid, FreeClusters, Removed, Severed, Kept, Keeps, CutTable, Freed, Counted;
      ghost var w0, free0 := fs.view, fs.freeClst;
      CutPlace(fs.g, w0, file);
      if fptr == 0 {
        res := fs.RemoveChain(sclust, 0);
        CutRemoved(fs.g, w0, file, k, fs.view, free0, fs.freeClst, res == Success);
      } else {
        var ncl := fs.GetFat(clust);
        ghost var w1 := fs.view;
        res := Success;
        CutNothing(fs.g, w0, file, k, w1);
        if ncl < fs.g.nFatent {
          res := fs.RemoveChain(ncl, clust);
          KeepsTrans(fs.g, w0, w1, fs.view);
          CutRemoved(fs.g, w0, file, k, fs.view, free0, fs.freeClst, res == Success);
        }
      }
    }
  }

  /** The table after the chain lost its elements from k on. */
  predicate CutTable(g: Geometry, t: seq<nat>, t': seq<nat>, ch: seq<nat>, k: nat) {
    && k <= |ch| && (k > 0 ==> ch[k - 1] < |t|)
    && t' == if k < |ch| then Severed(t, ch, k, Cut(g.fsType, EOC)) else t
  }

  lemma CutPlace(g: Geometry, w: Window, f: File)
    requires Base(g, w, f) && Cursor(g, f)
    ensures f.fptr <= f.objsize == |Contents(g, w, f)|
    ensures f.fptr < f.objsize ==>
              var t, k := TableOf(g, w), Kept(g, f);
              && k <= |f.chain| && f.fptr <= SS * (g.csize * k) && (f.fptr == 0) == (k == 0) && f.chain != []
              && (k == 0 ==> f.sclust == f.chain[0]) && (k > 0 ==> f.clust == f.chain[k - 1])
              && (k < |f.chain| ==> 2 <= f.chain[k] < g.nFatent)
              && (k > 0 ==>
                  2 <= f.clust < g.nFatent && t[f.clust] == Follower(t, f.chain, k)
                  && (k < |f.chain| <==> t[f.clust] < g.nFatent))
              && g.nFatent < WORD && Cut(g.fsType, EOC) >= g.nFatent && IsChain(t, f.chain)
  {
    hide Apart, TableOf, FatWindow.Valid, OfFile, Cached, Foreign, Image, ClusterIndex;
    SmallTable(g, w);
    if f.fptr < f.objsize {
      var t, k := TableOf(g, w), Kept(g, f);
      if f.chain == [] {
        TimesZero(g.csize);
      }
      if k > 0 {
        ChainNext(t, f.chain, k - 1);
        IndexBound(g, f.fptr - 1, k);
      }
    }
  }

  function Follower(t: seq<nat>, ch: seq<nat>, k: nat): nat
    requires 0 < k <= |ch| && ch[k - 1] < |t|
  {
    if k < |ch| then ch[k] else t[ch[k - 1]]
  }

  lemma CappedCount(t: seq<nat>, ch: seq<nat>, k: nat, eoc: nat, free: nat)
    requires IsChain(t, ch) && 0 < k < |ch| && eoc > 0
    ensures Cluster(t, ch[k - 1]) && Counted(t, free) == Counted(Capped(t, ch[k - 1], eoc), free)
  {
    ChainNext(t, ch, k - 1);
    CountUpdate(t, |t|, ch[k - 1], eoc);
  }

  lemma CappedNone(t: seq<nat>, eoc: nat)
    ensures Capped(t, 0, eoc) == t
  {
  }

  lemma CutRemoved(g: Geometry, w0: Window, f: File, k: nat, w: Window, free0: nat, free: nat, ok: bool)
    requires Base(g, w0, f) && FatWindow.Valid(g, w) && k < |f.chain| && IsChain(TableOf(g, w0), f.chain)
    requires var pclst := if k == 0 then 0 else f.chain[k - 1];
      && (pclst == 0 || Cluster(TableOf(g, w0), pclst))
      && Removed(Capped(TableOf(g, w0), pclst, Cut(g.fsType, EOC)), free0, f.chain[k], TableOf(g, w), free, ok)
    ensures ok && CutTable(g, TableOf(g, w0), TableOf(g, w), f.chain, k)
    ensures Counted(TableOf(g, w0), free0) ==> Counted(TableOf(g, w), free)
  {
    hide Apart, TableOf, FatWindow.Valid, Base, FreeClusters, Freed, Severed, Capped, Counted;
    SmallTable(g, w);
    RemovedSuffix(TableOf(g, w0), f.chain, k, Cut(g.fsType, EOC));
    if k > 0 {
      CappedCount(TableOf(g, w0), f.chain, k, Cut(g.fsType, EOC), free0);
    } else {
      CappedNone(TableOf(g, w0), Cut(g.fsType, EOC));
    }
    assert k > 0 ==> Cluster(TableOf(g, w0), f.chain[k - 1]);
  }

  lemma CutNothing(g: Geometry, w0: Window, f: File, k: nat, w: Window)
    requires Base(g, w0, f) && FatWindow.Valid(g, w) && TableOf(g, w) == TableOf(g, w0) && k <= |f.chain|
    requires k > 0 ==> f.chain[k - 1] < g.nFatent
    ensures k == |f.chain| ==> CutTable(g, TableOf(g, w0), TableOf(g, w), f.chain, k)
  {
    hide Apart, TableOf, FatWindow.Valid, Base, Severed;
  }

  lemma PutOne(disk: seq<Sector>, s: nat, b: Sector)
    requires s < |disk|
    ensures PutSectors(disk, s, b, 1) == disk[s := b]
  {
    assert b[SS * 0..SS * 1] == b;
  }

  /** After the clusters are freed and the buffer is written back the file is its prefix. */
  lemma CutDone(g: Geometry, w0: Window, f: File, w: Window)
    requires Base(g, w0, f) && Cursor(g, f) && f.fptr < f.objsize && Keeps(g, w0, w)
    requires CutTable(g, TableOf(g, w0), TableOf(g, w), f.chain, Kept(g, f))
    ensures f.dirty ==> g.database <= f.sect < g.sectors
    ensures var k := Kept(g, f); var w2, f2 := w.(disk := FlushedDisk(w.disk, f)), Shortened(f, k);
      && Base(g, w2, f2) && Cursor(g, f2) && Tight(g, f2) && f2.chain <= f.chain
      && Contents(g, w2, f2) == Contents(g, w0, f)[..f.fptr]
      && FreeClusters(TableOf(g, w2)) == FreeClusters(TableOf(g, w0)) + |f.chain| - |f2.chain|
      && Apart(g, w0, f.chain, w2, f2.chain)
  {
    hide Apart, TableOf, FatWindow.Valid, Severed, FreeClusters, Image, Slice, Mirrored, SameOutside, Logical,
        ClusterIndex, Linked, Foreign, Cached, SectorOf;
    CutPlace(g, w0, f);
    var k := Kept(g, f);
    CutLinked(g, w0, f, w, k);
    ShortenedKeeps(g, w0, w, f, k);
    CutCursor(g, f, k);
    DirtyPlace(g, w0, f);
    var w2, f2 := w.(disk := FlushedDisk(w.disk, f)), Shortened(f, k);
    ApartCut(g, w0, w, w2, f, k, Cut(g.fsType, EOC));
    var img, img2 := Image(g, w0.disk, f), Image(g, w2.disk, f2);
    CapacityOf(g, w0, f);
    CapacityOf(g, w2, f2);
    SliceEqual(img2, img, 0, f.fptr);
    SliceOf(img, f.objsize, 0, f.fptr);
    if k < |f.chain| {
      RemovedSuffix(TableOf(g, w0), f.chain, k, Cut(g.fsType, EOC));
    }
  }

  lemma CutBalanced(g: Geometry, w0: Window, f: File, w: Window)
    requires Base(g, w0, f) && Cursor(g, f) && f.fptr < f.objsize && Keeps(g, w0, w)
    requires CutTable(g, TableOf(g, w0), TableOf(g, w), f.chain, Kept(g, f))
    ensures f.dirty ==> g.database <= f.sect < g.sectors
    ensures var w2, f2 := w.(disk := FlushedDisk(w.disk, f)), Shortened(f, Kept(g, f));
      Balanced(g, w0, f.chain, w2, f2.chain) && |f2.chain| == Needed(g, f.fptr)
  {
    hide Apart, TableOf, FatWindow.Valid, FreeClusters, Keeps, Base, Cursor, FlushedDisk, ClusterIndex, Needed, Severed;
    CutDone(g, w0, f, w);
    if f.fptr > 0 {
      NeededIndex(g, f.fptr);
    } else {
      NeededNone(g);
    }
  }

  lemma NeededNone(g: Geometry)
    ensures Needed(g, 0) == 0
  {
  }

  lemma DirtyPlace(g: Geometry, w: Window, f: File)
    requires Base(g, w, f)
    ensures f.dirty ==> g.database <= f.sect < g.sectors
  {
    hide Apart, TableOf, FatWindow.Valid, ClusterOf, Linked, Foreign;
  }

  lemma CutLinked(g: Geometry, w0: Window, f: File, w: Window, k: nat)
    requires Base(g, w0, f) && FatWindow.Valid(g, w) && k <= |f.chain| && IsChain(TableOf(g, w0), f.chain)
        && f.chain != []
    requires CutTable(g, TableOf(g, w0), TableOf(g, w), f.chain, k)
    ensures Linked(g, w, Shortened(f, k))
  {
    hide Apart, TableOf, FatWindow.Valid, Cached, Foreign, Severed, Capacity;
    SmallTable(g, w0);
    if 0 < k < |f.chain| {
      FatChain.CutChain(TableOf(g, w0), f.chain, k, Cut(g.fsType, EOC));
    } else if k == |f.chain| {
      assert f.chain[..k] == f.chain;
    }
  }

  lemma CutCursor(g: Geometry, f: File, k: nat)
    requires g.csize > 0 && Clusters(g, f.chain) && Cursor(g, f) && k == Kept(g, f) <= |f.chain| && f.fptr < f.objsize
    ensures Clusters(g, Shortened(f, k).chain) && Cursor(g, Shortened(f, k)) && Tight(g, Shortened(f, k))
  {
    hide Apart, ClusterIndex, SectorOf;
    var f2 := Shortened(f, k);
    if f.fptr > 0 {
      IndexBound(g, f.fptr - 1, k);
      if f.fptr % SS != 0 {
        NextIndex(g, f.fptr);
        IndexBound(g, f.fptr, k);
        CutSector(g, f.chain, k, f.fptr / SS);
      }
    }
  }

  lemma OpenedBase(g: Geometry, w: Window, f: File)
    requires FatWindow.Valid(g, w) && Linked(g, w, f) && Capacity(g, f) && f.fptr == 0 && f.sect == 0 && !f.dirty
    requires g.csize > 0 && (w.wflag ==> !OfFile(g, f.chain, w.winsect))
    ensures Base(g, w, f) && Cursor(g, f)
  {
    hide Apart, TableOf, FatWindow.Valid, OfFile;
    assert IsChain(TableOf(g, w), f.chain) ==> forall k :: 0 <= k < |f.chain| ==> Cluster(TableOf(g, w), f.chain[k]);
  }

  lemma FlushPlace(g: Geometry, w: Window, f: File)
    requires Base(g, w, f) && f.dirty
    ensures g.database <= f.sect < g.sectors && |w.disk| == g.sectors
    ensures PutSectors(w.disk, f.sect, f.buf, 1) == w.disk[f.sect := f.buf]
    ensures SameFile(g, w, f, w.(disk := w.disk[f.sect := f.buf]), f.(dirty := false))
  {
    hide Apart, Image, TableOf, FatWindow.Valid, ClusterOf, Linked, Distinct;
    FlushKeeps(g, w, f);
    ApartWrite(g, w, w.(disk := w.disk[f.sect := f.buf]), f.chain);
    assert f.buf[SS * 0..SS * 1] == f.buf;
  }

  lemma FillPlace(g: Geometry, w: Window, f: File, j: nat)
    requires Base(g, w, f) && !f.dirty && j < g.csize * |f.chain|
    ensures SectorOf(g, f.chain, j) < |w.disk|
    ensures var s := SectorOf(g, f.chain, j); SameFile(g, w, f, w, f.(sect := s, buf := w.disk[s]))
  {
    hide Apart, Image, TableOf, FatWindow.Valid, ClusterOf, Linked, Distinct;
    LoadKeeps(g, w, f, j);
    ApartSelf(g, w, f.chain);
  }

  lemma SameImage(g: Geometry, w0: Window, f0: File, w: Window, f: File)
    requires SameFile(g, w0, f0, w, f)
    ensures Base(g, w0, f0) && Base(g, w, f) && Image(g, w.disk, f) == Image(g, w0.disk, f0) && f.objsize == f0.objsize
    ensures f.chain == f0.chain && Contents(g, w, f) == Contents(g, w0, f0) && TableOf(g, w) == TableOf(g, w0)
    ensures f.objsize <= SS * |Image(g, w.disk, f)|
  {
    hide Apart, Image, TableOf, FatWindow.Valid, Linked, Cached, Foreign, Slice;
  }

  /** One more piece of a buffer filled from the left. */
  lemma Pieces(got: seq<byte>, s: seq<byte>, br: nat, rcnt: nat, n: nat, rest: seq<byte>)
    requires br + rcnt <= n <= |s| && |got| == br && |rest| == |s| - br && s[..br] == got
        && s[br + rcnt..] == rest[rcnt..]
    ensures s[..br + rcnt] == got + s[br..br + rcnt] && s[n..] == rest[n - br..]
  {
    assert s[n..] == s[br + rcnt..][n - br - rcnt..];
    assert rest[n - br..] == rest[rcnt..][n - br - rcnt..];
  }

  lemma SliceEmpty(img: seq<Sector>, a: nat)
    requires a <= SS * |img|
    ensures Slice(img, a, a) == []
  {
  }

  lemma SliceJoin(img: seq<Sector>, a: nat, b: nat, c: nat)
    requires a <= b <= c <= SS * |img|
    ensures Slice(img, a, c) == Slice(img, a, b) + Slice(img, b, c)
  {
    hide Apart, ByteAt;
  }

  lemma SliceOf(img: seq<Sector>, n: nat, a: nat, b: nat)
    requires a <= b <= n <= SS * |img|
    ensures Slice(img, a, b) == Slice(img, 0, n)[a..b]
  {
    hide Apart, ByteAt;
  }

  /** Clusters may have been appended; what the file held is unchanged. */
  ghost predicate Extends(g: Geometry, w0: Window, f0: File, w: Window, f: File) {
    && Base(g, w0, f0) && Base(g, w, f) && f0.chain <= f.chain && f.objsize == f0.objsize
    && |Image(g, w0.disk, f0)| <= |Image(g, w.disk, f)| && Image(g, w.disk, f)[..|Image(g, w0.disk, f0)|]
        == Image(g, w0.disk, f0)
    && Apart(g, w0, f0.chain, w, f.chain) && Balanced(g, w0, f0.chain, w, f.chain)
  }

  lemma ExtendsSame(g: Geometry, w0: Window, f0: File, w: Window, f: File)
    requires SameFile(g, w0, f0, w, f)
    ensures Extends(g, w0, f0, w, f)
  {
    hide Apart, Base, Image, TableOf;
    assert Image(g, w.disk, f)[..|Image(g, w0.disk, f0)|] == Image(g, w0.disk, f0);
  }

  lemma ExtendsTrans(g: Geometry, w0: Window, f0: File, w1: Window, f1: File, w2: Window, f2: File)
    requires Extends(g, w0, f0, w1, f1) && Extends(g, w1, f1, w2, f2)
    ensures Extends(g, w0, f0, w2, f2)
  {
    hide Apart, Base, Image;
    ApartTrans(g, w0, f0.chain, w1, f1.chain, w2, f2.chain);
    var a, b, c := Image(g, w0.disk, f0), Image(g, w1.disk, f1), Image(g, w2.disk, f2);
    assert c[..|a|] == c[..|b|][..|a|];
  }

  lemma ExtendsContents(g: Geometry, w0: Window, f0: File, w: Window, f: File)
    requires Extends(g, w0, f0, w, f)
    ensures Base(g, w0, f0) && Base(g, w, f) && Contents(g, w, f) == Contents(g, w0, f0)
  {
    hide Apart, Image, Slice, Linked, Cached, Foreign, FatWindow.Valid;
    SliceEqual(Image(g, w0.disk, f0), Image(g, w.disk, f), 0, f0.objsize);
  }

  lemma ExtendsGrown(g: Geometry, w: Window, w': Window, f: File, ncl: nat, eoc: nat)
    requires Base(g, w, f) && Keeps(g, w, w') && w'.winsect < g.database
    requires Cluster(TableOf(g, w), ncl) && TableOf(g, w)[ncl] == 0 && eoc >= g.nFatent
    requires LastCluster(f) < g.nFatent && TableOf(g, w') == Stretched(TableOf(g, w), LastCluster(f), ncl, eoc)
    ensures Extends(g, w, f, w', Grown(f, ncl))
  {
    hide Apart, Base, Image, TableOf, Keeps;
    GrownKeeps(g, w, w', f, ncl, eoc);
    GrownBalanced(g, w, w', f, ncl, eoc);
    LinkedOf(g, w, f);
    ApartGrown(g, w, w', f, ncl, eoc);
  }

  lemma GrownBalanced(g: Geometry, w: Window, w': Window, f: File, ncl: nat, eoc: nat)
    requires Base(g, w, f) && FatWindow.Valid(g, w') && Cluster(TableOf(g, w), ncl) && TableOf(g, w)[ncl] == 0
    requires eoc >= g.nFatent && LastCluster(f) < g.nFatent
    requires TableOf(g, w') == Stretched(TableOf(g, w), LastCluster(f), ncl, eoc)
    ensures Balanced(g, w, f.chain, w', Grown(f, ncl).chain)
  {
    hide TableOf, FatWindow.Valid, Cached, Foreign, Capacity, FreeClusters, Stretched;
    if f.chain != [] {
      ChainNext(TableOf(g, w), f.chain, |f.chain| - 1);
    }
    StretchedCount(TableOf(g, w), LastCluster(f), ncl, eoc);
  }

  lemma LinkedOf(g: Geometry, w: Window, f: File)
    requires Base(g, w, f)
    ensures Linked(g, w, f)
  {
  }

  /** What create_chain does at element i of the file's chain. */
  lemma StretchPlace(g: Geometry, w: Window, f: File, i: nat, last: nat, free: nat)
    requires Base(g, w, f) && i <= |f.chain| && (i == 0 ==> f.chain == [])
    ensures var t, clst, eoc := TableOf(g, w), if i == 0 then 0 else f.chain[i - 1], Cut(g.fsType, EOC);
      && clst < g.nFatent < WORD && LastCluster(f) < g.nFatent <= eoc && |t| >= 3
      && (i < |f.chain| ==>
          f.chain[i] >= 2 && Outcome(t, last, free, clst) == f.chain[i] && Created(t, last, free, clst, eoc) == t)
      && (i == |f.chain| ==>
            var r := Outcome(t, last, free, clst);
            && (r == 0 ==> (free == 0 || FreeClusters(t) == 0)) && (r == 1 ==> BadEntry(t))
            && (r < 2 ==> Created(t, last, free, clst, eoc) == t)
            && (r >= 2 ==> Took(t, last, free, clst) && Cluster(t, r) && t[r] == 0
                           && Created(t, last, free, clst, eoc) == Stretched(t, LastCluster(f), r, eoc)))
      && ((f.sclust == 0) == (f.chain == []))
  {
    hide Apart, TableOf, FatWindow.Valid, Cached, Foreign, Capacity, Choice, FreeClusters, BadEntry;
    SmallTable(g, w);
    var t := TableOf(g, w);
    if i > 0 {
      ChainNext(t, f.chain, i - 1);
      ChainNext(t, f.chain, |f.chain| - 1);
      ChoiceMeaning(t, last, f.chain[i - 1]);
    } else {
      ChoiceMeaning(t, last, 0);
    }
    if i < |f.chain| {
      ChainUsed(t, f.chain, i);
    }
  }

  lemma ExtendsBase(g: Geometry, w0: Window, f0: File, w: Window, f: File)
    requires Extends(g, w0, f0, w, f)
    ensures Base(g, w0, f0) && Base(g, w, f) && f0.chain <= f.chain
  {
  }

  /** A cursor behind the last cluster is at the end of the file. */
  lemma NoMore(g: Geometry, f: File)
    requires g.csize > 0 && Clusters(g, f.chain) && Cursor(g, f) && f.fptr % SS == 0
    ensures ClusterIndex(g, f.fptr) >= |f.chain| ==> f.fptr == f.objsize == SS * (g.csize * |f.chain|)
    ensures f.chain == [] ==> f.fptr == f.objsize == SS * (g.csize * |f.chain|)
  {
    IndexBound(g, f.fptr, |f.chain|);
    if f.chain == [] {
      TimesZero(g.csize);
    }
  }

  /** Where the byte at the cursor goes: the current cluster, the file's first, or the one
      after the current. */
  lemma WritePlace(g: Geometry, w: Window, f: File)
    requires Base(g, w, f) && Cursor(g, f) && f.fptr % SS == 0
    ensures f.fptr == 0 ==> ClusterIndex(g, f.fptr) == 0 && (f.fptr / SS) % g.csize == 0
    ensures f.fptr == 0 ==> if f.sclust == 0 then f.chain == [] else f.chain != [] && f.chain[0] == f.sclust >= 2
    ensures f.fptr > 0 && (f.fptr / SS) % g.csize == 0 ==>
              && 0 < ClusterIndex(g, f.fptr) <= |f.chain| && f.clust == f.chain[ClusterIndex(g, f.fptr) - 1]
    ensures f.fptr > 0 && (f.fptr / SS) % g.csize != 0 ==> Located(g, f) && f.clust >= 2
  {
    hide Apart, TableOf, FatWindow.Valid, OfFile, ClusterIndex, Cached, Foreign, Capacity;
    IndexZero(g);
    ModUnique(0, g.csize, 0, 0);
    if f.fptr > 0 {
      NextIndex(g, f.fptr);
    } else if f.sclust != 0 {
      ChainNext(TableOf(g, w), f.chain, 0);
    }
  }

  /** The bytes d were written at the cursor of f0. */
  ghost predicate Wrote(g: Geometry, w0: Window, f0: File, w: Window, f: File, d: seq<byte>) {
    && Base(g, w0, f0) && Base(g, w, f) && f0.fptr <= f0.objsize && f.fptr == f0.fptr + |d|
    && Contents(g, w, f) == Splice(Contents(g, w0, f0), f0.fptr, d)
    && f0.chain <= f.chain && Apart(g, w0, f0.chain, w, f.chain) && Balanced(g, w0, f0.chain, w, f.chain)
  }

  lemma WroteTrans(g: Geometry, w0: Window, f0: File, w1: Window, f1: File, w2: Window, f2: File, d: seq<byte>,
      e: seq<byte>)
    requires Wrote(g, w0, f0, w1, f1, d) && Wrote(g, w1, f1, w2, f2, e)
    ensures Wrote(g, w0, f0, w2, f2, d + e)
  {
    hide Apart, Base, Contents, Splice;
    SpliceTwice(Contents(g, w0, f0), f0.fptr, d, e);
    ApartTrans(g, w0, f0.chain, w1, f1.chain, w2, f2.chain);
  }

  lemma WroteNothing(g: Geometry, w0: Window, f0: File, w: Window, f: File)
    requires Extends(g, w0, f0, w, f) && f.fptr == f0.fptr <= f0.objsize
    ensures Wrote(g, w0, f0, w, f, [])
  {
    hide Apart, Base, Contents, Image;
    ExtendsContents(g, w0, f0, w, f);
    assert Splice(Contents(g, w0, f0), f0.fptr, []) == Contents(g, w0, f0);
  }

  /** Changing the image by d at the cursor and advancing writes d. */
  lemma WroteAdvanced(g: Geometry, w0: Window, f0: File, w: Window, f1: File, d: seq<byte>)
    requires Base(g, w0, f0) && Base(g, w, Advanced(f1, |d|)) && f0.fptr <= f0.objsize && Mapped(g, w.disk, f1.chain)
    requires f1.fptr == f0.fptr && f1.objsize == f0.objsize
    requires Image(g, w.disk, Advanced(f1, |d|)) == Image(g, w.disk, f1)
    requires Spliced(Image(g, w0.disk, f0), Image(g, w.disk, f1), f0.objsize, f0.fptr, d)
    requires f1.chain == f0.chain && Apart(g, w0, f0.chain, w, f1.chain) && TableOf(g, w) == TableOf(g, w0)
    ensures Wrote(g, w0, f0, w, Advanced(f1, |d|), d)
  {
    hide Apart, Image, Slice, Splice, Linked, Cached, Foreign, FatWindow.Valid;
  }

  /** Up to the new size, an image is another with d put at p. */
  ghost predicate Spliced(img: seq<Sector>, img': seq<Sector>, size: nat, p: nat, d: seq<byte>) {
    var n := if p + |d| > size then p + |d| else size;
    && p <= size <= SS * |img| && n <= SS * |img'|
    && Slice(img', 0, n) == Splice(Slice(img, 0, size), p, d)
  }

  lemma WholePlace(g: Geometry, w: Window, f: File, d: seq<byte>, n: nat)
    requires Base(g, w, f) && !f.dirty && f.fptr % SS == 0 && f.fptr <= f.objsize && f.fptr / SS < g.csize * |f.chain|
    requires 0 < n && (f.fptr / SS) % g.csize + n <= g.csize && SS * n <= |d|
    ensures var s := SectorOf(g, f.chain, f.fptr / SS);
      && g.database <= s && s + n <= g.sectors && |w.disk| == g.sectors
      && var w', f' := w.(disk := PutSectors(w.disk, s, d, n)), Refilled(f, s, d, n);
        && Base(g, w', f') && Spliced(Image(g, w.disk, f), Image(g, w'.disk, f'), f.objsize, f.fptr, d[..SS * n])
        && Apart(g, w, f.chain, w', f.chain)
  {
    hide Apart, Image, Slice, Splice, Linked, Cached, Foreign, FatWindow.Valid, SectorOf, PutSectors, Refilled,
        OfFile, ClusterOf;
    var j := f.fptr / SS;
    DirectKeeps(g, w, f, j, d, n);
    DirectSplices(Image(g, w.disk, f), f.objsize, j, d, n);
    SectorFacts(g, f.chain, j);
    DirectApart(g, w, f, j, d, n);
  }

  lemma DirectApart(g: Geometry, w: Window, f: File, j: nat, d: seq<byte>, n: nat)
    requires Base(g, w, f) && j < g.csize * |f.chain| && 0 < n && j % g.csize + n <= g.csize && SS * n <= |d|
    requires SectorOf(g, f.chain, j) + n <= |w.disk|
    ensures Apart(g, w, f.chain, w.(disk := PutSectors(w.disk, SectorOf(g, f.chain, j), d, n)), f.chain)
  {
    hide Apart, Image, Linked, Cached, Foreign, FatWindow.Valid, SectorOf, OfFile, ClusterOf, Chunk;
    var s := SectorOf(g, f.chain, j);
    forall t: nat | s <= t < s + n ensures OfFile(g, f.chain, t) {
      SectorRun(g, f.chain, j, t - s);
      SectorFacts(g, f.chain, j + (t - s));
    }
    ApartWrite(g, w, w.(disk := PutSectors(w.disk, s, d, n)), f.chain);
  }

  lemma TailPlace(g: Geometry, w: Window, f: File)
    requires Base(g, w, f) && f.fptr / SS < g.csize * |f.chain|
    ensures SectorOf(g, f.chain, f.fptr / SS) < |w.disk|
  {
    hide Apart, Image, Linked, Cached, Foreign, FatWindow.Valid, SectorOf, OfFile, ClusterOf;
    SectorFacts(g, f.chain, f.fptr / SS);
  }

  /** Storing d in the buffer, filled from the medium unless it held the sector or the
      cursor is at the growing edge. */
  lemma TailStores(g: Geometry, w: Window, f: File, b: Sector, d: seq<byte>)
    requires Base(g, w, f) && f.fptr / SS < g.csize * |f.chain| && f.fptr <= f.objsize && f.fptr % SS + |d| <= SS
    requires var s := SectorOf(g, f.chain, f.fptr / SS);
      && (f.dirty ==> f.sect == s) && (f.fptr % SS != 0 ==> f.sect == s) && s < |w.disk|
      && b == if f.sect != s && f.fptr < f.objsize then w.disk[s] else f.buf
    ensures var f' := f.(sect := SectorOf(g, f.chain, f.fptr / SS), buf := Patch(b, f.fptr % SS, d), dirty := true);
      Base(g, w, f') && Spliced(Image(g, w.disk, f), Image(g, w.disk, f'), f.objsize, f.fptr, d)
  {
    hide Apart, Slice, Splice, Image, Linked, Foreign, FatWindow.Valid, SectorOf, OfFile, ClusterOf, Patch;
    var j := f.fptr / SS;
    SectorFacts(g, f.chain, j);
    ImageAt(g, w.disk, f, j);
    StoreKeeps(g, w, f, j, Patch(b, f.fptr % SS, d));
    CapacityOf(g, w, f);
    StoreSplices(Image(g, w.disk, f), f.objsize, f.fptr, d, b);
  }

  lemma BaseValid(g: Geometry, w: Window, f: File)
    requires Base(g, w, f)
    ensures FatWindow.Valid(g, w)
  {
  }

  lemma CapacityOf(g: Geometry, w: Window, f: File)
    requires Base(g, w, f)
    ensures f.objsize <= SS * |Image(g, w.disk, f)|
  {
  }

  lemma MidLocated(g: Geometry, w: Window, f: File)
    requires Base(g, w, f) && Cursor(g, f) && f.fptr % SS != 0
    ensures Located(g, f)
  {
    hide Apart, Base, ClusterIndex, SectorOf;
    NextIndex(g, f.fptr);
  }

  lemma CursorFits(g: Geometry, f: File)
    requires g.csize > 0 && Clusters(g, f.chain) && Cursor(g, f)
    ensures f.fptr <= f.objsize
  {
  }

  lemma FptrFits(g: Geometry, w: Window, f: File)
    requires Base(g, w, f)
    ensures f.fptr < WORD
  {
  }

  lemma SameFacts(g: Geometry, w0: Window, f0: File, w: Window, f: File)
    requires SameFile(g, w0, f0, w, f)
    ensures Base(g, w, f)
  {
    hide Apart, Base, Image, TableOf;
  }

  lemma ExtendsSize(g: Geometry, w0: Window, f0: File, w: Window, f: File)
    requires Extends(g, w0, f0, w, f)
    ensures f.objsize == f0.objsize
  {
    hide Apart, Base, Image;
  }

  /** The cursor is at the end of the last cluster. */
  predicate AtEnd(g: Geometry, f: File) {
    f.fptr == SS * (g.csize * |f.chain|) && (f.chain != [] ==> f.clust == f.chain[|f.chain| - 1])
  }

  lemma EndBehind(g: Geometry, w: Window, f: File)
    requires Base(g, w, f)
    ensures AtEnd(g, f) ==> f.objsize <= f.fptr
  {
  }

  lemma SeekPlace(g: Geometry, w: Window, f: File, ofs: nat)
    requires Base(g, w, f) && Cursor(g, f) && 0 < ofs < WORD
    ensures if f.sclust == 0 then f.chain == [] && f.objsize == 0 else f.chain != [] && f.chain[0] == f.sclust >= 2
    ensures f.fptr > 0 && (ofs - 1) / (g.csize * SS) >= (f.fptr - 1) / (g.csize * SS) ==>
              var q := ClusterIndex(g, f.fptr - 1); var p := And(f.fptr - 1, WORD - 1 - (g.csize * SS - 1));
              0 <= p < ofs && p == SS * (g.csize * q) && q < |f.chain| && f.clust == f.chain[q] >= 2
  {
    hide Apart, TableOf, FatWindow.Valid, OfFile, ClusterIndex, Cached, Foreign, And;
    if f.sclust == 0 {
      assert |f.chain| == 0;
      TimesZero(g.csize);
    } else {
      ChainNext(TableOf(g, w), f.chain, 0);
    }
    if f.fptr > 0 {
      ClusterMask(g, f.fptr - 1);
      BytesIndex(g, f.fptr - 1);
      BytesIndex(g, ofs - 1);
      var q := ClusterIndex(g, f.fptr - 1);
      if ClusterIndex(g, ofs - 1) >= q {
        TimesMonotone(g.csize, q, ClusterIndex(g, ofs - 1));
      }
    }
  }

  lemma NextPlace(g: Geometry, w: Window, f: File, c: nat, q: nat, ofs: nat)
    requires Base(g, w, f) && AtCluster(g, f, c, q) && f.fptr + g.csize * SS < ofs < WORD
    ensures c == f.chain[q] && 2 <= c < g.nFatent < WORD && SS * (g.csize * (q + 1)) == f.fptr + g.csize * SS
    ensures ofs <= f.objsize ==>
        q + 1 < |f.chain| && Cluster(TableOf(g, w), c) && TableOf(g, w)[c] == f.chain[q + 1] >= 2
    ensures f.chain != []
  {
    hide Apart, TableOf, FatWindow.Valid, OfFile, Cached, Foreign;
    SmallTable(g, w);
    TimesSucc(g.csize, q);
    ChainNext(TableOf(g, w), f.chain, q);
  }

  /** The contents may have become longer; what was there is unchanged. */
  ghost predicate Grew(g: Geometry, w0: Window, f0: File, w: Window, f: File) {
    && Base(g, w0, f0) && Base(g, w, f) && Contents(g, w0, f0) <= Contents(g, w, f)
    && f0.chain <= f.chain && Apart(g, w0, f0.chain, w, f.chain)
  }

  /** The file after the last steps of f_lseek but for the buffer. */
  function Reached(f: File, rest: nat): File {
    Lengthened(f.(fptr := f.fptr + rest))
  }

  /** All of Cursor but what the buffer shows. */
  predicate CursorBut(g: Geometry, f: File)
    requires g.csize > 0
  {
    && f.fptr <= f.objsize <= SS * (g.csize * |f.chain|)
    && (f.fptr > 0 ==> ClusterIndex(g, f.fptr - 1) < |f.chain| && f.clust == f.chain[ClusterIndex(g, f.fptr - 1)])
  }

  lemma FinishPlace(g: Geometry, w: Window, f: File, rest: nat, c: nat, q: nat)
    requires Base(g, w, f) && f.fptr + rest < WORD
    requires if rest > 0 then AtCluster(g, f, c, q) && rest <= g.csize * SS else AtEnd(g, f) || f.fptr == 0
    ensures var f' := Reached(f, rest);
      && Base(g, w, f') && Grew(g, w, f, w, f') && CursorBut(g, f') && f'.fptr % SS == rest % SS
      && (rest % SS == 0 ==> Cursor(g, f'))
      && (rest % SS != 0 ==> 2 <= c < g.nFatent < WORD && f'.fptr / SS < g.csize * |f'.chain|
                             && Top(g, c) + rest / SS == SectorOf(g, f'.chain, f'.fptr / SS))
  {
    hide Apart, TableOf, FatWindow.Valid, OfFile, Cached, Foreign, Contents, Linked, Image, ClusterIndex;
    SmallTable(g, w);
    var f1 := f.(fptr := f.fptr + rest);
    SeekSame(g, w, f, f.fptr + rest, f.clust);
    SameImage(g, w, f, w, f1);
    CapacityOf(g, w, f);
    if rest > 0 {
      RestPlace(g, q, rest);
      TimesSucc(g.csize, q);
      TimesMonotone(g.csize, q + 1, |f.chain|);
      if rest % SS != 0 {
        DivBoundAt(g, f1.fptr / SS, q, |f.chain|);
      }
    } else if f.fptr > 0 {
      EndIndex(g, |f.chain|);
    }
    LengthenedKeeps(g, w, f1);
  }

  lemma DivBoundAt(g: Geometry, j: nat, q: nat, n: nat)
    requires g.csize > 0 && j / g.csize == q < n
    ensures j < g.csize * n
  {
    if j >= g.csize * n {
      DivLower(j, g.csize, n);
    }
  }

  lemma EndIndex(g: Geometry, n: nat)
    requires g.csize > 0 && n > 0
    ensures SS * (g.csize * n) > 0 && ClusterIndex(g, SS * (g.csize * n) - 1) == n - 1
    ensures SS * (g.csize * n) % SS == 0
  {
    TimesSucc(g.csize, n - 1);
    RestPlace(g, n - 1, g.csize * SS);
  }

  lemma FinishFilled(g: Geometry, w0: Window, f0: File, f1: File, w: Window, f: File)
    requires Grew(g, w0, f0, w0, f1) && SameFile(g, w0, f1, w, f) && CursorBut(g, f1)
    requires f == f1.(sect := f.sect, dirty := f.dirty, buf := f.buf)
    requires f.fptr / SS < g.csize * |f.chain| && f.sect == SectorOf(g, f.chain, f.fptr / SS)
    ensures Grew(g, w0, f0, w, f) && Cursor(g, f)
  {
    hide Apart, Base, Image, TableOf, Contents, ClusterIndex, SectorOf;
    SameImage(g, w0, f1, w, f);
    ApartTrans(g, w0, f0.chain, w0, f1.chain, w, f.chain);
  }

  // ---- truncation

  /** How many clusters a file cut at the cursor keeps. */
  function Kept(g: Geometry, f: File): nat
    requires g.csize > 0
  {
    if f.fptr == 0 then 0 else ClusterIndex(g, f.fptr - 1) + 1
  }

  /** The chain is no longer than the contents need. */
  predicate Tight(g: Geometry, f: File)
    requires g.csize > 0
  {
    |f.chain| == if f.objsize == 0 then 0 else ClusterIndex(g, f.objsize - 1) + 1
  }

  lemma RunWithin(g: Geometry, p: nat, n: nat)
    requires g.csize > 0 && p % SS == 0 && 0 < n && (p / SS) % g.csize + n <= g.csize
    ensures Within(g, p, SS * n) && (p + SS * n) % SS == 0
  {
  }

  lemma PartWithin(g: Geometry, p: nat, n: nat)
    requires g.csize > 0 && 0 < n && p % SS + n <= SS
    ensures Within(g, p, n)
  {
  }

  lemma ReadFits(g: Geometry, w: Window, f: File, n: nat)
    requires Base(g, w, f) && f.fptr + n <= f.objsize
    ensures f.fptr + n < WORD
  {
    hide Apart, Linked, Cached, Foreign, FatWindow.Valid;
  }

  lemma MidPlace(g: Geometry, w: Window, f: File)
    requires Base(g, w, f) && Cursor(g, f) && f.fptr % SS != 0
    ensures f.fptr / SS < g.csize * |f.chain| && f.sect == SectorOf(g, f.chain, f.fptr / SS)
  {
    hide Apart, Base, SectorOf;
  }

  lemma LocatedSame(g: Geometry, f: File, f': File)
    requires g.csize > 0 && Located(g, f) && f'.chain == f.chain && f'.fptr == f.fptr && f'.clust == f.clust
    ensures Located(g, f')
  {
  }

  lemma RunPlace(g: Geometry, w: Window, f: File, j: nat, n: nat)
    requires Base(g, w, f) && j < g.csize * |f.chain| && 0 < n && j % g.csize + n <= g.csize
    ensures j + n <= g.csize * |f.chain| && SectorOf(g, f.chain, j) + n <= g.sectors <= WORD && |w.disk| == g.sectors
    ensures f.sect < WORD
  {
    hide Apart, Image, TableOf, FatWindow.Valid, OfFile, SectorOf, ClusterOf, Linked, Distinct;
    SectorRun(g, f.chain, j, n - 1);
    SectorFacts(g, f.chain, j + n - 1);
  }

  /** Byte i of a run of sectors of the file. */
  lemma RunByte(g: Geometry, w: Window, f: File, j: nat, n: nat, i: nat)
    requires Base(g, w, f) && j < g.csize * |f.chain| && 0 < n && j % g.csize + n <= g.csize && i < SS * n
    ensures SectorOf(g, f.chain, j) + i / SS < |w.disk| && SS * j + i < SS * (g.csize * |f.chain|)
    ensures ByteAt(Image(g, w.disk, f), SS * j + i) ==
            (if f.dirty && f.sect == SectorOf(g, f.chain, j) + i / SS then f.buf
                else w.disk[SectorOf(g, f.chain, j) + i / SS])[i % SS]
  {
    hide Apart, TableOf, FatWindow.Valid, OfFile, SectorOf, ClusterOf, Linked, Distinct, Image;
    var t := i / SS;
    RunPlace(g, w, f, j, n);
    SectorRun(g, f.chain, j, t);
    ImageAt(g, w.disk, f, j + t);
    assert (SS * j + i) / SS == j + t && (SS * j + i) % SS == i % SS;
  }

  lemma AdvancedSame(g: Geometry, w0: Window, f0: File, w: Window, f: File, n: nat)
    requires SameFile(g, w0, f0, w, f) && f.fptr + n <= f.objsize && Base(g, w, Advanced(f, n))
    requires Image(g, w.disk, Advanced(f, n)) == Image(g, w.disk, f)
    ensures SameFile(g, w0, f0, w, Advanced(f, n))
  {
    hide Apart, Base, Image, TableOf;
  }

  /** A buffer on a sector of the file shows the sector. */
  lemma ImageHere(g: Geometry, w: Window, f: File, j: nat)
    requires Base(g, w, f) && j < g.csize * |f.chain| && f.sect == SectorOf(g, f.chain, j)
    ensures Image(g, w.disk, f)[j] == f.buf
  {
    SectorFacts(g, f.chain, j);
    ImageAt(g, w.disk, f, j);
  }
}
