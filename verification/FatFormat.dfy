/** f_mkfs from its options to a freshly formatted volume. */
module FatFormat {
  import opened Arith
  import opened Bits
  import opened Bytes
  import opened FatTable
  import opened FatWindow
  import opened FatChain
  import opened FatAlloc
  import opened Mkfs
  import opened BootSector
  import FatVolume

  /** FM_FAT, FM_FAT32 and FM_SFD, and the sizes that 0 or nonsense leaves to f_mkfs. */
  datatype Options = Options(fat: bool, fat32: bool, sfd: bool, nFat: nat, align: nat, nRoot: nat, auSize: nat)

  datatype Outcome = Formatted | Aborted | InvalidParameter

  const N_SEC_TRACK: nat := 63

  /** The erase block size, if a usable one is given or reported. */
  ghost function BlockOf(align: nat, blockSize: nat): nat {
    var b := if align == 0 then blockSize else align;
    if b <= 0x8000 && IsPower(b) then b else 1
  }

  /** The volume and its parameters: behind the first 63 sectors unless the whole medium is
      asked for; one table and 512 root entries unless sensible numbers are given. */
  ghost function RequestOf(opt: Options, blockSize: nat, drive: nat): Request {
    var bVol := if !opt.sfd && drive > 63 then 63 else 0;
    Request(bVol, drive - bVol, BlockOf(opt.align, blockSize), if opt.nFat == 2 then 2 else 1,
            if 1 <= opt.nRoot <= 32768 && opt.nRoot % 16 == 0 then opt.nRoot else 512, opt.fat32)
  }

  /** The cluster size in sectors, 0 for an automatic one. */
  ghost function UnitOf(opt: Options): nat {
    if opt.auSize > 0x100_0000 || !IsPower(opt.auSize) then 0
    else if opt.auSize > 128 * 512 then 128 else opt.auSize / 512
  }

  /** Nothing is prescribed but small erase blocks, and the medium is large enough. */
  predicate Ordinary(opt: Options, blockSize: nat, drive: nat) {
    && opt.fat && opt.fat32 && opt.auSize == 0 && opt.nRoot == 0 && drive >= (if opt.sfd then 128 else 191)
    && (if opt.align == 0 then blockSize else opt.align) <= 16
  }

  /** The request f_mkfs makes of its options and the medium. */
  method Prepare(opt: Options, blockSize: nat, drive: nat) returns (q: Request, szAu: nat)
    requires drive < WORD
    ensures q == RequestOf(opt, blockSize, drive) && szAu == UnitOf(opt)
    ensures q.fat32 == opt.fat32 && q.bVol + q.szVol == drive
    ensures q.szVol >= 128 ==> q.Ok()
    ensures szAu == 0 || szAu in AU_SIZES
  {
    var szBlk := opt.align;
    if szBlk == 0 {
      szBlk := blockSize;
    }
    PowerIff(szBlk);
    PowerIff(opt.auSize);
    PowerNotZero();
    if szBlk == 0 || szBlk > 0x8000 || And(szBlk, szBlk - 1) != 0 {
      szBlk := 1;
      PowerOne();
    }
    var nFat := if 1 <= opt.nFat <= 2 then opt.nFat else 1;
    var nRoot := if 1 <= opt.nRoot <= 32768 && opt.nRoot % (SS / 32) == 0 then opt.nRoot else 512;
    szAu := if opt.auSize <= 0x1000000 && And(opt.auSize, opt.auSize - 1) == 0 then opt.auSize else 0;
    UnitSize(szAu);
    szAu := szAu / SS;
    var bVol, szVol := 0, drive;
    if !opt.sfd && szVol > N_SEC_TRACK {
      bVol := N_SEC_TRACK;
      szVol := szVol - bVol;
    }
    if szAu > 128 {
      szAu := 128;
    }
    q := Request(bVol, szVol, szBlk, nFat, nRoot, opt.fat32);
  }

  lemma PowerNotZero()
    ensures !IsPower(0)
  {
  }

  lemma PowerOne()
    ensures IsPower(1)
  {
    assert Pow2(0) == 1;
  }

  lemma PowerIff(x: nat)
    ensures x > 0 ==> (And(x, x - 1) == 0 <==> IsPower(x))
  {
    if x > 0 && And(x, x - 1) == 0 {
      var k := PowerTest(x);
    }
    if k: nat :| x == Pow2(k) {
      PowerTestHolds(k);
    }
  }

  /** A cluster size in bytes that is a power of two is one of eight sizes in sectors. */
  lemma UnitSize(x: nat)
    requires x > 0 ==> And(x, x - 1) == 0
    ensures x / SS == 0 || x / SS > 128 || x / SS in AU_SIZES
  {
    if x >= SS {
      hide And;
      var k := PowerTest(x);
      UnitPowers(k);
    }
  }

  lemma UnitPowers(k: nat)
    requires Pow2(k) >= SS
    ensures Pow2(k) / SS > 128 || Pow2(k) / SS in AU_SIZES
  {
    assert Pow2(3) == 8;
    assert Pow2(6) == 64 by { Pow2Add(3, 3); }
    Pow2Add(6, 3);
    if k < 9 {
      PowMonotone(k, 8);
    } else {
      var j := k - 9;
      Pow2Add(9, j);
      assert Pow2(k) == SS * Pow2(j);
      if j > 7 {
        Pow2Add(8, j - 8);
        assert Pow2(8) == 256;
        TimesMonotone(256, 1, Pow2(j - 8));
      } else {
        SmallPowers(j);
      }
    }
  }

  /** f_mkfs up to the boot sector: the boot sector it makes is recognized, and mounting it
      recovers the geometry exactly when the volume got a cluster. */
  method Format(opt: Options, blockSize: nat, drive: nat, buf: array<byte>, vsn: nat)
    returns (res: Outcome, q: Request, c: Config)
    requires drive < WORD && vsn < WORD && buf.Length == SS
    modifies buf
    ensures res.Formatted? ==>
              && q.Ok() && Accepted(q, c) && IsVbr(buf[..], c) && CheckFs(buf[..]) == FatVbr
                  && c.bVol + c.szVol == drive
              && MountsAs(MountVolume(buf[..], c.bVol, drive), c, drive)
    ensures res.Formatted? && c.nClst > 0 ==> Recovered(c, drive).Ok() && Recovered(c, drive).database % q.szBlk == 0
    ensures res.Formatted? ==> (c.nClst == 0 <==> NoRoom(q, c.fsty, c.pau)) && (q.szBlk <= 16 ==> c.nClst > 0)
    ensures q == RequestOf(opt, blockSize, drive)
    ensures res.InvalidParameter? <==> q.szVol >= 128 && !opt.fat && !opt.fat32
    ensures res.Aborted? <==>
              q.szVol < 128 || (opt.fat && Search(q, UnitOf(opt), Fat16) == Rejected)
              || (!opt.fat && opt.fat32 && Search(q, UnitOf(opt), Fat32) == Rejected)
    ensures res.Formatted? ==> Search(q, UnitOf(opt), if opt.fat then Fat16 else Fat32) == Chosen(c)
    ensures Ordinary(opt, blockSize, drive) ==> res.Formatted? && c.nClst > 0
    ensures res.Formatted? && !opt.fat ==> c.fsty.Fat32?
    ensures res.Formatted? && !opt.fat32 ==> !c.fsty.Fat32?
  {
    hide Accepted, IsVbr, CheckFs, MountVolume, And, Search, Recovered, Geometry.Ok, NoRoom, UnitOf, IsPower,
        RequestOf, BlockOf;
    var szAu;
    q, szAu := Prepare(opt, blockSize, drive);
    c := Config(Fat12, 0, 0, 0, 0, 0, 0, 0, 0);
    if Ordinary(opt, blockSize, drive) {
      OrdinaryFits(opt, blockSize, drive);
    }
    if q.szVol < 128 {
      return Aborted, q, c;
    }
    var fsty := Fat16;
    if opt.fat32 && !opt.fat {
      fsty := Fat32;
    } else if !opt.fat {
      return InvalidParameter, q, c;
    }
    var ok;
    ok, c := ChooseGeometry(q, szAu, fsty);
    if !ok {
      return Aborted, q, c;
    }
    NoClusters(q, szAu, fsty, c);
    CountIs(q, c);
    WriteVbr(buf, q, c, vsn);
    Recognized(q, c, buf[..]);
    Mounts(q, c, buf[..], drive);
    SamePlace(q, c);
    if c.nClst > 0 {
      RecoveredOk(q, c, drive);
    }
    res := Formatted;
  }

  lemma OrdinaryFits(opt: Options, blockSize: nat, drive: nat)
    requires Ordinary(opt, blockSize, drive) && drive < WORD
    ensures var q := RequestOf(opt, blockSize, drive); q.szVol >= 128 && q.szBlk <= 16 && UnitOf(opt) == 0
    ensures RequestOf(opt, blockSize, drive).Ok() ==> Search(RequestOf(opt, blockSize, drive), 0, Fat16).Chosen?
  {
    PowerNotZero();
    PowerOne();
    hide IsPower, Search, Request.Ok;
    var q := RequestOf(opt, blockSize, drive);
    if q.Ok() {
      AnyFormats(q);
    }
  }

  /** Mounting gives the geometry of c, or nothing if that has no clusters. */
  predicate MountsAs(m: Mounted, c: Config, drive: nat) {
    if c.nClst == 0 then m == NoFilesystem
    else m == Volume(Recovered(c, drive), RootBase(c), RootEntries(c))
  }

  lemma SamePlace(q: Request, c: Config)
    requires Accepted(q, c)
    ensures c.bVol == q.bVol && c.szVol == q.szVol
  {
  }

  // ---- the table of a fresh volume

  /** The first sector of a fresh table: entries 0 and 1, on FAT32 also the root directory. */
  function FirstSector(t: FsType): Sector {
    match t
    case Fat32 => [0xF8, 0xFF, 0xFF, 0xFF, 0xFF, 0xFF, 0xFF, 0xFF, 0xFF, 0xFF, 0xFF, 0x0F] + seq(500, i => 0)
    case Fat16 => [0xF8, 0xFF, 0xFF, 0xFF] + seq(508, i => 0)
    case Fat12 => [0xF8, 0xFF, 0xFF, 0x00] + seq(508, i => 0)
  }

  function ZeroSector(): Sector {
    seq(SS, i => 0)
  }

  /** The tables lie on the medium. */
  predicate Placed(g: Geometry) {
    1 <= g.nFats <= 2 && g.fsize > 0 && g.fatbase + (if g.nFats == 2 then 2 * g.fsize else g.fsize) <= g.sectors
  }

  /** The tables of the volume are fresh. */
  ghost predicate Fresh(g: Geometry, disk: seq<Sector>) {
    Placed(g) && |disk| == g.sectors && forall s: nat :: g.InFat(s) || g.InMirror(s) ==>
                       disk[s] == if s == g.fatbase || s == g.fatbase + g.fsize then FirstSector(g.fsType)
                           else ZeroSector()
  }

  /** Write n sectors of a fresh table from sector s on, szBuf sectors at a time. */
  method FillTable(disk0: seq<Sector>, s: nat, n: nat, szBuf: nat, t: FsType) returns (disk: seq<Sector>)
    requires 1 <= n && s + n <= |disk0| && szBuf > 0
    ensures |disk| == |disk0|
    ensures forall i :: 0 <= i < |disk| ==>
                          disk[i] == if i == s then FirstSector(t) else if s < i < s + n then ZeroSector() else disk0[i]
  {
    hide FirstSector, ZeroSector;
    disk := disk0;
    var sect: nat, nsect: nat := s, n;
    var first := FirstSector(t);
    while nsect > 0
      invariant s <= sect && sect + nsect == s + n && |disk| == |disk0|
      invariant first == if sect == s then FirstSector(t) else ZeroSector()
      invariant forall i :: 0 <= i < |disk| ==>
                              disk[i] == if i == s && i < sect then FirstSector(t)
                                  else if s < i < sect then ZeroSector() else disk0[i]
    {
      var k := if nsect > szBuf then szBuf else nsect;
      disk := disk[..sect] + [first] + seq(k - 1, i => ZeroSector()) + disk[sect + k..];
      first := ZeroSector();
      sect, nsect := sect + k, nsect - k;
    }
  }

  method InitTables(g: Geometry, disk0: seq<Sector>, szBuf: nat) returns (disk: seq<Sector>)
    requires Placed(g) && |disk0| == g.sectors && szBuf > 0
    ensures |disk| == g.sectors && Fresh(g, disk)
    ensures forall s :: 0 <= s < g.sectors && !g.InFat(s) && !g.InMirror(s) ==> disk[s] == disk0[s]
  {
    hide FirstSector, ZeroSector;
    disk := disk0;
    var sect := g.fatbase;
    var i := 0;
    while i < g.nFats
      invariant 0 <= i <= g.nFats && sect == (if i == 0 then g.fatbase else if i == 1 then g.fatbase + g.fsize
          else g.fatbase + 2 * g.fsize)
      invariant |disk| == g.sectors
      invariant forall s :: 0 <= s < g.sectors && !(g.fatbase <= s < sect) ==> disk[s] == disk0[s]
      invariant forall s :: g.fatbase <= s < sect ==>
                  disk[s] == if s == g.fatbase || s == g.fatbase + g.fsize then FirstSector(g.fsType) else ZeroSector()
    {
      disk := FillTable(disk, sect, g.fsize, szBuf, g.fsType);
      sect := sect + g.fsize;
      i := i + 1;
    }
  }

  /** The clusters in use on a fresh volume. */
  function FreshChains(t: FsType): seq<seq<nat>> {
    if t.Fat32? then [[2]] else []
  }

  lemma FreshByte(g: Geometry, w: Window, i: nat)
    requires Valid(g, w) && !w.wflag && Fresh(g, w.disk) && i < SS * g.fsize
    ensures ByteAt(Fat(g, w), i) == if i < SS then FirstSector(g.fsType)[i] else 0
  {
    hide FirstSector;
    assert g.InFat(g.fatbase + i / SS);
  }

  lemma FreshEntry(g: Geometry, w: Window, c: nat)
    requires Valid(g, w) && !w.wflag && Fresh(g, w.disk) && 2 <= c < g.nFatent
    ensures TableOf(g, w)[c] == if c == 2 && g.fsType.Fat32? then 0x0FFF_FFFF else 0
  {
    hide Fat, ByteAt, Fresh;
    Enough(g, w);
    TableAt(g.fsType, Fat(g, w), g.nFatent, c);
    var i := Offset(g.fsType, c);
    FreshByte(g, w, i);
    FreshByte(g, w, i + 1);
    if g.fsType.Fat32? {
      FreshByte(g, w, i + 2);
      FreshByte(g, w, i + 3);
    }
  }

  lemma Enough(g: Geometry, w: Window)
    requires Valid(g, w)
    ensures Holds(g.fsType, Fat(g, w), g.nFatent)
  {
  }

  lemma {:induction false} FreshCount(table: seq<nat>, k: nat, used: nat)
    requires 2 <= k <= |table| && used <= 1 && forall c: nat :: Cluster(table, c) ==>
        (table[c] == 0 <==> !(c == 2 && used == 1))
    ensures CountFree(table, k) == if k == 2 then 0 else k - 2 - used
  {
    if k > 2 {
      FreshCount(table, k - 1, used);
      assert Cluster(table, k - 1);
    }
  }

  /** A fresh volume is sound: its tables agree, the only chain is the FAT32 root directory,
      and the free count f_mkfs puts in FSINFO is the true one. */
  lemma FreshVolume(g: Geometry, w: Window)
    requires Valid(g, w) && !w.wflag && Fresh(g, w.disk)
    ensures Mirrored(g, w) && Chains(TableOf(g, w), FreshChains(g.fsType))
    ensures FreeClusters(TableOf(g, w)) == g.nFatent - 2 - if g.fsType.Fat32? then 1 else 0
    ensures g.fsType.Fat32? ==> Counted(TableOf(g, w), g.nFatent - 2 - 1)
  {
    hide TableOf, FirstSector, ZeroSector;
    var t := TableOf(g, w);
    forall c: nat | Cluster(t, c) ensures t[c] == if c == 2 && g.fsType.Fat32? then 0x0FFF_FFFF else 0 {
      FreshEntry(g, w, c);
    }
    FreshCount(t, |t|, if g.fsType.Fat32? then 1 else 0);
    FreshMirrored(g, w);
    FreshIsChains(t, FreshChains(g.fsType), g.fsType.Fat32?);
  }

  lemma FreshMirrored(g: Geometry, w: Window)
    requires Valid(g, w) && !w.wflag && Fresh(g, w.disk)
    ensures Mirrored(g, w)
  {
    hide FirstSector, ZeroSector;
    if g.nFats == 2 {
      forall s: nat | g.InFat(s) ensures w.disk[s + g.fsize] == w.disk[s] {
        assert g.InMirror(s + g.fsize);
      }
    }
  }

  lemma FreshIsChains(t: seq<nat>, chains: seq<seq<nat>>, root: bool)
    requires 3 <= |t| <= 0x0FFF_FFFF && chains == if root then [[2]] else []
    requires forall c: nat :: Cluster(t, c) ==> t[c] == if c == 2 && root then 0x0FFF_FFFF else 0
    ensures Chains(t, chains)
  {
    assert Cluster(t, 2);
    if root {
      assert IsChain(t, [2]);
      forall c: nat | Cluster(t, c) && t[c] != 0 ensures Covered(chains, c) {
        assert At(chains, 0, 0, c);
      }
    }
  }

  // ---- a volume made and mounted

  /** An FSINFO sector with a free count. */
  predicate IsInfo(d: Sector, free: nat) {
    Word(d, 510) == 0xAA55 && Dword(d, 0) == 0x41615252 && Dword(d, 484) == 0x61417272 && Dword(d, 488) == free
        && Dword(d, 492) == 2
  }

  method WriteInfo(buf: array<byte>, free: nat)
    requires buf.Length == SS && free < WORD
    modifies buf
    ensures IsInfo(buf[..], free)
  {
    hide Word, Dword;
    forall k | 0 <= k < SS {
      buf[k] := 0;
    }
    StDword(buf, 0, 0x41615252);
    StDword(buf, 484, 0x61417272);
    ghost var d := buf[..];
    WriteCounts(buf, free);
    InfoWritten(d, buf[..], free);
  }

  method WriteCounts(buf: array<byte>, free: nat)
    requires buf.Length == SS && free < WORD
    modifies buf
    ensures Half(buf[488], buf[489]) + 0x1_0000 * Half(buf[490], buf[491]) == free && buf[510] == 0x55
        && buf[511] == 0xAA
    ensures Half(buf[492], buf[493]) + 0x1_0000 * Half(buf[494], buf[495]) == 2
    ensures forall k :: 0 <= k < 488 ==> buf[k] == old(buf[k])
  {
    StDword(buf, 488, free);
    StDword(buf, 492, 2);
    buf[510], buf[511] := 0x55, 0xAA;
  }

  lemma InfoWritten(d: Sector, e: Sector, free: nat)
    requires Half(d[0], d[1]) + 0x1_0000 * Half(d[2], d[3]) == 0x41615252
        && Half(d[484], d[485]) + 0x1_0000 * Half(d[486], d[487]) == 0x61417272
    requires Half(e[488], e[489]) + 0x1_0000 * Half(e[490], e[491]) == free && e[510] == 0x55 && e[511] == 0xAA
    requires Half(e[492], e[493]) + 0x1_0000 * Half(e[494], e[495]) == 2 && forall k :: 0 <= k < 488 ==> e[k] == d[k]
    ensures IsInfo(e, free)
  {
  }

  /** The sectors of the root directory. */
  predicate InRoot(c: Config, s: nat) {
    var b := c.bVol + c.szRsv + c.Tables();
    b <= s < b + if c.fsty.Fat32? then c.pau else c.DirSectors()
  }

  /** What f_mkfs leaves on the medium: boot sector, FSINFO, tables, empty root directory. */
  ghost predicate Made(c: Config, disk: seq<Sector>) {
    var g := Recovered(c, |disk|);
    && c.bVol + 1 < |disk| && IsVbr(disk[c.bVol], c) && Fresh(g, disk)
    && (c.fsty.Fat32? ==> c.nClst > 0 && IsInfo(disk[c.bVol + 1], c.nClst - 1))
    && forall s: nat :: InRoot(c, s) ==> s < |disk| && disk[s] == ZeroSector()
  }

  lemma MadePlaces(q: Request, c: Config, drive: nat)
    requires q.Ok() && Accepted(q, c) && c.bVol + c.szVol == drive
    ensures var g := Recovered(c, drive);
      && Placed(g) && c.bVol + c.szRsv == g.fatbase && (c.fsty.Fat32? ==> c.szRsv >= 32 && c.nClst > 0)
      && c.bVol + c.szRsv + c.Tables() + (if c.fsty.Fat32? then c.pau else c.DirSectors()) <= drive
      && (if c.fsty.Fat32? then c.pau else c.DirSectors()) >= 1 && c.bVol + 1 < drive && c.szRsv >= 1
          && c.szVol < WORD && c.nClst <= c.szVol
  {
    FieldsFit(q, c);
    DivMod(c.szVol - c.System(), c.pau);
    if c.nClst > 0 {
      TimesMonotone(c.pau, 1, c.nClst);
      TimesMonotone(c.nClst, 1, c.pau);
    }
  }

  /** Write n empty sectors from sector s on, szBuf sectors at a time. */
  method Clear(disk0: seq<Sector>, s: nat, n: nat, szBuf: nat) returns (disk: seq<Sector>)
    requires 1 <= n && s + n <= |disk0| && szBuf > 0
    ensures |disk| == |disk0| && forall i :: 0 <= i < |disk| ==> disk[i] == if s <= i < s + n then ZeroSector()
        else disk0[i]
  {
    hide ZeroSector;
    disk := disk0;
    var sect: nat, nsect: nat := s, n;
    while nsect > 0
      invariant s <= sect && sect + nsect == s + n && |disk| == |disk0|
      invariant forall i :: 0 <= i < |disk| ==> disk[i] == if s <= i < sect then ZeroSector() else disk0[i]
    {
      var k := if nsect > szBuf then szBuf else nsect;
      disk := disk[..sect] + seq(k, i => ZeroSector()) + disk[sect + k..];
      sect, nsect := sect + k, nsect - k;
    }
  }

  /** The boot sector in buf, and on FAT32 its copy and FSINFO with a copy. */
  method WriteReserved(buf: array<byte>, c: Config, disk0: seq<Sector>) returns (disk: seq<Sector>)
    requires buf.Length == SS && c.bVol + c.szRsv < |disk0| && c.szRsv >= 1
        && (c.fsty.Fat32? ==> c.szRsv >= 32 && 1 <= c.nClst < WORD)
    modifies buf
    ensures |disk| == |disk0| && disk[c.bVol] == old(buf[..])
        && (c.fsty.Fat32? ==> IsInfo(disk[c.bVol + 1], c.nClst - 1))
    ensures forall s :: 0 <= s < |disk| && !(c.bVol <= s < c.bVol + c.szRsv) ==> disk[s] == disk0[s]
  {
    hide IsInfo;
    disk := disk0[c.bVol := buf[..]];
    if c.fsty.Fat32? {
      disk := disk[c.bVol + 6 := buf[..]];
      WriteInfo(buf, c.nClst - 1);
      disk := disk[c.bVol + 7 := buf[..]][c.bVol + 1 := buf[..]];
    }
  }

  /** f_mkfs: the volume it leaves on the medium. */
  method MakeVolume(opt: Options, blockSize: nat, disk0: seq<Sector>, vsn: nat, szBuf: nat)
    returns (res: Outcome, q: Request, c: Config, disk: seq<Sector>)
    requires |disk0| < WORD && vsn < WORD && szBuf > 0
    ensures |disk| == |disk0| && (!res.Formatted? ==> disk == disk0) && q == RequestOf(opt, blockSize, |disk0|)
    ensures res.InvalidParameter? <==> q.szVol >= 128 && !opt.fat && !opt.fat32
    ensures res.Aborted? <==>
              q.szVol < 128 || (opt.fat && Search(q, UnitOf(opt), Fat16) == Rejected)
              || (!opt.fat && opt.fat32 && Search(q, UnitOf(opt), Fat32) == Rejected)
    ensures res.Formatted? ==> Search(q, UnitOf(opt), if opt.fat then Fat16 else Fat32) == Chosen(c)
    ensures Ordinary(opt, blockSize, |disk0|) ==> res.Formatted? && c.nClst > 0
    ensures res.Formatted? ==>
              q.Ok() && Accepted(q, c) && c.bVol + c.szVol == |disk| && Made(c, disk)
                  && (c.nClst == 0 <==> NoRoom(q, c.fsty, c.pau))
  {
    hide Accepted, IsVbr, CheckFs, MountVolume, Fresh, FirstSector, ZeroSector, NoRoom, IsInfo, Search, UnitOf,
        RequestOf,
        Ordinary;
    var buf := new byte[SS];
    disk := disk0;
    res, q, c := Format(opt, blockSize, |disk0|, buf, vsn);
    if !res.Formatted? {
      return;
    }
    MadePlaces(q, c, |disk0|);
    disk := WriteReserved(buf, c, disk);
    disk := InitTables(Recovered(c, |disk0|), disk, szBuf);
    ghost var disk2 := disk;
    var sect := c.bVol + c.szRsv + c.Tables();
    disk := Clear(disk, sect, if c.fsty.Fat32? then c.pau else c.DirSectors(), szBuf);
    FreshElsewhere(Recovered(c, |disk0|), disk2, disk);
  }

  lemma FreshElsewhere(g: Geometry, disk: seq<Sector>, disk': seq<Sector>)
    requires Fresh(g, disk) && |disk'| == |disk| && forall s: nat :: s < |disk| && (g.InFat(s) || g.InMirror(s)) ==>
        disk'[s] == disk[s]
    ensures Fresh(g, disk')
  {
    hide FirstSector, ZeroSector;
  }

  /** mount_volume for a medium: the volume object, with the free count FSINFO gives it. */
  method MountDisk(disk: seq<Sector>, bsect: nat) returns (fs: FatVolume.Fatfs?)
    requires bsect + 1 < |disk| <= WORD
    requires var m := MountVolume(disk[bsect], bsect, |disk|); m.Volume? ==> m.g.Ok()
    ensures var m := MountVolume(disk[bsect], bsect, |disk|); (fs == null) == m.NoFilesystem?
    ensures fs != null ==>
              && fs.Valid() && fresh(fs) && fs.g == MountVolume(disk[bsect], bsect, |disk|).g && fs.disk == disk
                  && !fs.wflag
              && fs.freeClst == FreeCount(fs.g.fsType, disk[bsect], disk[bsect + 1])
  {
    hide MountVolume, Word, Dword;
    var m := MountVolume(disk[bsect], bsect, |disk|);
    if m.NoFilesystem? {
      return null;
    }
    var free, last := WORD - 1, WORD - 1;
    var d := disk[bsect + 1];
    InfoRange(d);
    MountSize(disk[bsect], bsect, |disk|);
    if m.g.fsType.Fat32? && Word(disk[bsect], 48) == 1 {
      if Word(d, 510) == 0xAA55 && Dword(d, 0) == 0x41615252 && Dword(d, 484) == 0x61417272 {
        free, last := Dword(d, 488), Dword(d, 492);
      }
    }
    fs := new FatVolume.Fatfs(m.g, disk, last, free);
  }

  function FreeCount(t: FsType, vbr: Sector, d: Sector): nat {
    if t.Fat32? && Word(vbr, 48) == 1 && Word(d, 510) == 0xAA55 && Dword(d, 0) == 0x41615252
        && Dword(d, 484) == 0x61417272
    then Dword(d, 488)
    else WORD - 1
  }

  lemma MountSize(d: Sector, bsect: nat, sectors: nat)
    ensures var m := MountVolume(d, bsect, sectors); m.Volume? ==> m.g.sectors == sectors
  {
    hide And, Wanted, MountType;
  }

  lemma InfoRange(d: Sector)
    ensures Dword(d, 488) < WORD && Dword(d, 492) < WORD
  {
  }

  lemma MadeMounts(q: Request, c: Config, disk: seq<Sector>)
    requires q.Ok() && Accepted(q, c) && Made(c, disk) && c.bVol + c.szVol == |disk| < WORD
    ensures c.bVol + 1 < |disk|
    ensures MountsAs(MountVolume(disk[c.bVol], c.bVol, |disk|), c, |disk|)
        && (c.nClst > 0 ==> Recovered(c, |disk|).Ok())
    ensures FreeCount(c.fsty, disk[c.bVol], disk[c.bVol + 1]) == if c.fsty.Fat32? then c.nClst - 1 else WORD - 1
    ensures c.nClst <= MAX_FAT32 && Fresh(Recovered(c, |disk|), disk) && Recovered(c, |disk|).nFatent == c.nClst + 2
        && Recovered(c, |disk|).fsType == c.fsty
  {
    hide Accepted, Fresh, MountVolume, Word, Dword, Geometry.Ok, ZeroSector;
    Mounts(q, c, disk[c.bVol], |disk|);
    TypeAgrees(q, c);
    if c.nClst > 0 {
      RecoveredOk(q, c, |disk|);
    }
  }

  /** The free count of FSINFO is true, and the other types have none. */
  lemma TrueFree(table: seq<nat>, n: nat, free: nat, t: FsType)
    requires |table| == n + 2 && 0 < n < WORD - 2 && FreeClusters(table) == n - if t.Fat32? then 1 else 0
    requires free == if t.Fat32? then n - 1 else WORD - 1
    ensures Counted(table, free)
  {
  }

  /** A volume that f_mkfs made mounts exactly if alignment has left room for a cluster. It is
      then a sound volume object: equal tables, no chain but the root directory of FAT32, all
      other clusters free, and a free count that is true. */
  method MakeAndMount(opt: Options, blockSize: nat, disk0: seq<Sector>, vsn: nat, szBuf: nat)
    returns (res: Outcome, q: Request, c: Config, fs: FatVolume.Fatfs?)
    requires |disk0| < WORD && vsn < WORD && szBuf > 0
    ensures q == RequestOf(opt, blockSize, |disk0|)
    ensures res.InvalidParameter? <==> q.szVol >= 128 && !opt.fat && !opt.fat32
    ensures res.Aborted? <==>
              q.szVol < 128 || (opt.fat && Search(q, UnitOf(opt), Fat16) == Rejected)
              || (!opt.fat && opt.fat32 && Search(q, UnitOf(opt), Fat32) == Rejected)
    ensures Ordinary(opt, blockSize, |disk0|) ==> res.Formatted? && fs != null
    ensures res.Formatted? ==> (fs == null <==> NoRoom(q, c.fsty, c.pau))
    ensures res.Formatted? && fs != null ==>
              && fs.Valid() && fresh(fs) && fs.g == Recovered(c, |disk0|) && Made(c, fs.disk)
              && Mirrored(fs.g, fs.view) && Chains(TableOf(fs.g, fs.view), FreshChains(fs.g.fsType))
              && FreeClusters(TableOf(fs.g, fs.view)) == c.nClst - (if c.fsty.Fat32? then 1 else 0)
              && Counted(TableOf(fs.g, fs.view), fs.freeClst)
  {
    hide Search, UnitOf, RequestOf, Ordinary, Accepted, IsVbr, MountVolume, Fresh, NoRoom, IsInfo, Mirrored, Chains,
        TableOf, FreeCount, Recovered,
        Geometry.Ok, FatWindow.Valid;
    var disk;
    res, q, c, disk := MakeVolume(opt, blockSize, disk0, vsn, szBuf);
    fs := null;
    if res.Formatted? {
      MadeMounts(q, c, disk);
      fs := MountDisk(disk, c.bVol);
      if fs != null {
        FreshVolume(fs.g, fs.view);
        TrueFree(TableOf(fs.g, fs.view), c.nClst, fs.freeClst, c.fsty);
      }
    }
  }
}
