/** The boot sector f_mkfs writes and the checks by which check_fs and mount_volume
    recognize it. */
module BootSector {
  import opened Arith
  import opened Bits
  import opened Bytes
  import opened FatTable
  import opened FatWindow
  import opened Mkfs

  function Word(d: seq<byte>, i: nat): nat
    requires i + 1 < |d|
  {
    d[i] as nat + 0x100 * d[i + 1] as nat
  }

  function Dword(d: seq<byte>, i: nat): nat
    requires i + 3 < |d|
  {
    Word(d, i) + 0x1_0000 * Word(d, i + 2)
  }

  const FAT32_NAME: seq<byte> := [0x46, 0x41, 0x54, 0x33, 0x32, 0x20, 0x20, 0x20]

  const NO_NAME: seq<byte> := [0x4E, 0x4F, 0x20, 0x4E, 0x41, 0x4D, 0x45, 0x20, 0x20, 0x20, 0x20]

  // ---- check_fs

  datatype Kind = FatVbr | BootOnly | NoBoot

  /** Is the sector a FAT boot sector? */
  function CheckFs(d: Sector): Kind {
    var sign := Word(d, 510);
    var other := if sign == 0xAA55 then BootOnly else NoBoot;
    if d[0] != 0xEB && d[0] != 0xE9 && d[0] != 0xE8 then other
    else if sign == 0xAA55 && d[82..90] == FAT32_NAME then FatVbr
    else
      var w, b := Word(d, 11), d[13] as nat;
      if && And(w, w - 1) == 0 && 512 <= w <= 512 && b != 0 && And(b, b - 1) == 0
         && Word(d, 14) != 0 && (d[16] as nat - 1) % WORD <= 1 && Word(d, 17) != 0
         && (Word(d, 19) >= 128 || Dword(d, 32) >= 0x10000) && Word(d, 22) != 0
      then FatVbr else other
  }

  // ---- mount_volume

  datatype Mounted = NoFilesystem | Volume(g: Geometry, dirbase: nat, nRootdir: nat)

  function MountType(nclst: nat): FsType {
    if nclst <= MAX_FAT12 then Fat12 else if nclst <= MAX_FAT16 then Fat16 else Fat32
  }

  /** Bytes of table mount_volume asks for. */
  function Wanted(t: FsType, nFatent: nat): nat {
    match t
    case Fat32 => nFatent * 4 % WORD
    case Fat16 => nFatent * 2 % WORD
    case Fat12 => nFatent * 3 / 2 + nFatent % 2
  }

  /** The parameters mount_volume reads from a boot sector. */
  datatype Params = Params(bytes: nat, csize: nat, nrsv: nat, nFats: nat, nRoot: nat, tsect: nat, fsize: nat,
      version: nat, root: nat)

  function ParamsOf(d: Sector): Params {
    Params(Word(d, 11), d[13] as nat, Word(d, 14), d[16] as nat, Word(d, 17),
           if Word(d, 19) == 0 then Dword(d, 32) else Word(d, 19),
           if Word(d, 22) == 0 then Dword(d, 36) else Word(d, 22), Word(d, 42), Dword(d, 44))
  }

  function ClustersLeft(tsect: nat, sysect: nat, csize: nat): nat
    requires sysect <= tsect && csize > 0
  {
    (tsect - sysect) / csize
  }

  /** The geometry mount_volume makes of them for a boot sector at bsect, with 32-bit sums. */
  function Geometrize(b: Params, bsect: nat, sectors: nat): Mounted {
    if b.bytes != SS || (b.nFats != 1 && b.nFats != 2) || b.csize == 0 || And(b.csize, b.csize - 1) != 0
        || b.nRoot % 16 != 0 || b.nrsv == 0
    then NoFilesystem
    else
      var fasize := b.fsize * b.nFats % WORD;
      var sysect := (b.nrsv + fasize + b.nRoot / 16) % WORD;
      if b.tsect < sysect then NoFilesystem
      else
        var nclst := ClustersLeft(b.tsect, sysect, b.csize);
        var t := MountType(nclst);
        if nclst == 0 || nclst > MAX_FAT32 then NoFilesystem
        else if t.Fat32? && (b.version != 0 || b.nRoot != 0) then NoFilesystem
        else if !t.Fat32? && b.nRoot == 0 then NoFilesystem
        else if b.fsize < (Wanted(t, nclst + 2) + (SS - 1)) / SS then NoFilesystem
        else
          var g := Geometry(t, b.nFats, b.fsize, (bsect + b.nrsv) % WORD, (bsect + sysect) % WORD, b.csize, nclst + 2,
              sectors);
          Volume(g, if t.Fat32? then b.root else (g.fatbase + fasize) % WORD, b.nRoot)
  }

  function MountVolume(d: Sector, bsect: nat, sectors: nat): Mounted {
    Geometrize(ParamsOf(d), bsect, sectors)
  }

  // ---- what f_mkfs writes

  function RootEntries(c: Config): nat { if c.fsty.Fat32? then 0 else c.nRoot }

  /** The boot sector of a geometry, as far as it is looked at. */
  predicate IsVbr(d: Sector, c: Config) {
    && d[0] == 0xEB && Word(d, 510) == 0xAA55
    && Word(d, 11) == SS && d[13] as nat == c.pau && Word(d, 14) == c.szRsv && d[16] as nat == c.nFat
        && Word(d, 17) == RootEntries(c)
    && (if c.szVol < 0x10000 then Word(d, 19) == c.szVol && Dword(d, 32) == 0
        else Word(d, 19) == 0 && Dword(d, 32) == c.szVol)
    && Dword(d, 28) == c.bVol
    && (if c.fsty.Fat32?
        then Word(d, 22) == 0 && Dword(d, 36) == c.szFat && Word(d, 42) == 0 && Dword(d, 44) == 2 && Word(d, 48) == 1
            && d[82..90] == FAT32_NAME
        else Word(d, 22) == c.szFat && d[82..90] != FAT32_NAME)
  }

  function ByteOf(x: nat, k: nat): byte
    requires k < 4
  {
    ((match k case 0 => x case 1 => x / 0x100 case 2 => x / 0x1_0000 case _ => x / 0x100_0000) % 0x100) as byte
  }

  lemma DwordBytes(x: nat)
    requires x < WORD
    ensures ByteOf(x, 0) as nat + 0x100 * ByteOf(x, 1) as nat
        + 0x1_0000 * (ByteOf(x, 2) as nat + 0x100 * ByteOf(x, 3) as nat) == x
    ensures x < 0x1_0000 ==> ByteOf(x, 0) as nat + 0x100 * ByteOf(x, 1) as nat == x
  {
    hide ByteOf;
    var a, b, c := x / 0x100, x / 0x1_0000, x / 0x100_0000;
    DivTwice(x, 0x100, 0x100);
    DivTwice(x, 0x1_0000, 0x100);
    DivMod(x, 0x100);
    DivMod(a, 0x100);
    DivMod(b, 0x100);
    SmallByte(c);
    BytesOf(x);
  }

  lemma BytesOf(x: nat)
    ensures ByteOf(x, 0) as nat == x % 0x100 && ByteOf(x, 1) as nat == x / 0x100 % 0x100
    ensures ByteOf(x, 2) as nat == x / 0x1_0000 % 0x100 && ByteOf(x, 3) as nat == x / 0x100_0000 % 0x100
  {
  }

  lemma SmallByte(c: nat)
    ensures c < 0x100 ==> c % 0x100 == c
  {
  }

  function Half(a: byte, b: byte): nat {
    a as nat + 0x100 * b as nat
  }

  method StWord(buf: array<byte>, i: nat, w: nat)
    requires i + 1 < buf.Length && w < 0x1_0000
    modifies buf
    ensures Half(buf[i], buf[i + 1]) == w
    ensures forall k :: 0 <= k < buf.Length && k != i && k != i + 1 ==> buf[k] == old(buf[k])
  {
    DwordBytes(w);
    buf[i], buf[i + 1] := ByteOf(w, 0), ByteOf(w, 1);
  }

  method StDword(buf: array<byte>, i: nat, w: nat)
    requires i + 3 < buf.Length && w < WORD
    modifies buf
    ensures Half(buf[i], buf[i + 1]) + 0x1_0000 * Half(buf[i + 2], buf[i + 3]) == w
    ensures forall k :: 0 <= k < buf.Length && !(i <= k < i + 4) ==> buf[k] == old(buf[k])
  {
    hide ByteOf;
    DwordBytes(w);
    buf[i], buf[i + 1], buf[i + 2], buf[i + 3] := ByteOf(w, 0), ByteOf(w, 1), ByteOf(w, 2), ByteOf(w, 3);
  }

  method StText(buf: array<byte>, i: nat, s: seq<byte>)
    requires i + |s| <= buf.Length
    modifies buf
    ensures forall k :: 0 <= k < buf.Length ==> buf[k] == if i <= k < i + |s| then s[k - i] else old(buf[k])
  {
    forall k | 0 <= k < |s| {
      buf[i + k] := s[k];
    }
  }

  const BOOT_OEM: seq<byte> := [0xEB, 0xFE, 0x90, 0x4D, 0x53, 0x44, 0x4F, 0x53, 0x35, 0x2E, 0x30]
  const FAT_NAME: seq<byte> := [0x46, 0x41, 0x54, 0x20, 0x20, 0x20, 0x20, 0x20]

  /** The fields all types share, by bytes. */
  predicate Head(d: seq<byte>, c: Config)
    requires |d| == SS
  {
    && d[0] == 0xEB && Half(d[11], d[12]) == SS && d[13] as nat == c.pau && Half(d[14], d[15]) == c.szRsv
    && d[16] as nat == c.nFat && Half(d[17], d[18]) == RootEntries(c)
  }

  predicate Extent(d: seq<byte>, c: Config)
    requires |d| == SS
  {
    && Half(d[28], d[29]) + 0x1_0000 * Half(d[30], d[31]) == c.bVol
    && (if c.szVol < 0x10000 then Half(d[19], d[20]) == c.szVol && d[32] == 0 && d[33] == 0 && d[34] == 0 && d[35] == 0
        else d[19] == 0 && d[20] == 0 && Half(d[32], d[33]) + 0x1_0000 * Half(d[34], d[35]) == c.szVol)
  }

  /** The fields that differ. */
  predicate Special(d: seq<byte>, c: Config)
    requires |d| == SS
  {
    && d[510] == 0x55 && d[511] == 0xAA
    && if c.fsty.Fat32?
       then && d[22] == 0 && d[23] == 0 && Half(d[36], d[37]) + 0x1_0000 * Half(d[38], d[39]) == c.szFat && d[42] == 0
           && d[43] == 0
            && Half(d[44], d[45]) + 0x1_0000 * Half(d[46], d[47]) == 2 && Half(d[48], d[49]) == 1
            && (forall k :: 0 <= k < 8 ==> d[82 + k] == FAT32_NAME[k])
       else Half(d[22], d[23]) == c.szFat && d[82] == 0
  }

  method WriteHead(buf: array<byte>, c: Config)
    requires buf.Length == SS && c.pau < 0x100 && c.szRsv < 0x1_0000 && c.nFat <= 2 && c.nRoot < 0x1_0000
    modifies buf
    ensures Head(buf[..], c) && forall k :: 19 <= k < SS ==> buf[k] == 0
  {
    forall k | 0 <= k < SS {
      buf[k] := 0;
    }
    StText(buf, 0, BOOT_OEM);
    StWord(buf, 11, SS);
    buf[13] := c.pau as byte;
    StWord(buf, 14, c.szRsv);
    buf[16] := c.nFat as byte;
    StWord(buf, 17, RootEntries(c));
  }

  method WriteExtent(buf: array<byte>, c: Config)
    requires buf.Length == SS && c.szVol < WORD && c.bVol < WORD && forall k :: 19 <= k < SS ==> buf[k] == 0
    modifies buf
    ensures Extent(buf[..], c) && buf[22] == 0 && buf[23] == 0
    ensures forall k :: 36 <= k < SS ==> buf[k] == 0
    ensures forall k :: 0 <= k < 19 ==> buf[k] == old(buf[k])
  {
    if c.szVol < 0x10000 {
      StWord(buf, 19, c.szVol);
    } else {
      StDword(buf, 32, c.szVol);
    }
    buf[21] := 0xF8;
    StWord(buf, 24, 63);
    StWord(buf, 26, 255);
    StDword(buf, 28, c.bVol);
  }

  predicate Fields32(d: seq<byte>, c: Config)
    requires |d| == SS
  {
    && Half(d[36], d[37]) + 0x1_0000 * Half(d[38], d[39]) == c.szFat && d[42] == 0 && d[43] == 0
    && Half(d[44], d[45]) + 0x1_0000 * Half(d[46], d[47]) == 2 && Half(d[48], d[49]) == 1
  }

  method WriteFields32(buf: array<byte>, c: Config)
    requires buf.Length == SS && c.szFat < WORD && forall k :: 36 <= k < 67 ==> buf[k] == 0
    modifies buf
    ensures Fields32(buf[..], c) && forall k :: 0 <= k < 36 ==> buf[k] == old(buf[k])
  {
    StDword(buf, 36, c.szFat);
    StDword(buf, 44, 2);
    StWord(buf, 48, 1);
    StWord(buf, 50, 6);
    buf[64] := 0x80;
    buf[66] := 0x29;
  }

  method WriteNames32(buf: array<byte>)
    requires buf.Length == SS
    modifies buf
    ensures buf[510] == 0x55 && buf[511] == 0xAA && forall k :: 0 <= k < 8 ==> buf[82 + k] == FAT32_NAME[k]
    ensures forall k :: 0 <= k < 71 ==> buf[k] == old(buf[k])
  {
    StText(buf, 71, NO_NAME);
    StText(buf, 82, FAT32_NAME);
    buf[510], buf[511] := 0x55, 0xAA;
  }

  method WriteTail32(buf: array<byte>, c: Config, vsn: nat)
    requires buf.Length == SS && c.fsty.Fat32? && c.szFat < WORD && vsn < WORD
    requires buf[22] == 0 && buf[23] == 0 && forall k :: 36 <= k < SS ==> buf[k] == 0
    modifies buf
    ensures Special(buf[..], c) && forall k :: 0 <= k < 36 && k != 22 && k != 23 ==> buf[k] == old(buf[k])
  {
    StDword(buf, 67, vsn);
    WriteFields32(buf, c);
    ghost var d := buf[..];
    WriteNames32(buf);
    assert forall k :: 0 <= k < 71 ==> buf[..][k] == d[k];
  }

  method WriteTail16(buf: array<byte>, c: Config, vsn: nat)
    requires buf.Length == SS && !c.fsty.Fat32? && c.szFat < 0x1_0000 && vsn < WORD
    requires forall k :: 36 <= k < SS ==> buf[k] == 0
    modifies buf
    ensures Special(buf[..], c) && forall k :: 0 <= k < 36 && k != 22 && k != 23 ==> buf[k] == old(buf[k])
  {
    StDword(buf, 39, vsn);
    StWord(buf, 22, c.szFat);
    buf[36] := 0x80;
    buf[38] := 0x29;
    StText(buf, 43, NO_NAME);
    StText(buf, 54, FAT_NAME);
    buf[510], buf[511] := 0x55, 0xAA;
  }

  method WriteVbr(buf: array<byte>, q: Request, c: Config, vsn: nat)
    requires buf.Length == SS && q.Ok() && Accepted(q, c) && vsn < WORD
    modifies buf
    ensures IsVbr(buf[..], c)
  {
    hide Head, Extent, Special, Accepted, IsVbr;
    FieldsFit(q, c);
    CountIs(q, c);
    WriteHead(buf, c);
    ghost var h := buf[..];
    WriteExtent(buf, c);
    ghost var d := buf[..];
    if c.fsty.Fat32? {
      WriteTail32(buf, c, vsn);
    } else {
      WriteTail16(buf, c, vsn);
    }
    VbrWritten(h, d, buf[..], c);
  }

  lemma FieldsFit(q: Request, c: Config)
    requires q.Ok() && Accepted(q, c)
    ensures 1 <= c.pau <= 128 && c.szRsv < 0x1_0000 && 1 <= c.nFat <= 2 && 16 <= c.nRoot <= 0x8000 && c.nRoot % 16 == 0
    ensures 128 <= c.szVol < WORD && c.bVol + c.szVol < WORD && c.szFat <= c.System() <= c.szVol
  {
  }

  lemma VbrWritten(h: Sector, d: Sector, e: Sector, c: Config)
    requires Head(h, c) && Extent(d, c) && Special(e, c)
    requires forall k :: 0 <= k < 19 ==> d[k] == h[k]
    requires forall k :: 0 <= k < 36 && k != 22 && k != 23 ==> e[k] == d[k]
    ensures IsVbr(e, c)
  {
    if c.fsty.Fat32? {
      assert e[82..90] == FAT32_NAME;
    } else {
      assert e[82..90][0] == 0 && FAT32_NAME[0] == 0x46;
    }
  }

  // ---- f_mkfs and mount agree

  lemma UnitPower(x: nat)
    requires x in AU_SIZES
    ensures 0 < x && And(x, x - 1) == 0
  {
    hide And;
    if x > 1 {
      HalfUnit(x);
      UnitPower(x / 2);
      EvenPower(x);
    } else {
      AndMasks(1);
    }
  }

  lemma HalfUnit(x: nat)
    requires x in AU_SIZES && x > 1
    ensures x % 2 == 0 && x / 2 in AU_SIZES
  {
  }

  lemma EvenPower(x: nat)
    requires x > 0 && x % 2 == 0 && And(x / 2, x / 2 - 1) == 0
    ensures And(x, x - 1) == 0
  {
    AndStep(x, x - 1);
    assert (x - 1) / 2 == x / 2 - 1;
  }

  /** The boot sector of every accepted geometry is recognized. */
  lemma Recognized(q: Request, c: Config, d: Sector)
    requires q.Ok() && Accepted(q, c) && IsVbr(d, c)
    ensures CheckFs(d) == FatVbr
  {
    hide Word, Dword, And, Accepted;
    FieldsFit(q, c);
    CountIs(q, c);
    UnitPower(c.pau);
    SectorPower();
  }

  lemma SectorPower()
    ensures And(512, 511) == 0
  {
    assert Pow2(3) == 8;
    Pow2Add(3, 3);
    Pow2Add(6, 3);
    PowerTestHolds(9);
  }

  /** The geometry mount_volume should recover. */
  function Recovered(c: Config, sectors: nat): Geometry {
    Geometry(c.fsty, c.nFat, c.szFat, c.bVol + c.szRsv, c.bVol + c.System(), c.pau, c.nClst + 2, sectors)
  }

  /** Where the root directory begins: a cluster on FAT32, else the sector behind the tables. */
  function RootBase(c: Config): nat {
    if c.fsty.Fat32? then 2 else c.bVol + c.szRsv + c.Tables()
  }

  lemma RootFits(q: Request, c: Config)
    requires q.Ok() && Accepted(q, c)
    ensures (c.bVol + c.szRsv + c.Tables()) % WORD == c.bVol + c.szRsv + c.Tables()
  {
    hide Accepted;
    FieldsFit(q, c);
    CountIs(q, c);
    Wrap(c.bVol + c.szRsv + c.Tables());
  }

  lemma SumsFit(q: Request, c: Config)
    requires q.Ok() && Accepted(q, c)
    ensures c.szFat * c.nFat % WORD == (if c.nFat == 2 then 2 * c.szFat else c.szFat)
    ensures RootEntries(c) / 16 == c.DirSectors() && c.bVol + c.System() < WORD
    ensures (c.szRsv + (if c.nFat == 2 then 2 * c.szFat else c.szFat) + c.DirSectors()) % WORD == c.System()
    ensures (c.bVol + c.szRsv) % WORD == c.bVol + c.szRsv && (c.bVol + c.System()) % WORD == c.bVol + c.System()
  {
    hide Accepted;
    FieldsFit(q, c);
    CountIs(q, c);
    TwoTimes(c.nFat, c.szFat);
    var t := if c.nFat == 2 then 2 * c.szFat else c.szFat;
    Wrap(t);
    Wrap(c.System());
    Wrap(c.bVol + c.szRsv);
    Wrap(c.bVol + c.System());
  }

  lemma TypeAgrees(q: Request, c: Config)
    requires Accepted(q, c)
    ensures MountType(c.nClst) == c.fsty && c.nClst <= MAX_FAT32
  {
  }

  lemma FatEnough(q: Request, c: Config)
    requires Accepted(q, c)
    ensures (Wanted(c.fsty, c.nClst + 2) + (SS - 1)) / SS <= c.szFat
  {
    TypeAgrees(q, c);
    var w := TableBytes(c.fsty, c.nClst + 2);
    assert Wanted(c.fsty, c.nClst + 2) == w;
    assert (w + (SS - 1)) / SS <= (SS * c.szFat + (SS - 1)) / SS == c.szFat;
  }

  /** mount_volume recovers exactly the geometry f_mkfs chose, and refuses a volume that was
      given no cluster. */
  lemma Mounts(q: Request, c: Config, d: Sector, sectors: nat)
    requires q.Ok() && Accepted(q, c) && IsVbr(d, c)
    ensures var m := MountVolume(d, c.bVol, sectors);
      if c.nClst == 0 then m == NoFilesystem
      else m == Volume(Recovered(c, sectors), RootBase(c), RootEntries(c))
  {
    hide ParamsOf, Geometrize, Accepted, IsVbr;
    VbrParams(q, c, d);
    VbrGeometry(q, c, ParamsOf(d), sectors);
  }

  /** The outcome for parameters that pass the checks. */
  lemma Geometrized(b: Params, bsect: nat, sectors: nat, fasize: nat, sysect: nat, n: nat, t: FsType)
    requires b.bytes == SS && 1 <= b.nFats <= 2 && b.csize > 0 && And(b.csize, b.csize - 1) == 0 && b.nRoot % 16 == 0
    requires b.nrsv > 0 && fasize == b.fsize * b.nFats % WORD && sysect == (b.nrsv + fasize + b.nRoot / 16) % WORD
    requires sysect <= b.tsect && n == (b.tsect - sysect) / b.csize && n <= MAX_FAT32 && t == MountType(n)
    requires (if t.Fat32? then b.version == 0 && b.nRoot == 0 else b.nRoot != 0)
    requires b.fsize >= (Wanted(t, n + 2) + (SS - 1)) / SS
    ensures Geometrize(b, bsect, sectors)
        == if n == 0 then NoFilesystem
           else Volume(Geometry(t, b.nFats, b.fsize, (bsect + b.nrsv) % WORD, (bsect + sysect) % WORD, b.csize, n + 2,
               sectors), if t.Fat32? then b.root else ((bsect + b.nrsv) % WORD + fasize) % WORD, b.nRoot)
  {
    hide And, Wanted, MountType;
  }

  /** What mount_volume reads from a boot sector of f_mkfs. */
  lemma VbrParams(q: Request, c: Config, d: Sector)
    requires q.Ok() && Accepted(q, c) && IsVbr(d, c)
    ensures var b := ParamsOf(d);
      && b == Params(SS, c.pau, c.szRsv, c.nFat, RootEntries(c), c.szVol, c.szFat, b.version, b.root)
      && (c.fsty.Fat32? ==> b.version == 0 && b.root == 2)
  {
    hide Word, Dword, Accepted;
    FieldsFit(q, c);
    CountIs(q, c);
  }

  lemma VbrGeometry(q: Request, c: Config, b: Params, sectors: nat)
    requires q.Ok() && Accepted(q, c)
    requires b == Params(SS, c.pau, c.szRsv, c.nFat, RootEntries(c), c.szVol, c.szFat, b.version, b.root)
    requires c.fsty.Fat32? ==> b.version == 0 && b.root == 2
    ensures Geometrize(b, c.bVol, sectors)
        == if c.nClst == 0 then NoFilesystem else Volume(Recovered(c, sectors), RootBase(c), RootEntries(c))
  {
    hide And, Wanted, MountType, Accepted, Geometrize;
    FieldsFit(q, c);
    CountIs(q, c);
    UnitPower(c.pau);
    SumsFit(q, c);
    TypeAgrees(q, c);
    FatEnough(q, c);
    RootFits(q, c);
    Geometrized(b, c.bVol, sectors, c.Tables(), c.System(), c.nClst, c.fsty);
  }

  lemma CountIs(q: Request, c: Config)
    requires Accepted(q, c)
    ensures c.System() <= c.szVol && c.pau > 0 && c.nClst == (c.szVol - c.System()) / c.pau && c.szRsv >= 1
    ensures c.pau in AU_SIZES && (c.fsty.Fat32? || c.szFat < 0x1_0000) && c.szFat >= 1
  {
  }

  /** The recovered geometry is a sound one for the volume layer, with an aligned data area. */
  lemma RecoveredOk(q: Request, c: Config, sectors: nat)
    requires q.Ok() && Accepted(q, c) && c.nClst > 0 && c.bVol + c.szVol <= sectors <= WORD
    ensures Recovered(c, sectors).Ok() && Recovered(c, sectors).database % q.szBlk == 0
  {
    hide And, TableBytes, MaxEntries;
    FieldsFit(q, c);
    TypeAgrees(q, c);
    DivMod(c.szVol - c.System(), c.pau);
    EntriesFit(c.fsty, c.nClst);
  }

  lemma EntriesFit(t: FsType, n: nat)
    requires t == MountType(n) && n <= MAX_FAT32
    ensures n + 2 <= MaxEntries(t)
  {
  }

  lemma ByteUnit(x: nat)
    requires 0 < x < 0x100 && And(x, x - 1) == 0
    ensures x in AU_SIZES
  {
    hide And;
    var k := PowerTest(x);
    if k > 7 {
      assert Pow2(7) == 128 by { Pow2Add(3, 4); assert Pow2(3) == 8; assert Pow2(4) == 2 * Pow2(3); }
      PowMonotone(8, k);
    } else {
      SmallPowers(k);
    }
  }

  /** Every boot sector that mounts gives a sound geometry, provided its system area does not
      wrap a 32-bit sector count and the volume lies on the medium. */
  lemma MountedOk(b: Params, bsect: nat, sectors: nat)
    requires b.nrsv < 0x1_0000 && b.csize < 0x100 && b.fsize < WORD && b.nRoot < 0x1_0000
    requires b.nrsv + b.nFats * b.fsize + b.nRoot / 16 < WORD && bsect + b.tsect <= sectors <= WORD
    ensures var m := Geometrize(b, bsect, sectors); m.Volume? ==> m.g.Ok() && m.g.csize == b.csize
  {
    hide And, Wanted, MountType, TableBytes, MaxEntries;
    var m := Geometrize(b, bsect, sectors);
    if m.Volume? {
      ByteUnit(b.csize);
      TwoTimes(b.nFats, b.fsize);
      var tabs := if b.nFats == 2 then 2 * b.fsize else b.fsize;
      var sys := b.nrsv + tabs + b.nRoot / 16;
      Wrap(tabs);
      Wrap(sys);
      Wrap(bsect + b.nrsv);
      Wrap(bsect + sys);
      var n := ClustersLeft(b.tsect, sys, b.csize);
      DivMod(b.tsect - sys, b.csize);
      EntriesFit(MountType(n), n);
      WantedFits(MountType(n), n, b.fsize);
    }
  }

  lemma WantedFits(t: FsType, n: nat, fsize: nat)
    requires t == MountType(n) && n <= MAX_FAT32 && fsize >= (Wanted(t, n + 2) + (SS - 1)) / SS
    ensures TableBytes(t, n + 2) <= SS * fsize
  {
    var w := Wanted(t, n + 2);
    assert w == TableBytes(t, n + 2);
    assert SS * ((w + (SS - 1)) / SS) >= w;
  }

  lemma PowerByte(b: byte)
    ensures b != 0 && And(b as nat, b as nat - 1) == 0 <==> b as nat in AU_SIZES
  {
    hide And;
    if b as nat in AU_SIZES {
      UnitPower(b as nat);
    } else if b != 0 && And(b as nat, b as nat - 1) == 0 {
      ByteUnit(b as nat);
    }
  }

  /** Which sectors check_fs takes for a FAT boot sector, and which for another boot sector. */
  lemma RecognizedOnly(d: Sector)
    ensures CheckFs(d) == FatVbr <==>
      && (d[0] == 0xEB || d[0] == 0xE9 || d[0] == 0xE8)
      && (|| (d[510] == 0x55 && d[511] == 0xAA && d[82..90] == [0x46, 0x41, 0x54, 0x33, 0x32, 0x20, 0x20, 0x20])
          || (&& d[11] == 0 && d[12] == 2 && d[13] in {1, 2, 4, 8, 16, 32, 64, 128} && (d[14] != 0 || d[15] != 0)
              && (d[16] == 1 || d[16] == 2) && (d[17] != 0 || d[18] != 0)
              && (d[19] as nat + 256 * d[20] as nat >= 128 || d[34] != 0 || d[35] != 0) && (d[22] != 0 || d[23] != 0)))
    ensures CheckFs(d) == BootOnly <==> CheckFs(d) != FatVbr && d[510] == 0x55 && d[511] == 0xAA
  {
    PowerByte(d[13]);
    SectorPower();
    Wrap(d[16] as nat - 1);
    SignByte(d[510], d[511]);
    hide And;
  }

  lemma SignByte(a: byte, b: byte)
    ensures a as nat + 0x100 * b as nat == 0xAA55 <==> a == 0x55 && b == 0xAA
  {
  }

  /** Which parameters mount_volume accepts, for sums that fit 32 bits: sensible fields, at
      least one cluster, a root directory where the cluster count calls for one, and tables
      that hold an entry for every cluster. */
  lemma MountsOnly(b: Params, bsect: nat, sectors: nat)
    requires b.nrsv < 0x1_0000 && b.csize < 0x100 && b.fsize < WORD && b.nRoot < 0x1_0000
    requires b.nrsv + b.nFats * b.fsize + b.nRoot / 16 < WORD && bsect + b.tsect < WORD
    ensures var m := Geometrize(b, bsect, sectors);
      var sys := b.nrsv + b.nFats * b.fsize + b.nRoot / 16;
      m.Volume? <==>
        && b.bytes == 512 && (b.nFats == 1 || b.nFats == 2) && b.csize in {1, 2, 4, 8, 16, 32, 64, 128}
        && b.nRoot % 16 == 0 && b.nrsv > 0 && sys <= b.tsect
        && var n := (b.tsect - sys) / b.csize;
           && 1 <= n <= 0x0FFF_FFF5
           && (if n > 65525 then b.version == 0 && b.nRoot == 0 else b.nRoot > 0)
           && TableBytes(if n <= 4085 then Fat12 else if n <= 65525 then Fat16 else Fat32, n + 2) <= 512 * b.fsize
  {
    hide And;
    PowerByte(b.csize as byte);
    Wrap(b.nFats * b.fsize);
    Wrap(b.nrsv + b.nFats * b.fsize + b.nRoot / 16);
    var sys := b.nrsv + b.nFats * b.fsize + b.nRoot / 16;
    if b.csize > 0 && sys <= b.tsect {
      var n := ClustersLeft(b.tsect, sys, b.csize);
      if n <= 0x0FFF_FFF5 {
        WantedExactly(MountType(n), n, b.fsize);
      }
    }
  }

  lemma WantedExactly(t: FsType, n: nat, fsize: nat)
    requires t == MountType(n) && n <= 0x0FFF_FFF5
    ensures fsize >= (Wanted(t, n + 2) + (SS - 1)) / SS <==> TableBytes(t, n + 2) <= 512 * fsize
  {
    var w := Wanted(t, n + 2);
    assert w == TableBytes(t, n + 2);
    var k := (w + (SS - 1)) / SS;
    assert SS * k >= w && SS * k < w + SS;
  }
}
