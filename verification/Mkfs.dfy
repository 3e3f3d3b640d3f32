/** Choosing the geometry of a FAT volume, as f_mkfs does. */
module Mkfs {
  import opened Arith
  import opened Bits
  import opened FatTable
  import opened FatWindow

  const TOO_MANY: nat := 0x8000

  // ---- arithmetic on powers of two

  ghost predicate IsPower(x: nat) {
    exists k: nat :: x == Pow2(k)
  }

  /** The usual bit trick recognizes exactly the powers of two (and 0). */
  lemma {:induction false} PowerTest(x: nat) returns (k: nat)
    requires x > 0 && And(x, x - 1) == 0
    ensures x == Pow2(k)
  {
    k := 0;
    if x > 1 {
      AndStep(x, x - 1);
      if x % 2 == 1 {
        assert (x - 1) / 2 == x / 2;
        AndSelf(x / 2);
      } else {
        assert (x - 1) / 2 == x / 2 - 1;
        k := PowerTest(x / 2);
        k := k + 1;
      }
    }
  }

  lemma {:induction false} AndSelf(x: nat)
    ensures And(x, x) == x
  {
    if x > 0 {
      AndStep(x, x);
      AndSelf(x / 2);
    }
  }

  lemma {:induction false} PowerTestHolds(k: nat)
    ensures And(Pow2(k), Pow2(k) - 1) == 0
  {
    if k > 0 {
      PowerTestHolds(k - 1);
      AndStep(Pow2(k), Pow2(k) - 1);
    } else {
      AndMasks(1);
    }
  }

  lemma SmallPowers(j: nat)
    requires j <= 7
    ensures Pow2(j) in {1, 2, 4, 8, 16, 32, 64, 128}
  {
    if j > 0 {
      SmallPowers(j - 1);
      if j == 7 {
        assert Pow2(6) == 64 by { assert Pow2(3) == 8; Pow2Add(3, 3); }
      } else {
        assert Pow2(0) == 1 && Pow2(1) == 2 && Pow2(2) == 4 && Pow2(3) == 8;
        assert j >= 4 ==> Pow2(j) == 8 * Pow2(j - 3) by { if j >= 4 { Pow2Add(3, j - 3); } }
      }
    }
  }

  // ---- a volume and its boot parameters

  /** The geometry f_mkfs settles on: table type, sectors per cluster, reserved sectors,
      sectors per table, number of tables, root entries, volume base and size, clusters. */
  datatype Config = Config(fsty: FsType, pau: nat, szRsv: nat, szFat: nat, nFat: nat, nRoot: nat,
                           bVol: nat, szVol: nat, nClst: nat)
  {
    function DirSectors(): nat { if fsty.Fat32? then 0 else nRoot / 16 }

    /** Sectors before the data area. */
    function System(): nat { szRsv + Tables() + DirSectors() }

    function Tables(): nat { if nFat == 2 then 2 * szFat else szFat }
  }

  /** What the caller and the medium prescribe. */
  datatype Request = Request(bVol: nat, szVol: nat, szBlk: nat, nFat: nat, nRoot: nat, fat32: bool)
  {
    ghost predicate Ok() {
      && (bVol == 0 || bVol == 63) && 128 <= szVol && bVol + szVol < WORD && 1 <= nFat <= 2
      && 1 <= szBlk <= TOO_MANY && IsPower(szBlk) && 16 <= nRoot <= 0x8000 && nRoot % 16 == 0
    }
  }

  const AU_SIZES: set<nat> := {1, 2, 4, 8, 16, 32, 64, 128}

  /** An accepted geometry: the system area fits without any wrap-around, the cluster count
      is what is left and decides the type, the tables are large enough, the data area is
      aligned, and every number fits its field of the boot sector. */
  predicate Accepted(q: Request, c: Config) {
    && c.bVol == q.bVol && c.szVol == q.szVol && c.nFat == q.nFat && c.nRoot == q.nRoot && c.pau in AU_SIZES
    && c.System() <= c.szVol && c.nClst == (c.szVol - c.System()) / c.pau
    && (c.fsty.Fat12? ==> c.nClst <= MAX_FAT12)
    && (c.fsty.Fat16? ==> MAX_FAT12 < c.nClst <= MAX_FAT16)
    && (c.fsty.Fat32? ==> MAX_FAT16 < c.nClst <= MAX_FAT32)
    && TableBytes(c.fsty, c.nClst + 2) <= SS * c.szFat
    && (q.szBlk > 0 ==> (c.bVol + c.System()) % q.szBlk == 0)
    && (if c.fsty.Fat32? then 32 else 1) <= c.szRsv < 0x10000 && 1 <= c.szFat && (!c.fsty.Fat32? ==> c.szFat < 0x10000)
  }

  // ---- alignment

  /** Sectors to the next boundary. */
  lemma Alignment(b: nat, k: nat, blk: nat)
    requires k <= 15 && blk == Pow2(k) && b + blk <= WORD
    ensures var n := And(b + blk - 1, WORD - 1 - (blk - 1)) - b;
      0 <= n < blk && (b + n) % blk == 0 && n == AlignGap(b, blk)
  {
    hide And, Pow2;
    PowersUpTo(k);
    var x := b + blk - 1;
    MaskHigh(x, k, blk);
    DivMod(x, blk);
    ModUnique((x / blk) * blk, blk, x / blk, 0);
    GapUnique(b, (x / blk) * blk - b, blk);
  }

  /** Sectors from b to the next multiple of blk. */
  function AlignGap(b: nat, blk: nat): (n: nat)
    requires blk > 0
    ensures n < blk
  {
    (blk - b % blk) % blk
  }

  lemma GapUnique(b: nat, n: nat, blk: nat)
    requires n < blk && (b + n) % blk == 0
    ensures n == AlignGap(b, blk)
  {
    DivMod(b, blk);
    DivMod(b + n, blk);
    var r, t := b % blk, (b + n) / blk - b / blk;
    TimesDistribute(blk, (b + n) / blk, b / blk);
    if r == 0 {
      if t >= 1 { TimesMonotone(blk, 1, t); }
      if t < 0 { TimesNegative(blk, t); }
      ModUnique(blk, blk, 1, 0);
    } else {
      if t >= 2 { TimesMonotone(blk, 2, t); }
      if t <= 0 { TimesNegative(blk, t); }
      ModUnique(blk - r, blk, 0, blk - r);
    }
  }

  lemma TimesDistribute(m: nat, a: nat, b: nat)
    ensures m * (a - b) == m * a - m * b
  {
  }

  lemma TimesNegative(m: nat, t: int)
    requires t <= 0
    ensures m * t <= 0
  {
  }

  lemma PowersUpTo(k: nat)
    requires k <= 15
    ensures Pow2(32) == WORD && 1 <= Pow2(k) <= TOO_MANY
  {
    Pow2Add(16, 16);
    Pow2Add(8, 8);
    assert Pow2(8) == 0x100;
    PowMonotone(k, 15);
    Pow2Add(8, 7);
    assert Pow2(7) == 0x80;
  }

  lemma {:induction false} PowMonotone(a: nat, b: nat)
    requires a <= b
    ensures Pow2(a) <= Pow2(b)
    decreases b - a
  {
    if a < b {
      PowMonotone(a, b - 1);
    }
  }

  // ---- one attempt of the geometry loop

  /** A layout that is tried: the clusters the whole volume would make, the tables sized for
      them, and the n sectors that align the data area. */
  datatype Plan = Plan(fsty: FsType, pau: nat, pre: nat, szRsv: nat, szFat: nat, n: nat)

  function ConfigOf(q: Request, p: Plan, nClst: nat): Config {
    Config(p.fsty, p.pau, p.szRsv, p.szFat, q.nFat, q.nRoot, q.bVol, q.szVol, nClst)
  }

  /** Bytes of table for pre clusters, as a 32-bit number. */
  function Need(fsty: FsType, pre: nat): nat {
    match fsty
    case Fat32 => (pre * 4 + 8) % WORD
    case Fat16 => (pre * 2 + 4) % WORD
    case Fat12 => (pre * 3 + 1) / 2 + 3
  }

  function NeedSectors(fsty: FsType, pre: nat): nat {
    (Need(fsty, pre) + (SS - 1)) % WORD / SS
  }

  predicate Planned(q: Request, p: Plan) {
    && p.pau in AU_SIZES && p.pre == q.szVol / p.pau && 1 <= q.nFat <= 2 && p.n < q.szBlk <= TOO_MANY
    && (p.fsty.Fat32? ==> MAX_FAT16 < p.pre <= MAX_FAT32 && p.szRsv == 32 + p.n && p.szFat == NeedSectors(Fat32, p.pre))
    && (!p.fsty.Fat32? ==>
          && (p.fsty.Fat12? <==> p.pre <= MAX_FAT12)
          && var odd := if p.n % q.nFat != 0 then 1 else 0;
             p.szRsv == 1 + odd && p.szFat == NeedSectors(p.fsty, p.pre) + (p.n - odd) / q.nFat)
    && (q.bVol + ConfigOf(q, p, 0).System()) % q.szBlk == 0
    && ConfigOf(q, p, 0).System() - p.n + 16 * p.pau <= q.szVol < WORD && q.nRoot <= 0x8000
  }

  /** The cluster count by 32-bit subtraction. */
  function Count(q: Request, p: Plan): nat
    requires p.pau > 0
  {
    (q.szVol - ConfigOf(q, p, 0).System()) % WORD / p.pau
  }

  lemma PlanArith(q: Request, p: Plan)
    requires Planned(q, p)
    ensures 1 <= p.pau <= 128 && p.pau * p.pre <= q.szVol && p.pre <= q.szVol
  {
    DivMod(q.szVol, p.pau);
    DivSmaller(q.szVol, p.pau);
  }

  /** An underflowing subtraction leaves far more clusters than FAT12 or FAT16 allow. */
  lemma NoUnderflow(q: Request, p: Plan)
    requires Planned(q, p) && Count(q, p) <= MAX_FAT16
    ensures ConfigOf(q, p, 0).System() <= q.szVol
  {
    PlanArith(q, p);
    var sys := ConfigOf(q, p, 0).System();
    if sys > q.szVol {
      var x := q.szVol - sys + WORD;
      Wrap(q.szVol - sys);
      TimesMonotone(MAX_FAT16 + 1, p.pau, 128);
      DivLower(x, p.pau, MAX_FAT16 + 1);
      assert false;
    }
  }

  lemma NeedFat32(pre: nat)
    requires pre <= MAX_FAT32
    ensures pre * 4 + 8 <= SS * NeedSectors(Fat32, pre) < pre * 4 + 8 + SS
  {
    Wrap(pre * 4 + 8);
    Wrap(pre * 4 + 8 + (SS - 1));
  }

  /** On FAT32 the volume is always large enough for its system area. */
  lemma RoomFat32(q: Request, p: Plan)
    requires Planned(q, p) && p.fsty.Fat32?
    ensures TableBytes(Fat32, p.pre + 2) <= SS * p.szFat && p.szFat >= 1 && p.szRsv < 0x10000
    ensures ConfigOf(q, p, 0).System() <= q.szVol
  {
    hide NeedSectors;
    PlanArith(q, p);
    NeedFat32(p.pre);
  }

  lemma CountFits(q: Request, p: Plan)
    requires Planned(q, p) && ConfigOf(q, p, 0).System() <= q.szVol
    ensures Count(q, p) == (q.szVol - ConfigOf(q, p, 0).System()) / p.pau <= p.pre
  {
    Wrap(q.szVol - ConfigOf(q, p, 0).System());
    DivMonotone(q.szVol - ConfigOf(q, p, 0).System(), q.szVol, p.pau);
  }

  lemma AcceptFat32(q: Request, p: Plan)
    requires Planned(q, p) && p.fsty.Fat32? && Count(q, p) > MAX_FAT16
    ensures Accepted(q, ConfigOf(q, p, Count(q, p)))
  {
    RoomFat32(q, p);
    CountFits(q, p);
  }

  /** The first estimate is not much larger than the final count. */
  lemma PreBound(q: Request, p: Plan)
    requires Planned(q, p) && ConfigOf(q, p, 0).System() <= q.szVol && Count(q, p) <= MAX_FAT16
    ensures p.pre <= MAX_FAT16 + 1 + ConfigOf(q, p, 0).System()
  {
    CountFits(q, p);
    PlanArith(q, p);
    var sys := ConfigOf(q, p, 0).System();
    var x := q.szVol - sys;
    if p.pre > MAX_FAT16 + 1 + sys {
      TimesMonotone(p.pau, MAX_FAT16 + 1 + sys, p.pre);
      TimesMonotone(sys, 1, p.pau);
      TimesSplit(p.pau, MAX_FAT16 + 1, sys);
      DivLower(x, p.pau, MAX_FAT16 + 1);
      assert false;
    }
  }

  lemma TimesSplit(p: nat, a: nat, b: nat)
    ensures p * (a + b) == p * a + p * b && p * b == b * p
  {
  }

  lemma NeedLimit(fsty: FsType, pre: nat)
    ensures NeedSectors(fsty, pre) <= 0x80_0000
  {
    var x := (Need(fsty, pre) + (SS - 1)) % WORD;
    assert x < WORD;
  }

  lemma NeedSmall(fsty: FsType, pre: nat)
    requires pre < 0x400_0000 && !fsty.Fat32?
    ensures SS * NeedSectors(fsty, pre) >= Need(fsty, pre) >= 3
    ensures SS * NeedSectors(fsty, pre) < Need(fsty, pre) + SS
    ensures Need(fsty, pre) == if fsty.Fat16? then pre * 2 + 4 else (pre * 3 + 1) / 2 + 3
  {
    var d := Need(fsty, pre);
    Wrap(d + (SS - 1));
    var k := (d + (SS - 1)) / SS;
    assert SS * k <= d + (SS - 1) < SS * k + SS;
  }

  /** The tables have room for every count up to the estimate. */
  lemma EnoughFat(fsty: FsType, pre: nat, m: nat)
    requires m <= pre < 0x400_0000 && !fsty.Fat32?
    ensures TableBytes(fsty, m + 2) <= SS * NeedSectors(fsty, pre)
  {
    hide NeedSectors, Need;
    NeedSmall(fsty, pre);
  }

  lemma FatParts(q: Request, p: Plan)
    requires Planned(q, p) && !p.fsty.Fat32?
    ensures p.szRsv <= 2 && NeedSectors(p.fsty, p.pre) <= p.szFat
    ensures q.nFat * p.szFat <= q.nFat * NeedSectors(p.fsty, p.pre) + 0x7FFF
    ensures ConfigOf(q, p, 0).System() <= 2 + q.nFat * p.szFat + 0x800
  {
    hide NeedSectors;
  }

  /** No table size of an accepted FAT12 or FAT16 volume wraps, and it fits its field. */
  lemma SmallFat(q: Request, p: Plan)
    requires Planned(q, p) && !p.fsty.Fat32? && ConfigOf(q, p, 0).System() <= q.szVol && Count(q, p) <= MAX_FAT16
    ensures p.pre < 0x20000 && 1 <= p.szFat < 0x10000
  {
    hide NeedSectors, Need, Planned, Count, Config.System;
    PreBound(q, p);
    FatParts(q, p);
    NeedLimit(p.fsty, p.pre);
    TwoTables(q, p);
    NeedSmall(p.fsty, p.pre);
  }

  lemma TwoTables(q: Request, p: Plan)
    requires Planned(q, p)
    ensures q.nFat == 1 || q.nFat == 2
  {
  }

  lemma AcceptFat(q: Request, p: Plan)
    requires Planned(q, p) && !p.fsty.Fat32? && Count(q, p) <= MAX_FAT16
    requires if p.fsty.Fat12? then Count(q, p) <= MAX_FAT12 else Count(q, p) > MAX_FAT12
    ensures Accepted(q, ConfigOf(q, p, Count(q, p)))
  {
    hide NeedSectors, Need, Count, TableBytes;
    NoUnderflow(q, p);
    CountFits(q, p);
    SmallFat(q, p);
    FatParts(q, p);
    EnoughFat(p.fsty, p.pre, Count(q, p));
  }

  // ---- the geometry loop

  function TypeOf(fsty0: FsType, pre: nat): FsType {
    if fsty0.Fat32? then Fat32 else if pre <= MAX_FAT12 then Fat12 else Fat16
  }

  /** The data base before alignment. */
  function DataBase(q: Request, fsty: FsType, pre: nat): nat {
    q.bVol + (if fsty.Fat32? then 32 else 1) + NeedSectors(fsty, pre) * q.nFat + if fsty.Fat32? then 0 else q.nRoot / 16
  }

  /** The layout for a cluster size and wanted table type. */
  function PlanOf(q: Request, pau: nat, fsty0: FsType): Plan
    requires pau > 0 && q.szBlk > 0 && 1 <= q.nFat <= 2
  {
    var pre := q.szVol / pau;
    var fsty := TypeOf(fsty0, pre);
    var n := AlignGap(DataBase(q, fsty, pre), q.szBlk);
    Spread(n, q.nFat);
    var odd := if n % q.nFat != 0 then 1 else 0;
    if fsty.Fat32? then Plan(fsty, pau, pre, 32 + n, NeedSectors(fsty, pre), n)
    else Plan(fsty, pau, pre, 1 + odd, NeedSectors(fsty, pre) + (n - odd) / q.nFat, n)
  }

  /** The type allows the estimate and there is room for 16 clusters before alignment. */
  predicate Fits(q: Request, p: Plan) {
    && (p.fsty.Fat32? ==> MAX_FAT16 < p.pre <= MAX_FAT32)
    && DataBase(q, p.fsty, p.pre) + p.pau * 16 - q.bVol <= q.szVol
  }

  const CST: seq<nat> := [1, 4, 16, 64, 256, 512, 0]
  const CST32: seq<nat> := [1, 2, 4, 8, 16, 32, 0]

  /** The automatic cluster size: doubled for every limit the volume reaches. */
  function Auto(n: nat, limits: seq<nat>): (pau: nat)
    ensures pau >= 1
    decreases |limits|
  {
    if limits == [] || limits[0] == 0 || limits[0] > n then 1 else 2 * Auto(n, limits[1..])
  }

  method AutoUnit(n: nat, limits: seq<nat>) returns (pau: nat)
    requires |limits| == 7 && limits[6] == 0
    ensures pau == Auto(n, limits) && pau in AU_SIZES && pau <= 64
  {
    var k := 0;
    pau := 1;
    while limits[k] != 0 && limits[k] <= n
      invariant k <= 6 && pau * Auto(n, limits[k..]) == Auto(n, limits)
      invariant pau == if k == 0 then 1 else if k == 1 then 2 else if k == 2 then 4 else if k == 3 then 8
          else if k == 4 then 16 else if k == 5 then 32 else 64
      decreases 6 - k
    {
      assert limits[k..][1..] == limits[k + 1..];
      k := k + 1;
      pau := pau * 2;
    }
  }

  /** The type and table size for pre clusters, if the type allows them. */
  method TableSize(fsty0: FsType, pre: nat) returns (ok: bool, fsty: FsType, szFat: nat)
    requires !fsty0.Fat12?
    ensures ok == (fsty0.Fat32? ==> MAX_FAT16 < pre <= MAX_FAT32)
    ensures fsty == TypeOf(fsty0, pre) && szFat == NeedSectors(fsty, pre) <= 0x80_0000
  {
    fsty, ok := fsty0, true;
    NeedLimit(Fat16, pre);
    NeedLimit(Fat12, pre);
    NeedLimit(Fat32, pre);
    if fsty.Fat32? {
      szFat := ((pre * 4 + 8) % WORD + SS - 1) % WORD / SS;
      if pre <= MAX_FAT16 || pre > MAX_FAT32 {
        ok := false;
      }
    } else {
      var need;
      if pre > MAX_FAT12 {
        need := (pre * 2 + 4) % WORD;
      } else {
        fsty := Fat12;
        need := (pre * 3 + 1) / 2 + 3;
      }
      szFat := (need + SS - 1) % WORD / SS;
    }
  }

  /** One layout for a table type and cluster size, if there is room for it. */
  method MakePlan(q: Request, pau: nat, fsty0: FsType) returns (ok: bool, p: Plan)
    requires q.Ok() && pau in AU_SIZES && !fsty0.Fat12?
    ensures p == PlanOf(q, pau, fsty0) && ok == Fits(q, p)
  {
    hide And, Planned, NeedSectors, IsPower, AlignGap;
    var pre := q.szVol / pau;
    var fsty, szFat;
    ok, fsty, szFat := TableSize(fsty0, pre);
    var szRsv, szDir := if fsty.Fat32? then 32 else 1, if fsty.Fat32? then 0 else q.nRoot * 32 / SS;
    PlanSizes(q, szFat);
    var bData := q.bVol + szRsv + szFat * q.nFat + szDir;
    var n := And(bData + q.szBlk - 1, WORD - 1 - (q.szBlk - 1)) - bData;
    Aligned(q, bData);
    if fsty.Fat32? {
      p := Plan(fsty, pau, pre, szRsv + n, szFat, n);
    } else if n % q.nFat != 0 {
      p := Plan(fsty, pau, pre, szRsv + 1, szFat + (n - 1) / q.nFat, n);
    } else {
      p := Plan(fsty, pau, pre, szRsv, szFat + n / q.nFat, n);
    }
    if q.szVol < bData + pau * 16 - q.bVol {
      ok := false;
    }
  }

  lemma FitsPlanned(q: Request, pau: nat, fsty0: FsType)
    requires q.Ok() && pau in AU_SIZES && !fsty0.Fat12? && Fits(q, PlanOf(q, pau, fsty0))
    ensures Planned(q, PlanOf(q, pau, fsty0))
  {
    hide Planned, NeedSectors, AlignGap;
    var p := PlanOf(q, pau, fsty0);
    PlanSizes(q, 0);
    GapAligns(DataBase(q, p.fsty, p.pre), q.szBlk);
    PlanIsPlanned(q, p, DataBase(q, p.fsty, p.pre), NeedSectors(p.fsty, p.pre));
  }

  lemma GapAligns(b: nat, blk: nat)
    requires blk > 0
    ensures (b + AlignGap(b, blk)) % blk == 0
  {
    DivMod(b, blk);
    var r, q := b % blk, b / blk;
    if r == 0 {
      ModUnique(blk, blk, 1, 0);
      ModUnique(b, blk, q, 0);
    } else {
      ModUnique(blk - r, blk, 0, blk - r);
      TimesSucc(blk, q);
      ModUnique(b + (blk - r), blk, q + 1, 0);
    }
  }

  lemma PlanSizes(q: Request, szFat: nat)
    requires q.Ok() && szFat <= 0x80_0000
    ensures q.bVol + 32 + szFat * q.nFat + 0x800 < 0x200_0000
        && szFat * q.nFat == (if q.nFat == 2 then 2 * szFat else szFat)
    ensures q.nRoot * 32 / SS == q.nRoot / 16 <= 0x800
  {
  }

  lemma Aligned(q: Request, b: nat)
    requires q.Ok() && b < 0x400_0000
    ensures var n := And(b + q.szBlk - 1, WORD - 1 - (q.szBlk - 1)) - b;
        0 <= n < q.szBlk && (b + n) % q.szBlk == 0 && n == AlignGap(b, q.szBlk)
  {
    var k: nat :| q.szBlk == Pow2(k);
    hide And;
    BlockPower(k);
    Alignment(b, k, q.szBlk);
  }

  lemma BlockPower(k: nat)
    requires Pow2(k) <= TOO_MANY
    ensures k <= 15
  {
    Pow2Add(8, 8);
    assert Pow2(8) == 0x100;
    if k > 15 {
      PowMonotone(16, k);
    }
  }

  lemma PlanIsPlanned(q: Request, p: Plan, bData: nat, szFat0: nat)
    requires 1 <= q.nFat <= 2 && q.szVol < WORD && q.nRoot <= 0x8000 && p.n < q.szBlk <= TOO_MANY
    requires p.pau in AU_SIZES && p.pre == q.szVol / p.pau && szFat0 == NeedSectors(p.fsty, p.pre)
    requires (bData + p.n) % q.szBlk == 0 && bData + 16 * p.pau - q.bVol <= q.szVol
    requires if p.fsty.Fat32?
             then MAX_FAT16 < p.pre <= MAX_FAT32 && p.szRsv == 32 + p.n && p.szFat == szFat0
                 && bData == q.bVol + 32 + szFat0 * q.nFat
             else && (p.fsty.Fat12? <==> p.pre <= MAX_FAT12) && bData == q.bVol + 1 + szFat0 * q.nFat + q.nRoot / 16
                  && var odd := if p.n % q.nFat != 0 then 1 else 0;
                      p.szRsv == 1 + odd && p.szFat == szFat0 + (p.n - odd) / q.nFat
    ensures Planned(q, p)
  {
    hide NeedSectors;
    TwoTimes(q.nFat, szFat0);
    Spread(p.n, q.nFat);
    assert bData + p.n == q.bVol + ConfigOf(q, p, 0).System();
  }

  /** Alignment sectors are spread over the tables evenly. */
  lemma Spread(n: nat, k: nat)
    requires 1 <= k <= 2
    ensures var odd := if n % k != 0 then 1 else 0;
      n >= odd && (if k == 2 then 2 * ((n - odd) / k) else (n - odd) / k) == n - odd
  {
  }

  datatype Choice = Rejected | Chosen(c: Config)

  function Unit(q: Request, szAu: nat, fsty: FsType): (pau: nat)
    ensures pau >= 1
  {
    if szAu != 0 then szAu else if fsty.Fat32? then Auto(q.szVol / 0x20000, CST32) else Auto(q.szVol / 0x1000, CST)
  }

  datatype Verdict = Accept | Retry(szAu: nat, fsty: FsType) | Abort

  /** What the final count means: the type fits, another size or type is worth a try, or
      there is none. */
  function Judge(q: Request, szAu: nat, pau: nat, fsty: FsType, n: nat): Verdict {
    match fsty
    case Fat32 =>
      if n > MAX_FAT16 then Accept else if szAu == 0 && pau / 2 != 0 then Retry(pau / 2, Fat32) else Abort
    case Fat16 =>
      if n > MAX_FAT16 then
        if szAu == 0 && pau * 2 <= 64 then Retry(pau * 2, Fat16)
        else if q.fat32 then Retry(szAu, Fat32)
        else if szAu == 0 && pau * 2 <= 128 then Retry(pau * 2, Fat16)
        else Abort
      else if n <= MAX_FAT12 then
        if szAu == 0 && pau * 2 <= 128 then Retry(pau * 2, Fat16) else Abort
      else Accept
    case Fat12 => if n > MAX_FAT12 then Abort else Accept
  }

  /** Retries left: one for the cluster size, one for the type. */
  function Rank(szAu: nat, fsty: FsType): nat {
    (if fsty.Fat32? then 0 else 2) + if szAu == 0 then 1 else 0
  }

  /** The geometry search from a requested cluster size (0 for automatic) and table type. */
  function Search(q: Request, szAu: nat, fsty: FsType): Choice
    requires q.szBlk > 0 && 1 <= q.nFat <= 2
    decreases Rank(szAu, fsty)
  {
    var pau := Unit(q, szAu, fsty);
    var p := PlanOf(q, pau, fsty);
    if !Fits(q, p) then Rejected
    else
      match Judge(q, szAu, pau, p.fsty, Count(q, p))
      case Accept => Chosen(ConfigOf(q, p, Count(q, p)))
      case Abort => Rejected
      case Retry(a, t) => Search(q, a, t)
  }

  lemma JudgeFacts(q: Request, szAu: nat, pau: nat, fsty0: FsType, p: Plan)
    requires Planned(q, p) && p.pau == pau && (szAu == 0 ==> pau <= 64) && (szAu == 0 || szAu in AU_SIZES)
    requires !fsty0.Fat12? && (p.fsty == fsty0 || (fsty0.Fat16? && p.fsty.Fat12?))
    ensures Judge(q, szAu, pau, p.fsty, Count(q, p)).Accept? ==> Accepted(q, ConfigOf(q, p, Count(q, p)))
    ensures var v := Judge(q, szAu, pau, p.fsty, Count(q, p));
      v.Retry? ==> (v.szAu == 0 || v.szAu in AU_SIZES) && !v.fsty.Fat12? && Rank(v.szAu, v.fsty) < Rank(szAu, fsty0)
                   && (szAu != 0 ==> v.szAu == szAu) && (fsty0.Fat32? ==> v.fsty.Fat32?)
                       && (v.fsty.Fat32? ==> fsty0.Fat32? || q.fat32)
  {
    hide Accepted, Count;
    PlanUnit(q, p);
    if Judge(q, szAu, pau, p.fsty, Count(q, p)).Accept? {
      if p.fsty.Fat32? {
        AcceptFat32(q, p);
      } else {
        AcceptFat(q, p);
      }
    }
  }

  lemma PlanUnit(q: Request, p: Plan)
    requires Planned(q, p)
    ensures p.pau in AU_SIZES
  {
  }

  /** f_mkfs's search for a geometry. It ends, and what it accepts is a sound geometry. */
  method ChooseGeometry(q: Request, au: nat, fsty0: FsType) returns (ok: bool, c: Config)
    requires q.Ok() && (au == 0 || au in AU_SIZES) && !fsty0.Fat12?
    ensures Search(q, au, fsty0) == if ok then Chosen(c) else Rejected
    ensures ok ==> Accepted(q, c) && (au != 0 ==> c.pau == au)
    ensures ok && fsty0.Fat32? ==> c.fsty.Fat32?
    ensures ok && fsty0.Fat16? && !q.fat32 ==> !c.fsty.Fat32?
  {
    hide Accepted, Planned, Count, PlanOf, Fits, IsPower, Judge, Rank;
    var szAu, fsty := au, fsty0;
    c := Config(fsty, 0, 0, 0, 0, 0, 0, 0, 0);
    while true
      invariant !fsty.Fat12? && (szAu == 0 || szAu in AU_SIZES) && (au != 0 ==> szAu == au)
      invariant fsty0.Fat32? ==> fsty.Fat32?
      invariant fsty.Fat32? ==> fsty0.Fat32? || q.fat32
      invariant Search(q, szAu, fsty) == Search(q, au, fsty0)
      decreases Rank(szAu, fsty)
    {
      var pau := szAu;
      if pau == 0 {
        if fsty.Fat32? {
          pau := AutoUnit(q.szVol / 0x20000, CST32);
        } else {
          pau := AutoUnit(q.szVol / 0x1000, CST);
        }
      }
      var p;
      ok, p := MakePlan(q, pau, fsty);
      PlanType(q, pau, fsty);
      if !ok {
        return;
      }
      FitsPlanned(q, pau, fsty);
      PlanArith(q, p);
      JudgeFacts(q, szAu, pau, fsty, p);
      var nClst := CountClusters(q, p);
      var v := Verify(q, szAu, pau, p.fsty, nClst);
      match v {
        case Accept => return true, ConfigOf(q, p, nClst);
        case Abort => return false, c;
        case Retry(a, t) => szAu, fsty := a, t;
      }
    }
  }

  /** The final check of the sub-type. */
  method Verify(q: Request, au: nat, pau: nat, fsty: FsType, nClst: nat) returns (v: Verdict)
    ensures v == Judge(q, au, pau, fsty, nClst)
  {
    var szAu := au;
    if fsty.Fat32? {
      if nClst <= MAX_FAT16 {
        if szAu == 0 {
          szAu := pau / 2;
          if szAu != 0 {
            return Retry(szAu, Fat32);
          }
        }
        return Abort;
      }
    }
    if fsty.Fat16? {
      if nClst > MAX_FAT16 {
        if szAu == 0 && pau * 2 <= 64 {
          szAu := pau * 2;
          return Retry(szAu, fsty);
        }
        if q.fat32 {
          return Retry(szAu, Fat32);
        }
        if szAu == 0 {
          szAu := pau * 2;
          if szAu <= 128 {
            return Retry(szAu, fsty);
          }
        }
        return Abort;
      }
      if nClst <= MAX_FAT12 {
        if szAu == 0 {
          szAu := pau * 2;
          if szAu <= 128 {
            return Retry(szAu, fsty);
          }
        }
        return Abort;
      }
    }
    if fsty.Fat12? && nClst > MAX_FAT12 {
      return Abort;
    }
    v := Accept;
  }

  lemma PlanType(q: Request, pau: nat, fsty: FsType)
    requires pau > 0 && q.szBlk > 0 && 1 <= q.nFat <= 2
    ensures var p := PlanOf(q, pau, fsty);
        p.pau == pau && (p.fsty == fsty || (!fsty.Fat32? && p.fsty.Fat12?) || fsty.Fat12?)
  {
  }

  /** The room check before alignment does not cover the alignment: a 128-sector volume on a
      medium with 128-sector erase blocks is accepted without a single cluster. */
  lemma ZeroClusters()
    ensures var q := Request(0, 128, 128, 1, 512, false);
      q.Ok() && Search(q, 0, Fat16) == Chosen(Config(Fat12, 1, 1, 95, 1, 512, 0, 128, 0))
  {
    assert Pow2(7) == 128;
    var q := Request(0, 128, 128, 1, 512, false);
    assert Unit(q, 0, Fat16) == 1;
    assert PlanOf(q, 1, Fat16) == Plan(Fat12, 1, 128, 1, 95, 94);
  }

  /** There is no room for a single cluster behind the aligned system area. */
  predicate NoRoom(q: Request, fsty: FsType, pau: nat) {
    && pau > 0 && q.szBlk > 0
    && var b := DataBase(q, fsty, q.szVol / pau);
       b + AlignGap(b, q.szBlk) + pau > q.bVol + q.szVol
  }

  lemma SystemOf(q: Request, pau: nat, fsty0: FsType)
    requires q.Ok() && pau > 0
    ensures var p := PlanOf(q, pau, fsty0); var b := DataBase(q, p.fsty, q.szVol / pau);
      p.pau == pau && p.n == AlignGap(b, q.szBlk) < q.szBlk && b + p.n == q.bVol + ConfigOf(q, p, 0).System()
  {
    hide NeedSectors, AlignGap;
    var p := PlanOf(q, pau, fsty0);
    TwoTimes(q.nFat, NeedSectors(p.fsty, p.pre));
    Spread(p.n, q.nFat);
  }

  /** An accepted layout leaves no cluster exactly if it leaves no room for one. */
  lemma PlanRoom(q: Request, pau: nat, fsty0: FsType, c: Config)
    requires q.Ok() && pau > 0 && Fits(q, PlanOf(q, pau, fsty0))
    requires c == ConfigOf(q, PlanOf(q, pau, fsty0), c.nClst) && Accepted(q, c)
    ensures c.pau == pau && (c.nClst == 0 <==> NoRoom(q, c.fsty, pau))
    ensures q.szBlk <= 15 * pau + 1 ==> c.nClst > 0
    ensures c.nClst == 0 ==> c.fsty.Fat12?
  {
    SystemOf(q, pau, fsty0);
    hide NeedSectors, AlignGap, Count, DataBase;
    var p := PlanOf(q, pau, fsty0);
    CountZero(c.szVol, c.System(), pau);
  }

  lemma CountZero(vol: nat, sys: nat, pau: nat)
    requires pau > 0 && sys <= vol
    ensures (vol - sys) / pau == 0 <==> sys + pau > vol
  {
    DivMod(vol - sys, pau);
    if (vol - sys) / pau >= 1 {
      TimesMonotone(pau, 1, (vol - sys) / pau);
    }
  }

  /** Every geometry the search accepts has a cluster unless alignment has taken the room for
      it, which erase blocks of at most 16 sectors never do. */
  lemma {:induction false} NoClusters(q: Request, szAu: nat, fsty: FsType, c: Config)
    requires q.Ok() && (szAu == 0 || szAu in AU_SIZES) && !fsty.Fat12? && Search(q, szAu, fsty) == Chosen(c)
    ensures Accepted(q, c) && (szAu != 0 ==> c.pau == szAu)
    ensures c.nClst == 0 <==> NoRoom(q, c.fsty, c.pau)
    ensures q.szBlk <= 15 * c.pau + 1 ==> c.nClst > 0
    ensures c.nClst == 0 ==> c.fsty.Fat12?
    decreases Rank(szAu, fsty)
  {
    hide Accepted, Planned, Count, PlanOf, Fits, IsPower, Judge, Rank, NoRoom, Unit;
    var pau := UnitSize(q, szAu, fsty);
    var p := PlanOf(q, pau, fsty);
    FitsPlanned(q, pau, fsty);
    PlanType(q, pau, fsty);
    JudgeFacts(q, szAu, pau, fsty, p);
    match Judge(q, szAu, pau, p.fsty, Count(q, p))
    case Accept => PlanRoom(q, pau, fsty, c);
    case Abort =>
    case Retry(a, t) => NoClusters(q, a, t, c);
  }

  /** The cluster size that is tried. */
  lemma UnitSize(q: Request, szAu: nat, fsty: FsType) returns (pau: nat)
    requires szAu == 0 || szAu in AU_SIZES
    ensures pau == Unit(q, szAu, fsty) && pau in AU_SIZES && (szAu == 0 ==> pau <= 64) && (szAu != 0 ==> pau == szAu)
  {
    pau := Unit(q, szAu, fsty);
    if szAu == 0 {
      var j := AutoSize(q.szVol / (if fsty.Fat32? then 0x20000 else 0x1000), if fsty.Fat32? then CST32 else CST);
      SmallPowers(j);
      SixDoublings(j);
    }
  }

  lemma SixDoublings(j: nat)
    requires j <= 6
    ensures Pow2(j) <= 64
  {
    PowMonotone(j, 6);
    Pow2Add(3, 3);
    assert Pow2(3) == 8;
  }

  lemma {:induction false} AutoSize(n: nat, limits: seq<nat>) returns (j: nat)
    requires limits != [] && limits[|limits| - 1] == 0
    ensures j < |limits| && Auto(n, limits) == Pow2(j)
  {
    j := 0;
    if limits[0] != 0 && limits[0] <= n {
      j := AutoSize(n, limits[1..]);
      j := j + 1;
    }
  }

  // ---- which volumes get a geometry

  /** The automatic cluster sizes of FAT12 and FAT16, by the size of the volume in 4096 sectors. */
  lemma AutoFat(n: nat)
    ensures Auto(n, CST)
        == if n < 1 then 1 else if n < 4 then 2 else if n < 16 then 4 else if n < 64 then 8 else if n < 256 then 16
           else if n < 512 then 32 else 64
  {
    AutoChain(n, CST);
  }

  /** Those of FAT32, by the size of the volume in 131072 sectors. */
  lemma AutoFat32(n: nat)
    ensures Auto(n, CST32)
        == if n < 1 then 1 else if n < 2 then 2 else if n < 4 then 4 else if n < 8 then 8 else if n < 16 then 16
           else if n < 32 then 32 else 64
  {
    AutoChain(n, CST32);
  }

  lemma AutoChain(n: nat, l: seq<nat>)
    requires |l| == 7 && l[6] == 0 && forall i :: 0 <= i < 6 ==> l[i] > 0
    ensures Auto(n, l)
        == if n < l[0] then 1 else if n < l[1] then 2 else if n < l[2] then 4 else if n < l[3] then 8
           else if n < l[4] then 16 else if n < l[5] then 32 else 64
  {
    var l1 := l[1..];
    var l2 := l1[1..];
    var l3 := l2[1..];
    var l4 := l3[1..];
    var l5 := l4[1..];
    var l6 := l5[1..];
    assert Auto(n, l6) == 1;
    assert Auto(n, l5) == if n < l[5] then 1 else 2;
    assert Auto(n, l4) == if n < l[4] then 1 else 2 * Auto(n, l5);
    assert Auto(n, l3) == if n < l[3] then 1 else 2 * Auto(n, l4);
    assert Auto(n, l2) == if n < l[2] then 1 else 2 * Auto(n, l3);
    assert Auto(n, l1) == if n < l[1] then 1 else 2 * Auto(n, l2);
  }

  /** A request with the default root directory and erase blocks of at most 16 sectors. */
  predicate Usual(q: Request) {
    q.szBlk <= 16 && q.nRoot == 512
  }

  /** The bytes of table that pre clusters need. */
  function TableNeed(fsty: FsType, pre: nat): nat {
    match fsty
    case Fat32 => pre * 4 + 8
    case Fat16 => pre * 2 + 4
    case Fat12 => (pre * 3 + 1) / 2 + 3
  }

  /** The numbers of one attempt: sectors of a table, and sectors that align the data area. */
  lemma Attempt(q: Request, pau: nat, fsty0: FsType) returns (sz: nat, n: nat)
    requires q.Ok() && Usual(q) && pau in AU_SIZES && !fsty0.Fat12? && q.szVol / pau < 0x400_0000
    ensures n <= 15 && TableNeed(TypeOf(fsty0, q.szVol / pau), q.szVol / pau) <= 512 * sz
        < TableNeed(TypeOf(fsty0, q.szVol / pau), q.szVol / pau) + 512
    ensures var p, pre := PlanOf(q, pau, fsty0), q.szVol / pau;
      var sys := (if fsty0.Fat32? then 32 else 33) + (if q.nFat == 2 then 2 * sz else sz);
      && p.fsty == TypeOf(fsty0, pre)
      && (Fits(q, p) <==> (fsty0.Fat32? ==> MAX_FAT16 < pre <= MAX_FAT32) && sys + 16 * pau <= q.szVol)
      && (sys + n <= q.szVol ==> Count(q, p) == (q.szVol - (sys + n)) / pau)
  {
    hide NeedSectors, AlignGap, IsPower;
    var pre := q.szVol / pau;
    var fsty := TypeOf(fsty0, pre);
    sz := NeedSectors(fsty, pre);
    n := AlignGap(DataBase(q, fsty, pre), q.szBlk);
    AttemptNeed(fsty, pre);
    SystemOf(q, pau, fsty0);
    TwoTimes(q.nFat, sz);
    var sys := ConfigOf(q, PlanOf(q, pau, fsty0), 0).System();
    if sys <= q.szVol {
      Wrap(q.szVol - sys);
    }
  }

  lemma AttemptNeed(fsty: FsType, pre: nat)
    requires pre < 0x400_0000
    ensures TableNeed(fsty, pre) <= 512 * NeedSectors(fsty, pre) < TableNeed(fsty, pre) + 512
  {
    hide NeedSectors, Need;
    if fsty.Fat32? {
      NeedFat32(pre);
    } else {
      NeedSmall(fsty, pre);
    }
  }

  /** The search takes the attempt, or follows it to the next. */
  lemma SearchStep(q: Request, szAu: nat, fsty0: FsType, pau: nat)
    requires q.Ok() && pau == Unit(q, szAu, fsty0) && Fits(q, PlanOf(q, pau, fsty0))
    ensures var p := PlanOf(q, pau, fsty0);
      var v := Judge(q, szAu, pau, p.fsty, Count(q, p));
      && (v.Accept? ==> Search(q, szAu, fsty0) == Chosen(ConfigOf(q, p, Count(q, p))))
      && (v.Retry? ==> Search(q, szAu, fsty0) == Search(q, v.szAu, v.fsty)) && p.pau == pau
  {
    hide Fits, PlanOf, Count, Unit, Judge;
    var p := PlanOf(q, pau, fsty0);
    PlanPau(q, pau, fsty0);
  }

  lemma PlanPau(q: Request, pau: nat, fsty0: FsType)
    requires pau > 0 && q.szBlk > 0 && 1 <= q.nFat <= 2
    ensures PlanOf(q, pau, fsty0).pau == pau
  {
  }

  /** Volumes below 4086 sectors become FAT12 with one sector to a cluster; with a cluster
      size given by the caller or a retry, so do volumes of up to 4085 clusters. */
  lemma FormatsFat12(q: Request, szAu: nat, pau: nat)
    requires q.Ok() && Usual(q) && pau in {1, 2, 4, 8} && pau == Unit(q, szAu, Fat16)
    requires 128 * pau <= q.szVol && q.szVol / pau <= 4085
    ensures var r := Search(q, szAu, Fat16); r.Chosen? && r.c.fsty == Fat12 && r.c.pau == pau
  {
    hide Search, PlanOf, Count, Fits, Unit, Request.Ok;
    var sz, n := Attempt(q, pau, Fat16);
    SearchStep(q, szAu, Fat16, pau);
  }

  /** One attempt at FAT16: k clusters come out, and what happens with them. */
  lemma TryFat16(q: Request, szAu: nat, pau: nat) returns (k: nat, sz: nat)
    requires q.Ok() && Usual(q) && pau in AU_SIZES && pau == Unit(q, szAu, Fat16)
    requires 4086 <= q.szVol / pau < 0x400_0000
    ensures 2 * (q.szVol / pau) + 4 <= 512 * sz < 2 * (q.szVol / pau) + 516
    ensures pau * k + 33 + sz <= q.szVol < pau * (k + 1) + 48 + 2 * sz
    ensures var r := Search(q, szAu, Fat16);
      && (4085 < k <= 65525 ==> r.Chosen? && r.c.fsty == Fat16 && r.c.pau == pau && r.c.nClst == k)
      && (szAu == 0 && k <= 4085 && pau <= 64 ==> r == Search(q, 2 * pau, Fat16))
      && (szAu == 0 && k > 65525 && pau <= 32 ==> r == Search(q, 2 * pau, Fat16))
      && (szAu == 0 && k > 65525 && pau == 64 && q.fat32 ==> r == Search(q, 0, Fat32))
  {
    hide Search, PlanOf, Count, Fits, Unit, Request.Ok;
    var n;
    sz, n := Attempt(q, pau, Fat16);
    UnitRange(pau);
    DivMod(q.szVol, pau);
    TimesMonotone(pau, 4086, q.szVol / pau);
    var pre, sys := q.szVol / pau, 33 + if q.nFat == 2 then 2 * sz else sz;
    Quotients(q.szVol, pau, pre);
    TablesFit(q.szVol, pau, pre, sz);
    SearchStep(q, szAu, Fat16, pau);
    k := (q.szVol - (sys + n)) / pau;
    DivMod(q.szVol - (sys + n), pau);
    TimesSucc(pau, k);
  }

  lemma UnitRange(pau: nat)
    requires pau in AU_SIZES
    ensures 1 <= pau <= 128
  {
  }

  lemma Quotients(v: nat, pau: nat, pre: nat)
    requires pau >= 1 && pre == v / pau
    ensures pre <= v
  {
    DivSmaller(v, pau);
  }

  lemma TablesFit(v: nat, pau: nat, pre: nat, sz: nat)
    requires 4086 * pau <= v && 4086 <= pre <= v && 512 * sz < 4 * pre + 520
    ensures 48 + 2 * sz + 16 * pau <= v
  {
  }

  /** One attempt at FAT32. */
  lemma TryFat32(q: Request, szAu: nat, pau: nat) returns (k: nat, sz: nat)
    requires q.Ok() && Usual(q) && pau in AU_SIZES && pau == Unit(q, szAu, Fat32)
    requires 65525 < q.szVol / pau < 0x400_0000
    ensures 4 * (q.szVol / pau) + 8 <= 512 * sz < 4 * (q.szVol / pau) + 520
    ensures pau * k + 32 + sz <= q.szVol < pau * (k + 1) + 47 + 2 * sz
    ensures var r := Search(q, szAu, Fat32);
      && (k > 65525 ==> r.Chosen? && r.c.fsty == Fat32 && r.c.pau == pau && r.c.nClst == k)
      && (szAu == 0 && k <= 65525 && pau >= 2 ==> r == Search(q, pau / 2, Fat32))
  {
    hide Search, PlanOf, Count, Fits, Unit, Request.Ok;
    var n;
    sz, n := Attempt(q, pau, Fat32);
    UnitRange(pau);
    DivMod(q.szVol, pau);
    TimesMonotone(pau, 65526, q.szVol / pau);
    var pre, sys := q.szVol / pau, 32 + if q.nFat == 2 then 2 * sz else sz;
    Quotients(q.szVol, pau, pre);
    TablesFit(q.szVol, pau, pre, sz);
    SearchStep(q, szAu, Fat32, pau);
    k := (q.szVol - (sys + n)) / pau;
    DivMod(q.szVol - (sys + n), pau);
    TimesSucc(pau, k);
  }

  lemma UnitFat16(q: Request)
    ensures Unit(q, 0, Fat16)
        == if q.szVol < 0x1000 then 1 else if q.szVol < 0x4000 then 2 else if q.szVol < 0x1_0000 then 4
           else if q.szVol < 0x4_0000 then 8 else if q.szVol < 0x10_0000 then 16 else if q.szVol < 0x20_0000 then 32
               else 64
  {
    AutoFat(q.szVol / 0x1000);
  }

  lemma UnitFat32(q: Request)
    ensures Unit(q, 0, Fat32)
        == if q.szVol < 0x2_0000 then 1 else if q.szVol < 0x4_0000 then 2 else if q.szVol < 0x8_0000 then 4
           else if q.szVol < 0x10_0000 then 8 else if q.szVol < 0x20_0000 then 16 else if q.szVol < 0x40_0000 then 32
               else 64
  {
    AutoFat32(q.szVol / 0x2_0000);
  }

  lemma GivenUnit(q: Request, pau: nat, fsty: FsType)
    requires pau > 0
    ensures Unit(q, pau, fsty) == pau
  {
  }

  /** Small volumes: up to 65535 sectors, clusters of 1, 2 or 4 sectors at first. */
  lemma FormatsSmall(q: Request)
    requires q.Ok() && Usual(q) && 128 <= q.szVol < 0x1_0000
    ensures Search(q, 0, Fat16).Chosen?
  {
    hide Search, Unit, Request.Ok;
    UnitFat16(q);
    var pau := Unit(q, 0, Fat16);
    if q.szVol / pau <= 4085 {
      FormatsFat12(q, 0, pau);
    } else {
      var k, sz := TryFat16(q, 0, pau);
      if k <= 4085 {
        GivenUnit(q, 2 * pau, Fat16);
        FormatsFat12(q, 2 * pau, 2 * pau);
      }
    }
  }

  /** Volumes that become FAT16 with the cluster size of the table or the next one. */
  lemma FormatsMiddle(q: Request)
    requires q.Ok() && Usual(q) && 0x1_0000 <= q.szVol < 0x20_0000
    ensures Search(q, 0, Fat16).Chosen?
  {
    hide Search, Unit, Request.Ok;
    UnitFat16(q);
    var pau := Unit(q, 0, Fat16);
    var k, sz := TryFat16(q, 0, pau);
    if k > 65525 {
      GivenUnit(q, 2 * pau, Fat16);
      var k', sz' := TryFat16(q, 2 * pau, 2 * pau);
    }
  }

  /** Large volumes: FAT16 as long as 64-sector clusters last, then FAT32. */
  lemma FormatsLarge(q: Request)
    requires q.Ok() && Usual(q) && q.fat32 && 0x20_0000 <= q.szVol < WORD
    ensures Search(q, 0, Fat16).Chosen?
  {
    hide Search, Unit, Request.Ok;
    UnitFat16(q);
    UnitFat32(q);
    var k, sz := TryFat16(q, 0, 64);
    if k > 65525 {
      var pau := Unit(q, 0, Fat32);
      var k', sz' := TryFat32(q, 0, pau);
      if k' <= 65525 {
        GivenUnit(q, 32, Fat32);
        var k'', sz'' := TryFat32(q, 32, 32);
      }
    }
  }

  /** Types and cluster sizes by the number of sectors, away from the sizes at which the
      sectors of the system area decide. */
  lemma UsualGeometry(q: Request)
    requires q.Ok() && Usual(q) && q.fat32
    ensures var v, r := q.szVol, Search(q, 0, Fat16);
      && (128 <= v <= 4085 ==> r.Chosen? && r.c.fsty == Fat12 && r.c.pau == 1)
      && (4096 <= v <= 8171 ==> r.Chosen? && r.c.fsty == Fat12 && r.c.pau == 2)
      && (8300 <= v < 0x4000 ==> r.Chosen? && r.c.fsty == Fat16 && r.c.pau == 2)
      && (16600 <= v < 0x1_0000 ==> r.Chosen? && r.c.fsty == Fat16 && r.c.pau == 4)
      && (0x1_0000 <= v < 0x4_0000 ==> r.Chosen? && r.c.fsty == Fat16 && r.c.pau == 8)
      && (0x4_0000 <= v < 0x10_0000 ==> r.Chosen? && r.c.fsty == Fat16 && r.c.pau == 16)
      && (0x10_0000 <= v <= 2_097_000 ==> r.Chosen? && r.c.fsty == Fat16 && r.c.pau == 32)
      && (0x20_0000 <= v < 65526 * 64 ==> r.Chosen? && r.c.fsty == Fat16 && r.c.pau == 64)
      && (4_196_000 <= v < WORD ==> r.Chosen? && r.c.fsty == Fat32 && r.c.pau == 64)
  {
    hide Search, Unit, Request.Ok;
    var v := q.szVol;
    UnitFat16(q);
    UnitFat32(q);
    var pau := Unit(q, 0, Fat16);
    if 128 <= v <= 4085 || 4096 <= v <= 8171 {
      FormatsFat12(q, 0, pau);
    } else if 8300 <= v < WORD {
      var k, sz := TryFat16(q, 0, pau);
      if 4_196_000 <= v {
        var k', sz' := TryFat32(q, 0, 64);
      }
    }
  }

  /** With both types allowed and nothing prescribed, every volume of at least 128 sectors
      can be formatted. */
  lemma AnyFormats(q: Request)
    requires q.Ok() && Usual(q) && q.fat32 && q.szVol >= 128
    ensures Search(q, 0, Fat16).Chosen?
  {
    hide Search;
    if q.szVol < 0x1_0000 {
      FormatsSmall(q);
    } else if q.szVol < 0x20_0000 {
      FormatsMiddle(q);
    } else {
      FormatsLarge(q);
    }
  }

  /** The clusters a layout leaves, by unsigned subtraction as in f_mkfs. */
  method CountClusters(q: Request, p: Plan) returns (nClst: nat)
    requires 1 <= p.pau && 1 <= q.nFat <= 2
    ensures nClst == Count(q, p)
  {
    var szDir := if p.fsty.Fat32? then 0 else q.nRoot / 16;
    TwoTimes(q.nFat, p.szFat);
    nClst := (q.szVol - p.szRsv - p.szFat * q.nFat - szDir) % WORD / p.pau;
  }

  lemma TwoTimes(n: nat, x: nat)
    requires 1 <= n <= 2
    ensures x * n == if n == 2 then 2 * x else x
  {
  }
}
