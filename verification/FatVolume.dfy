/** Packing table entries with the shift and mask operators of C. */
module FatPacking {
  import opened Arith
  import opened Bits
  import opened Bytes
  import opened FatTable

  lemma Powers()
    ensures Pow2(4) == 16 && Pow2(8) == 0x100 && Pow2(28) == 0x1000_0000
  {
    assert Pow2(4) == 16 by { assert Pow2(2) == 4; }
    Pow2Add(4, 4);
    Pow2Add(8, 8);
    Pow2Add(16, 8);
    Pow2Add(24, 4);
  }

  lemma Nibble(q: nat)
    requires q < 16
    ensures And(q, 15) == q
  {
    hide And, Pow2;
    Powers();
    AndLow(q, 4);
  }

  lemma TopBits(x: nat, k: nat, p: nat)
    requires p == Pow2(k) && x < 16 * p
    ensures And(x, 15 * p) == x / p * p
  {
    hide And, Pow2;
    AndHigh(x, 15, k);
    DivBound(x, p, 16);
    Nibble(x / p);
  }

  lemma MergeWord(a: byte, b: byte)
    ensures Or(a as int, b as int * 0x100) == a as int + 0x100 * b as int
  {
    Powers();
    OrJoin(a as int, b as int, 8, 0x100);
  }

  lemma OrAbove(x: int, y: int, k: nat, p: int)
    requires p == Pow2(k) && 0 <= x < p
    ensures Or(y * p, x) == x + y * p
  {
    OrDisjoint(x, y, k);
  }

  lemma Mask28(d: nat)
    ensures And(d, 0x0FFF_FFFF) == d % 0x1000_0000
  {
    Powers();
    AndLow(d, 28);
  }

  lemma Nibbles(x: byte, y: nat)
    ensures And(y, 0x0F) == y % 16 && And(x as int, 0xF0) == x as int / 16 * 16
  {
    Powers();
    AndLow(y, 4);
    hide And, Pow2;
    TopBits(x as nat, 4, 16);
  }

  lemma MergeOdd12(x: byte, val: nat)
    ensures Or(And(x as int, 0x0F), val % 0x100 * 16) % 0x100 == x as nat % 16 + (val % 16) * 16
  {
    Nibbles(x, x as nat);
    Powers();
    hide And, Or, Pow2;
    OrJoin(x as int % 16, val % 0x100, 4, 16);
    ShiftByte(x as int % 16, val);
  }

  lemma ShiftByte(x: nat, val: nat)
    requires x < 16
    ensures (x + val % 0x100 * 16) % 0x100 == x + (val % 16) * 16
  {
    var q := val % 0x100 / 16;
    assert val % 0x100 == q * 16 + val % 16;
    ModUnique(x + val % 0x100 * 16, 0x100, q, x + val % 16 * 16);
  }

  lemma MergeEven12(x: byte, val: nat)
    ensures Or(And(x as int, 0xF0), And(val / 0x100 % 0x100, 0x0F)) == x as nat - x as nat % 16 + (val / 0x100) % 16
  {
    hide And, Or, Pow2;
    Nibbles(x, val / 0x100 % 0x100);
    Powers();
    var y, q := val / 0x100 % 0x100 % 16, x as int / 16;
    OrAbove(y, q, 4, 16);
    EvenDigits(x, val);
  }

  lemma EvenDigits(x: byte, val: nat)
    ensures val / 0x100 % 0x100 % 16 == (val / 0x100) % 16
    ensures x as int / 16 * 16 == x as int - x as int % 16
  {
  }

  lemma Merge32(d: nat, x: byte, val: nat)
    requires d < 0x1_0000_0000 && d / 0x1000000 == x as nat
    ensures Or(And(val, 0x0FFF_FFFF), And(d, 0xF000_0000)) == Value32(x, val)
  {
    Mask28(val);
    Powers();
    hide And, Or, Pow2;
    TopBits(d, 28, 0x1000_0000);
    OrJoin(val % 0x1000_0000, d / 0x1000_0000, 28, 0x1000_0000);
    assert d / 0x1000_0000 == x as nat / 16;
  }
}

/** The volume object of the file system module: its window on the medium, the accesses to
    the allocation table through it, and the cluster allocator on top of them. */
module FatVolume {
  import opened Bits
  import opened Bytes
  import opened FatTable
  import opened FatWindow
  import opened FatChain
  import opened FatAlloc
  import FatPacking
  import FatData

  datatype Result = Success | IntErr | Denied | NotEnoughCore

  function LdWord(s: seq<byte>, i: nat): nat
    requires i + 1 < |s|
  {
    s[i] as nat + 0x100 * s[i + 1] as nat
  }

  function LdDword(s: seq<byte>, i: nat): (d: nat)
    requires i + 3 < |s|
    ensures d < WORD && d / 0x1000000 == s[i + 3] as nat
  {
    s[i] as nat + 0x100 * s[i + 1] as nat + 0x10000 * s[i + 2] as nat + 0x1000000 * s[i + 3] as nat
  }

  // Reading an entry from the table sectors that hold it.

  lemma Read12(fat: seq<Sector>, c: nat, a: byte, b: byte)
    requires Offset(Fat12, c) + 2 <= SS * |fat| && a == ByteAt(fat, Offset(Fat12, c))
        && b == ByteAt(fat, Offset(Fat12, c) + 1)
    ensures var wc := Or(a as int, b as int * 0x100);
      (if c % 2 == 1 then wc / 16 else wc % 0x1000) == Entry(Fat12, fat, c)
  {
    FatPacking.MergeWord(a, b);
    hide Or, ByteAt;
  }

  lemma Read16(fat: seq<Sector>, c: nat, s: Sector, i: nat)
    requires Offset(Fat16, c) + 2 <= SS * |fat| && i == c * 2 % SS && s == fat[c * 2 / SS]
    ensures i + 1 < SS && LdWord(s, i) == Entry(Fat16, fat, c)
  {
    assert c * 2 == SS * (c * 2 / SS) + i;
    assert (c * 2 + 1) / SS == c * 2 / SS && (c * 2 + 1) % SS == i + 1;
  }

  lemma Read32(fat: seq<Sector>, c: nat, s: Sector, i: nat)
    requires Offset(Fat32, c) + 4 <= SS * |fat| && i == c * 4 % SS && s == fat[c * 4 / SS]
    ensures i + 3 < SS && And(LdDword(s, i), 0x0FFF_FFFF) == Entry(Fat32, fat, c)
  {
    assert c * 4 == SS * (c * 4 / SS) + i;
    assert i + 3 < SS;
    assert (c * 4 + 1) / SS == (c * 4 + 2) / SS == (c * 4 + 3) / SS == c * 4 / SS;
    FatPacking.Mask28(LdDword(s, i));
    hide And, LdDword;
    Low28(s, i);
  }

  lemma Low28(s: seq<byte>, i: nat)
    requires i + 3 < |s|
    ensures LdDword(s, i) % 0x1000_0000 == Of32(s[i], s[i + 1], s[i + 2], s[i + 3])
  {
    var d := s[i + 3] as nat;
    assert d == d / 16 * 16 + d % 16;
  }

  lemma FatHolds(g: Geometry, w: Window)
    requires FatWindow.Valid(g, w)
    ensures Holds(g.fsType, Fat(g, w), g.nFatent)
  {
  }

  lemma EntryOf(g: Geometry, w: Window, c: nat)
    requires FatWindow.Valid(g, w) && Cluster(TableOf(g, w), c)
    ensures Offset(g.fsType, c) + Width(g.fsType) <= SS * g.fsize && TableOf(g, w)[c] == Entry(g.fsType, Fat(g, w), c)
  {
    hide Fat, Entry;
    FatTable.TableAt(g.fsType, Fat(g, w), g.nFatent, c);
  }

  /** What get_fat returns. */
  function Status(table: seq<nat>, clst: nat): nat {
    if Cluster(table, clst) then table[clst] else 1
  }

  class Fatfs {
    const g: Geometry
    const win: array<byte>
    var disk: seq<Sector>
    var winsect: nat
    var wflag: bool
    var lastClst: nat
    var freeClst: nat
    var fsiFlag: bool
    ghost var view: Window

    ghost predicate Valid()
      reads this, win
    {
      win.Length == SS && view == Window(disk, win[..], winsect, wflag) && FatWindow.Valid(g, view) && lastClst < WORD
          && freeClst < WORD
    }

    /** A volume just mounted: no sector in the window yet. */
    constructor (g: Geometry, disk: seq<Sector>, lastClst: nat, freeClst: nat)
      requires g.Ok() && |disk| == g.sectors && lastClst < WORD && freeClst < WORD
      ensures Valid() && fresh(win) && this.g == g && !wflag && this.disk == disk
      ensures this.lastClst == lastClst && this.freeClst == freeClst && !fsiFlag
    {
      this.g := g;
      this.disk := disk;
      win := new byte[SS](i => 0);
      winsect := WORD - 1;
      wflag := false;
      this.lastClst := lastClst;
      this.freeClst := freeClst;
      fsiFlag := false;
      new;
      view := Window(disk, win[..], winsect, wflag);
      DataNotEmpty(g);
    }

    method SyncWindow()
      requires Valid()
      modifies `disk, `wflag, `view
      ensures Valid() && view == Synced(g, old(view))
      ensures SameVolume(g, Logical(g, old(view)), Logical(g, view))
    {
      ghost var w0 := view;
      SyncedKeeps(g, w0);
      if wflag {
        ReflectsFat(g, winsect);
        disk := disk[winsect := win[..]];
        wflag := false;
        if (winsect - g.fatbase) % WORD < g.fsize {
          if g.nFats == 2 {
            disk := disk[winsect + g.fsize := win[..]];
          }
        }
      }
      view := Window(disk, win[..], winsect, wflag);
    }

    method MoveWindow(sect: nat)
      requires Valid() && sect < g.sectors
      modifies `disk, `wflag, `winsect, `view, win
      ensures Valid() && view == Moved(g, old(view), sect)
      ensures SameVolume(g, Logical(g, old(view)), Logical(g, view))
    {
      ghost var w0 := view;
      MovedKeeps(g, w0, sect);
      if sect != winsect {
        SyncWindow();
        var data := disk[sect];
        forall i | 0 <= i < SS {
          win[i] := data[i];
        }
        assert win[..] == data;
        winsect := sect;
      }
      view := Window(disk, win[..], winsect, wflag);
    }

    /** disk_read of n sectors to the caller, bypassing the window. */
    method DiskRead(buff: array<byte>, at: nat, sect: nat, n: nat)
      requires Valid() && sect + n <= g.sectors && buff != win && at + SS * n <= buff.Length
      modifies buff
      ensures forall i :: 0 <= i < buff.Length ==>
                buff[i] == if at <= i < at + SS * n then disk[sect + (i - at) / SS][(i - at) % SS] else old(buff[i])
    {
      hide FatWindow.Valid;
      forall i | 0 <= i < SS * n {
        buff[at + i] := disk[sect + i / SS][i % SS];
      }
    }

    /** disk_write of n sectors of the data area, bypassing the window. */
    method DiskWrite(sect: nat, data: seq<byte>, n: nat)
      requires Valid() && g.database <= sect && sect + n <= g.sectors && SS * n <= |data|
      modifies `disk, `view
      ensures Valid() && view == old(view).(disk := FatData.PutSectors(old(view).disk, sect, data, n))
      ensures TableOf(g, view) == TableOf(g, old(view)) && (Mirrored(g, old(view)) ==> Mirrored(g, view))
    {
      hide TableOf, Mirrored, FatWindow.Valid;
      ghost var v := view;
      disk := FatData.PutSectors(disk, sect, data, n);
      view := view.(disk := disk);
      FatData.DataWrite(g, v, view);
    }

    /** Start sector of a cluster, 0 for an invalid number. */
    function Clst2Sect(clst: nat): (s: nat)
      requires g.Ok() && clst < WORD
      ensures if 2 <= clst < g.nFatent then s == FatData.Top(g, clst) else s == 0
    {
      ClusterWrap(g, clst);
      var c := (clst - 2) % WORD;
      if c >= g.nFatent - 2 then 0 else g.database + g.csize * c
    }

    /** move_window to the table sector that holds byte i. */
    method ShowFat(i: nat, ghost w0: Window)
      requires Valid() && i < SS * g.fsize && FatWindow.Valid(g, w0) && Keeps(g, w0, view)
      modifies `disk, `wflag, `winsect, `view, win
      ensures Valid() && Keeps(g, w0, view) && Fat(g, view) == Fat(g, old(view))
      ensures winsect == g.fatbase + i / SS && win[..] == Fat(g, view)[i / SS]
    {
      hide Mirrored, SameOutside, Logical, Moved, Fat;
      ghost var v := view;
      MovedFat(g, v, g.fatbase + i / SS);
      MoveWindow(g.fatbase + i / SS);
      KeepsTrans(g, w0, v, view);
    }

    /** Store byte i of the table in the window, which shows it. */
    method StoreFat(i: nat, b: byte, ghost w0: Window)
      requires Valid() && i < SS * g.fsize && FatWindow.Valid(g, w0) && Keeps(g, w0, view)
          && winsect == g.fatbase + i / SS
      modifies `wflag, `view, win
      ensures Valid() && Keeps(g, w0, view) && Fat(g, view) == PutByte(Fat(g, old(view)), i, b)
    {
      ghost var v := view;
      PokedFat(g, v, i, b);
      win[i % SS] := b;
      wflag := true;
      view := Poked(v, i % SS, b);
      KeepsTrans(g, w0, v, view);
    }

    method GetFat12(clst: nat) returns (val: nat)
      requires Valid() && g.fsType.Fat12? && Cluster(TableOf(g, view), clst)
      modifies `disk, `wflag, `winsect, `view, win
      ensures Valid() && Keeps(g, old(view), view) && Fat(g, view) == Fat(g, old(view)) && g.InFat(winsect)
      ensures val == TableOf(g, old(view))[clst]
    {
      hide Keeps, Fat, Logical, Or, Entry, TableOf;
      ghost var w0 := view;
      ghost var fat := Fat(g, w0);
      KeepsSelf(g, w0);
      EntryOf(g, w0, clst);
      var bc := clst + clst / 2;
      ShowFat(bc, w0);
      var wc := win[bc % SS] as int;
      ShowFat(bc + 1, w0);
      Read12(fat, clst, ByteAt(fat, bc), win[(bc + 1) % SS]);
      wc := Or(wc, win[(bc + 1) % SS] as int * 0x100);
      val := if clst % 2 == 1 then wc / 16 else wc % 0x1000;
    }

    method GetFat(clst: nat) returns (val: nat)
      requires Valid() && clst < WORD
      modifies `disk, `wflag, `winsect, `view, win
      ensures Valid() && Keeps(g, old(view), view) && Fat(g, view) == Fat(g, old(view))
          && TableOf(g, view) == TableOf(g, old(view))
      ensures val == Status(TableOf(g, old(view)), clst)
      ensures if Cluster(TableOf(g, old(view)), clst) then g.InFat(winsect) else view == old(view)
    {
      hide Keeps, Fat, Logical, And, LdWord, LdDword, Entry, FatWindow.Valid, FatTable.Table;
      ghost var w0 := view;
      KeepsSelf(g, w0);
      if clst < 2 || clst >= g.nFatent {
        return 1;
      }
      EntryOf(g, w0, clst);
      ghost var fat := Fat(g, w0);
      match g.fsType
      case Fat12 =>
        val := GetFat12(clst);
      case Fat16 =>
        ShowFat(clst * 2, w0);
        Read16(fat, clst, win[..], clst * 2 % SS);
        val := LdWord(win[..], clst * 2 % SS);
      case Fat32 =>
        ShowFat(clst * 4, w0);
        Read32(fat, clst, win[..], clst * 4 % SS);
        val := And(LdDword(win[..], clst * 4 % SS), 0x0FFF_FFFF);
    }

    method PutFat12(clst: nat, val: nat)
      requires Valid() && g.fsType.Fat12? && Cluster(TableOf(g, view), clst)
      modifies `disk, `wflag, `winsect, `view, win
      ensures Valid() && Keeps(g, old(view), view) && g.InFat(winsect)
      ensures Offset(Fat12, clst) + 2 <= SS * g.fsize && Fat(g, view) == PutEntry(Fat12, Fat(g, old(view)), clst, val)
    {
      hide Keeps, Fat, Logical, And, Or, TableOf, PutByte, First12, Second12;
      ghost var w0 := view;
      KeepsSelf(g, w0);
      EntryOf(g, w0, clst);
      var bc := clst + clst / 2;
      ShowFat(bc, w0);
      var p := win[bc % SS];
      Packed12(p, clst, val);
      p := if clst % 2 == 1 then (Or(And(p as int, 0x0F), val % 0x100 * 16) % 0x100) as byte else (val % 0x100) as byte;
      StoreFat(bc, p, w0);
      bc := bc + 1;
      ShowFat(bc, w0);
      p := win[bc % SS];
      Packed12(p, clst, val);
      p := if clst % 2 == 1 then (val / 16 % 0x100) as byte
          else Or(And(p as int, 0xF0), And(val / 0x100 % 0x100, 0x0F)) as byte;
      StoreFat(bc, p, w0);
    }

    method PutFat16(clst: nat, val: nat)
      requires Valid() && g.fsType.Fat16? && Cluster(TableOf(g, view), clst)
      modifies `disk, `wflag, `winsect, `view, win
      ensures Valid() && Keeps(g, old(view), view) && g.InFat(winsect)
      ensures Offset(Fat16, clst) + 2 <= SS * g.fsize && Fat(g, view) == PutEntry(Fat16, Fat(g, old(view)), clst, val)
    {
      hide Keeps, Fat, Logical, TableOf, PutByte, Low, FatWindow.Valid;
      ghost var w0 := view;
      KeepsSelf(g, w0);
      EntryOf(g, w0, clst);
      var i := clst * 2;
      SameSector(i);
      ShowFat(i, w0);
      StoreFat(i, Low(val), w0);
      StoreFat(i + 1, Low(val / 0x100), w0);
    }

    method PutFat32(clst: nat, val: nat)
      requires Valid() && g.fsType.Fat32? && Cluster(TableOf(g, view), clst)
      modifies `disk, `wflag, `winsect, `view, win
      ensures Valid() && Keeps(g, old(view), view) && g.InFat(winsect)
      ensures Offset(Fat32, clst) + 4 <= SS * g.fsize && Fat(g, view) == PutEntry(Fat32, Fat(g, old(view)), clst, val)
    {
      hide Keeps, Fat, Logical, And, Or, TableOf, PutByte, ByteAt, Value32, LdDword, Low, FatWindow.Valid;
      ghost var w0 := view;
      ghost var fat := Fat(g, w0);
      KeepsSelf(g, w0);
      EntryOf(g, w0, clst);
      var i := clst * 4;
      SameSector(i);
      ShowFat(i, w0);
      Loaded32(fat, win[..], i);
      var d := LdDword(win[..], i % SS);
      FatPacking.Merge32(d, ByteAt(fat, i + 3), val);
      var v := Or(And(val, 0x0FFF_FFFF), And(d, 0xF000_0000));
      StoreFat(i, Low(v), w0);
      StoreFat(i + 1, Low(v / 0x100), w0);
      StoreFat(i + 2, Low(v / 0x10000), w0);
      StoreFat(i + 3, Low(v / 0x1000000), w0);
    }

    method PutFat(clst: nat, val: nat) returns (res: Result)
      requires Valid() && clst < WORD && val < WORD
      modifies `disk, `wflag, `winsect, `view, win
      ensures Valid() && Keeps(g, old(view), view)
      ensures if Cluster(TableOf(g, old(view)), clst)
              then res == Success && g.InFat(winsect) && TableOf(g, view)
                  == TableOf(g, old(view))[clst := Cut(g.fsType, val)]
              else res == IntErr && view == old(view)
    {
      hide Keeps, Fat, Logical, FatWindow.Valid, PutEntry, FatTable.Table;
      ghost var w0 := view;
      KeepsSelf(g, w0);
      if clst < 2 || clst >= g.nFatent {
        return IntErr;
      }
      EntryOf(g, w0, clst);
      FatHolds(g, w0);
      PutTable(g.fsType, Fat(g, w0), g.nFatent, clst, val);
      match g.fsType {
      case Fat12 =>
        PutFat12(clst, val);
      case Fat16 =>
        PutFat16(clst, val);
      case Fat32 =>
        PutFat32(clst, val);
      }
      res := Success;
    }

    /** get_fat in the middle of an operation that began with the window w0. */
    method Peek(clst: nat, ghost w0: Window) returns (val: nat)
      requires Valid() && 2 <= clst < g.nFatent && FatWindow.Valid(g, w0) && Keeps(g, w0, view)
      modifies `disk, `wflag, `winsect, `view, win
      ensures Valid() && Keeps(g, w0, view) && TableOf(g, view) == TableOf(g, old(view))
          && val == TableOf(g, old(view))[clst]
    {
      hide Keeps, TableOf, FatWindow.Valid;
      SmallTable(g, view);
      ghost var v := view;
      val := GetFat(clst);
      KeepsTrans(g, w0, v, view);
    }

    /** The circular search of create_chain for a free cluster after scl. */
    method FindFree(scl: nat, ghost w0: Window) returns (ncl: nat)
      requires Valid() && 1 <= scl < g.nFatent && FatWindow.Valid(g, w0) && Keeps(g, w0, view)
      modifies `disk, `wflag, `winsect, `view, win
      ensures Valid() && Keeps(g, w0, view) && TableOf(g, view) == TableOf(g, old(view))
      ensures ncl == Find(TableOf(g, old(view)), scl, 0)
    {
      hide Keeps, TableOf, FatWindow.Valid, Find, Visited;
      SmallTable(g, view);
      ghost var table, k := TableOf(g, view), 0;
      ncl := scl;
      FindBegins(table, scl);
      while true
        invariant Valid() && Keeps(g, w0, view) && TableOf(g, view) == table
        invariant Visited(table, scl, k, ncl)
        decreases |table| - k
      {
        FindStep(table, scl, k, ncl);
        ncl := ncl + 1;
        if ncl >= g.nFatent {
          ncl := 2;
          if ncl > scl {
            return 0;
          }
        }
        var cs := Peek(ncl, w0);
        if cs == 0 {
          break;
        }
        if cs == 1 {
          return cs;
        }
        k := k + 1;
        if ncl == scl {
          return 0;
        }
      }
    }

    /** The cluster create_chain is to take: first the one after clst, then the search. */
    method PickFree(clst: nat, start: nat, ghost w0: Window) returns (ncl: nat)
      requires Valid() && FatWindow.Valid(g, w0) && Keeps(g, w0, view)
      requires if clst == 0 then start == Start(TableOf(g, view), lastClst, 0)
          else Cluster(TableOf(g, view), clst) && start == clst
      modifies `disk, `wflag, `winsect, `view, win
      ensures Valid() && Keeps(g, w0, view) && TableOf(g, view) == TableOf(g, old(view))
      ensures ncl == Choice(TableOf(g, old(view)), lastClst, clst)
    {
      hide Keeps, TableOf, FatWindow.Valid, Find;
      SmallTable(g, view);
      var scl := start;
      ncl := 0;
      if scl == clst {
        ncl := scl + 1;
        if ncl >= g.nFatent { ncl := 2; }
        var cs := Peek(ncl, w0);
        if cs == 1 { return cs; }
        if cs != 0 {
          cs := lastClst;
          if cs >= 2 && cs < g.nFatent { scl := cs; }
          ncl := 0;
        }
      }
      if ncl == 0 {
        ncl := FindFree(scl, w0);
      }
    }

    method CreateChain(clst: nat) returns (r: nat)
      requires Valid() && clst < WORD
      modifies this, win
      ensures Valid() && Keeps(g, old(view), view)
      ensures r == Outcome(TableOf(g, old(view)), old(lastClst), old(freeClst), clst)
      ensures TableOf(g, view) == Created(TableOf(g, old(view)), old(lastClst), old(freeClst), clst, Cut(g.fsType, EOC))
      ensures if Took(TableOf(g, old(view)), old(lastClst), old(freeClst), clst)
              then lastClst == r && freeClst == Lowered(TableOf(g, old(view)), old(freeClst)) && fsiFlag
                  && g.InFat(winsect)
              else lastClst == old(lastClst) && freeClst == old(freeClst) && fsiFlag == old(fsiFlag)
      ensures Counted(TableOf(g, old(view)), old(freeClst)) ==> Counted(TableOf(g, view), freeClst)
    {
      hide Keeps, TableOf, FatWindow.Valid, Choice, Counted, Stretched;
      SmallTable(g, view);
      ghost var w0, table := view, TableOf(g, view);
      KeepsSelf(g, w0);
      var scl;
      if clst == 0 {
        scl := lastClst;
        if scl == 0 || scl >= g.nFatent { scl := 1; }
      } else {
        var cs := GetFat(clst);
        if cs < 2 { return 1; }
        if cs < g.nFatent { return cs; }
        scl := clst;
      }
      if freeClst == 0 { return 0; }
      var ncl := PickFree(clst, scl, w0);
      if ncl < 2 { return ncl; }
      ChoiceMeaning(table, lastClst, clst);
      CreatedCounted(table, lastClst, freeClst, clst, Cut(g.fsType, EOC));
      Link(ncl, clst, w0);
      lastClst := ncl;
      if freeClst <= g.nFatent - 2 { freeClst := freeClst - 1; }
      fsiFlag := true;
      r := ncl;
    }

    /** Mark the new cluster as an end and link it from the previous one if there is one. */
    method Link(ncl: nat, clst: nat, ghost w0: Window)
      requires Valid() && FatWindow.Valid(g, w0) && Keeps(g, w0, view)
      requires Cluster(TableOf(g, view), ncl) && (clst != 0 ==> Cluster(TableOf(g, view), clst))
      modifies `disk, `wflag, `winsect, `view, win
      ensures Valid() && Keeps(g, w0, view)
      ensures TableOf(g, view) == Stretched(TableOf(g, old(view)), clst, ncl, Cut(g.fsType, EOC)) && g.InFat(winsect)
    {
      hide Keeps, TableOf, FatWindow.Valid;
      SmallTable(g, view);
      ghost var w1 := view;
      var res := PutFat(ncl, EOC);
      KeepsTrans(g, w0, w1, view);
      if res == Success && clst != 0 {
        w1 := view;
        res := PutFat(clst, ncl);
        KeepsTrans(g, w0, w1, view);
      }
    }

    method RemoveChain(clst: nat, pclst: nat) returns (res: Result)
      requires Valid() && clst < WORD && pclst < WORD
      modifies this, win
      ensures Valid() && Keeps(g, old(view), view) && lastClst == old(lastClst)
      ensures if Removable(TableOf(g, old(view)), clst, pclst)
              then Removed(Capped(TableOf(g, old(view)), pclst, Cut(g.fsType, EOC)), old(freeClst), clst,
                           TableOf(g, view), freeClst, res == Success)
              else res == IntErr && view == old(view) && freeClst == old(freeClst)
      ensures fsiFlag == (old(fsiFlag) || freeClst != old(freeClst))
    {
      hide Keeps, TableOf, FatWindow.Valid, Removed, Removing, FreeClusters;
      SmallTable(g, view);
      ghost var w0, free0 := view, freeClst;
      KeepsSelf(g, w0);
      if clst < 2 || clst >= g.nFatent { return IntErr; }
      if pclst != 0 {
        res := PutFat(pclst, EOC);
        if res != Success { return; }
      }
      ghost var t0 := TableOf(g, view);
      RemovingBegins(t0, free0, clst);
      var c: nat := clst;
      while true
        invariant Valid() && Keeps(g, w0, view) && lastClst == old(lastClst)
        invariant freeClst >= free0 && fsiFlag == (old(fsiFlag) || freeClst != free0)
        invariant Cluster(TableOf(g, view), c) && Removing(t0, free0, clst, TableOf(g, view), freeClst, c)
        decreases g.nFatent - FreeClusters(TableOf(g, view))
      {
        RemovingStep(t0, free0, clst, TableOf(g, view), freeClst, c);
        var nxt := Peek(c, w0);
        if nxt == 0 { break; }
        if nxt == 1 { return IntErr; }
        ghost var v := view;
        res := PutFat(c, 0);
        KeepsTrans(g, w0, v, view);
        if res != Success { return; }
        if freeClst < g.nFatent - 2 {
          freeClst := freeClst + 1;
          fsiFlag := true;
        }
        c := nxt;
        if c >= g.nFatent { break; }
      }
      res := Success;
    }
  }

  lemma ClusterWrap(g: Geometry, clst: nat)
    requires g.Ok() && clst < WORD
    ensures (clst - 2) % WORD == if clst < 2 then clst - 2 + WORD else clst - 2
    ensures g.nFatent < WORD - 2 && g.csize > 0
  {
    Wrap(clst - 2);
  }

  /** Cluster numbers fit an entry and the largest value of an entry is an end mark. */
  lemma SmallTable(g: Geometry, w: Window)
    requires FatWindow.Valid(g, w)
    ensures 3 <= g.nFatent < WORD && g.nFatent <= Cut(g.fsType, EOC) && forall c: nat :: c < g.nFatent ==>
        Cut(g.fsType, c) == c
  {
  }

  /** The search has made k steps, the last one to ncl, without a decision. */
  predicate Visited(table: seq<nat>, scl: nat, k: nat, ncl: nat)
    requires 1 <= scl < |table|
  {
    && k <= |table| - 2 && (k > 0 ==> ncl != scl)
    && ncl == (if k == 0 then scl else Visit(|table|, scl, k - 1)) && Find(table, scl, 0) == Find(table, scl, k)
  }

  lemma FindBegins(table: seq<nat>, scl: nat)
    requires 3 <= |table| && 1 <= scl < |table|
    ensures Visited(table, scl, 0, scl)
  {
  }

  lemma FindStep(table: seq<nat>, scl: nat, k: nat, ncl: nat)
    requires 1 <= scl < |table| && Visited(table, scl, k, ncl)
    ensures k <= |table| - 2
    ensures var c := if ncl + 1 >= |table| then 2 else ncl + 1;
      if ncl + 1 >= |table| && c > scl then Find(table, scl, 0) == 0
      else
        && k < |table| - 2 && 2 <= c < |table|
        && (table[c] == 0 ==> Find(table, scl, 0) == c)
        && (table[c] == 1 ==> Find(table, scl, 0) == 1)
        && (table[c] > 1 ==> if c == scl then Find(table, scl, 0) == 0 else Visited(table, scl, k + 1, c))
  {
    var c := if ncl + 1 >= |table| then 2 else ncl + 1;
    if k < |table| - 2 && c == scl {
      assert Find(table, scl, k + 1) == 0;
    }
  }

  lemma CreatedCounted(table: seq<nat>, last: nat, free: nat, clst: nat, eoc: nat)
    requires |table| >= 3 && eoc >= |table| && Took(table, last, free, clst)
    ensures Counted(table, free) ==> Counted(Created(table, last, free, clst, eoc), Lowered(table, free))
  {
    if Counted(table, free) {
      CreatedCount(table, last, free, clst, eoc);
    }
  }

  predicate Follows(i: nat, k: nat) {
    (i + k) / SS == i / SS && (i + k) % SS == i % SS + k
  }

  lemma SameSector(i: nat)
    ensures i % 2 == 0 ==> Follows(i, 1)
    ensures i % 4 == 0 ==> Follows(i, 1) && Follows(i, 2) && Follows(i, 3)
  {
    var q, r := i / SS, i % SS;
    assert i == SS * q + r;
  }

  lemma Loaded32(fat: seq<Sector>, s: Sector, i: nat)
    requires i % 4 == 0 && i + 3 < SS * |fat| && s == fat[i / SS]
    ensures i % SS + 3 < SS && LdDword(s, i % SS) / 0x1000000 == ByteAt(fat, i + 3) as nat
  {
    SameSector(i);
  }

  lemma Packed12(x: byte, c: nat, val: nat)
    ensures c % 2 == 1 ==> Or(And(x as int, 0x0F), val % 0x100 * 16) % 0x100 == First12(x, c, val) as int
    ensures c % 2 == 0 ==> val % 0x100 == First12(x, c, val) as int
    ensures c % 2 == 1 ==> val / 16 % 0x100 == Second12(x, c, val) as int
    ensures c % 2 == 0 ==> Or(And(x as int, 0xF0), And(val / 0x100 % 0x100, 0x0F)) == Second12(x, c, val) as int
  {
    FatPacking.MergeOdd12(x, val);
    FatPacking.MergeEven12(x, val);
    hide And, Or;
  }

  lemma DataNotEmpty(g: Geometry)
    requires g.Ok()
    ensures g.database < g.sectors
  {
    assert g.csize * (g.nFatent - 2) >= 1;
  }
}
