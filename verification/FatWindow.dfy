/** The one-sector write-back window of a mounted volume, as a value: the medium, the
    window's contents, its sector number and its dirty flag. */
module FatWindow {
  import opened Bytes
  import opened FatTable

  /** What mount_volume found: table type and count, sector addresses, cluster size in
      sectors, number of table entries, and the sectors of the medium. */
  datatype Geometry = Geometry(fsType: FsType, nFats: nat, fsize: nat, fatbase: nat, database: nat,
                               csize: nat, nFatent: nat, sectors: nat)
  {
    predicate Ok()
      ensures Ok() ==> Layout()
    {
      Layout() && Sized()
    }

    predicate Layout() {
      && 1 <= nFats <= 2 && 0 < fatbase && fatbase + fsize <= database
          && (nFats == 2 ==> fatbase + 2 * fsize <= database)
      && database <= sectors <= WORD && 3 <= nFatent
    }

    /** The table has its entries, the data area its clusters. */
    predicate Sized() {
      && csize in {1, 2, 4, 8, 16, 32, 64, 128} && database + csize * (nFatent - 2) <= sectors
      && nFatent <= MaxEntries(fsType) && TableBytes(fsType, nFatent) <= SS * fsize
    }

    predicate InFat(s: nat) { fatbase <= s < fatbase + fsize }

    /** Sector s belongs to the second copy of the table. */
    predicate InMirror(s: nat) { nFats == 2 && fatbase + fsize <= s < fatbase + 2 * fsize }
  }

  /** Sector numbers wrap at 32 bits. */
  const WORD: nat := 0x1_0000_0000

  datatype Window = Window(disk: seq<Sector>, win: Sector, winsect: nat, wflag: bool)

  predicate Valid(g: Geometry, w: Window)
    ensures Valid(g, w) ==> g.Ok() && |w.disk| == g.sectors
  {
    && g.Ok() && |w.disk| == g.sectors && w.winsect < WORD
    && (w.wflag ==> w.winsect < g.sectors && !g.InMirror(w.winsect))
    && (!w.wflag && g.InFat(w.winsect) ==> w.win == w.disk[w.winsect])
  }

  /** The volume as its users see it: the medium overlaid by a dirty window. */
  function Logical(g: Geometry, w: Window): (r: seq<Sector>)
    requires Valid(g, w)
    ensures |r| == g.sectors
  {
    if w.wflag then w.disk[w.winsect := w.win] else w.disk
  }

  /** The second copy of the table agrees with the first, but for a dirty window. */
  ghost predicate Mirrored(g: Geometry, w: Window)
    requires Valid(g, w)
  {
    g.nFats == 2 ==> forall s: nat :: g.InFat(s) && !(w.wflag && w.winsect == s) ==> w.disk[s + g.fsize] == w.disk[s]
  }

  function Fat(g: Geometry, w: Window): (r: seq<Sector>)
    requires Valid(g, w)
    ensures |r| == g.fsize
  {
    Logical(g, w)[g.fatbase..g.fatbase + g.fsize]
  }

  function TableOf(g: Geometry, w: Window): (r: seq<nat>)
    requires Valid(g, w)
    ensures |r| == g.nFatent
  {
    Table(g.fsType, Fat(g, w), g.nFatent)
  }

  // ---- sync_window and move_window

  /** Does the sector, by unsigned subtraction, belong to the first table? */
  predicate Reflects(g: Geometry, sect: nat) {
    (sect - g.fatbase) % WORD < g.fsize && g.nFats == 2
  }

  lemma ReflectsFat(g: Geometry, sect: nat)
    requires g.Ok() && sect < WORD
    ensures Reflects(g, sect) <==> g.InFat(sect) && g.nFats == 2
  {
    hide Geometry.Ok;
    Wrap(sect - g.fatbase);
  }

  lemma Wrap(d: int)
    requires 0 <= d + WORD && d < WORD
    ensures d % WORD == if d < 0 then d + WORD else d
  {
  }

  function Synced(g: Geometry, w: Window): (r: Window)
    requires Valid(g, w)
    ensures !r.wflag && r.winsect == w.winsect && r.win == w.win && |r.disk| == |w.disk|
  {
    if !w.wflag then w
    else
      ReflectsFat(g, w.winsect);
      var d := w.disk[w.winsect := w.win];
      w.(disk := if Reflects(g, w.winsect) then d[w.winsect + g.fsize := w.win] else d, wflag := false)
  }

  function Moved(g: Geometry, w: Window, sect: nat): (r: Window)
    requires Valid(g, w) && sect < g.sectors
    ensures r.winsect == sect
  {
    if sect == w.winsect then w
    else var s := Synced(g, w); s.(win := s.disk[sect], winsect := sect)
  }

  /** Two volumes that differ at most in the second copy of the table. */
  predicate SameVolume(g: Geometry, a: seq<Sector>, b: seq<Sector>) {
    |a| == |b| && forall s :: 0 <= s < |a| && !g.InMirror(s) ==> a[s] == b[s]
  }

  /** Two volumes that differ at most in the tables. */
  predicate SameOutside(g: Geometry, a: seq<Sector>, b: seq<Sector>) {
    |a| == |b| && forall s :: 0 <= s < |a| && !g.InMirror(s) && !g.InFat(s) ==> a[s] == b[s]
  }

  /** What every access to the table keeps: the invariants, the sectors outside the tables,
      and a window that is left where it was or moved out of the data area. */
  ghost predicate Keeps(g: Geometry, a: Window, b: Window)
    requires Valid(g, a)
  {
    && Valid(g, b) && (Mirrored(g, a) ==> Mirrored(g, b)) && SameOutside(g, Logical(g, a), Logical(g, b))
    && (b.winsect < g.database || (b.winsect == a.winsect && b.wflag == a.wflag))
  }

  lemma KeepsSelf(g: Geometry, a: Window)
    requires Valid(g, a)
    ensures Keeps(g, a, a)
  {
  }

  lemma KeepsTrans(g: Geometry, a: Window, b: Window, c: Window)
    requires Valid(g, a) && Keeps(g, a, b) && Keeps(g, b, c)
    ensures Keeps(g, a, c)
  {
    hide Mirrored, Logical, Valid;
  }

  lemma SyncedKeeps(g: Geometry, w: Window)
    requires Valid(g, w)
    ensures var s := Synced(g, w);
        Valid(g, s) && SameVolume(g, Logical(g, w), Logical(g, s)) && (Mirrored(g, w) ==> Mirrored(g, s))
  {
    if w.wflag {
      ReflectsFat(g, w.winsect);
    }
  }

  /** Moving the window never changes the volume, keeps the copies of the table equal, and
      shows the new sector. */
  lemma MovedKeeps(g: Geometry, w: Window, sect: nat)
    requires Valid(g, w) && sect < g.sectors
    ensures var m := Moved(g, w, sect);
      Valid(g, m) && SameVolume(g, Logical(g, w), Logical(g, m)) && (Mirrored(g, w) ==> Mirrored(g, m))
    ensures g.InFat(sect) || (sect != w.winsect && !g.InMirror(sect)) ==> Moved(g, w, sect).win == Logical(g, w)[sect]
  {
    if sect != w.winsect {
      SyncedKeeps(g, w);
      var s := Synced(g, w);
      hide Synced;
      assert Logical(g, s) == s.disk;
    }
  }

  lemma SameFat(g: Geometry, a: Window, b: Window)
    requires Valid(g, a) && Valid(g, b) && SameVolume(g, Logical(g, a), Logical(g, b))
    ensures Fat(g, a) == Fat(g, b)
  {
    hide Logical;
    assert forall i :: 0 <= i < g.fsize ==> Fat(g, a)[i] == Fat(g, b)[i];
  }

  lemma MovedFat(g: Geometry, w: Window, sect: nat)
    requires Valid(g, w) && g.InFat(sect)
    ensures sect < g.sectors
    ensures var m := Moved(g, w, sect); Keeps(g, w, m) && Fat(g, m) == Fat(g, w) && m.win == Fat(g, w)[sect - g.fatbase]
  {
    MovedKeeps(g, w, sect);
    SameFat(g, w, Moved(g, w, sect));
    hide Moved, Mirrored, Logical;
  }

  // ---- writing through the window

  function Poked(w: Window, i: nat, b: byte): Window
    requires i < SS
  {
    w.(win := w.win[i := b], wflag := true)
  }

  /** Storing a byte in a window on the table changes that byte of the table only. */
  lemma PokedFat(g: Geometry, w: Window, i: nat, b: byte)
    requires Valid(g, w) && i < SS * g.fsize && w.winsect == g.fatbase + i / SS
    ensures Valid(g, Poked(w, i % SS, b))
    ensures Fat(g, Poked(w, i % SS, b)) == PutByte(Fat(g, w), i, b)
    ensures Keeps(g, w, Poked(w, i % SS, b))
  {
    var p := Poked(w, i % SS, b);
    assert Logical(g, w)[w.winsect] == w.win;
    assert Logical(g, p) == Logical(g, w)[w.winsect := p.win];
    hide Logical;
    assert Fat(g, p) == Fat(g, w)[i / SS := p.win];
  }
}
