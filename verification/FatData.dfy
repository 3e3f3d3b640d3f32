/** The data of an open file as a value: its clusters, the sector in its private buffer and
    its cursor, on top of a volume's window. */
module FatData {
  import opened Arith
  import opened Bits
  import opened Bytes
  import opened FatTable
  import opened FatWindow
  import opened FatChain

  // ---- sectors of clusters

  predicate Clusters(g: Geometry, ch: seq<nat>) {
    forall k :: 0 <= k < |ch| ==> 2 <= ch[k] < g.nFatent
  }

  /** Start of a cluster; clst2sect on a valid number. */
  function Top(g: Geometry, c: nat): (s: int)
    requires 2 <= c
    ensures s >= g.database
  {
    g.database + g.csize * (c - 2)
  }

  lemma TopRange(g: Geometry, c: nat)
    requires g.Ok() && 2 <= c < g.nFatent
    ensures g.database <= Top(g, c) && Top(g, c) + g.csize <= g.sectors && g.csize > 0
  {
    TimesMonotone(g.csize, c - 1, g.nFatent - 2);
    assert g.csize * (c - 1) == g.csize * (c - 2) + g.csize;
  }

  /** Sector j of a file whose clusters are ch. */
  function SectorOf(g: Geometry, ch: seq<nat>, j: nat): (s: nat)
    requires g.csize > 0 && Clusters(g, ch) && j < g.csize * |ch|
  {
    DivBound(j, g.csize, |ch|);
    Top(g, ch[j / g.csize]) + j % g.csize
  }

  /** The cluster a sector of the data area lies in. */
  function ClusterOf(g: Geometry, s: nat): int
    requires g.csize > 0
  {
    (s - g.database) / g.csize + 2
  }

  /** Sector s belongs to a cluster of ch. */
  predicate OfFile(g: Geometry, ch: seq<nat>, s: nat)
    requires g.csize > 0
  {
    g.database <= s && exists k :: 0 <= k < |ch| && ch[k] == ClusterOf(g, s)
  }

  lemma SectorFacts(g: Geometry, ch: seq<nat>, j: nat)
    requires g.Ok() && Clusters(g, ch) && j < g.csize * |ch|
    ensures j / g.csize < |ch| && 0 < g.database <= SectorOf(g, ch, j) < g.sectors
    ensures ClusterOf(g, SectorOf(g, ch, j)) == ch[j / g.csize] && OfFile(g, ch, SectorOf(g, ch, j))
    ensures (SectorOf(g, ch, j) - g.database) % g.csize == j % g.csize
  {
    DivBound(j, g.csize, |ch|);
    var c := ch[j / g.csize];
    TopRange(g, c);
    ModUnique(g.csize * (c - 2) + j % g.csize, g.csize, c - 2, j % g.csize);
  }

  lemma SectorInjective(g: Geometry, ch: seq<nat>, i: nat, j: nat)
    requires g.Ok() && Clusters(g, ch) && Distinct(ch) && i < g.csize * |ch| && j < g.csize * |ch|
    requires SectorOf(g, ch, i) == SectorOf(g, ch, j)
    ensures i == j
  {
    hide SectorOf, OfFile, ClusterOf;
    SectorFacts(g, ch, i);
    SectorFacts(g, ch, j);
    DivMod(i, g.csize);
    DivMod(j, g.csize);
  }

  /** The sectors of one cluster are consecutive. */
  lemma SectorRun(g: Geometry, ch: seq<nat>, j: nat, t: nat)
    requires g.Ok() && Clusters(g, ch) && j < g.csize * |ch| && j % g.csize + t < g.csize
    ensures j + t < g.csize * |ch| && (j + t) / g.csize == j / g.csize && (j + t) % g.csize == j % g.csize + t
    ensures SectorOf(g, ch, j + t) == SectorOf(g, ch, j) + t
  {
    DivBound(j, g.csize, |ch|);
    DivMod(j, g.csize);
    ModUnique(j + t, g.csize, j / g.csize, j % g.csize + t);
    TimesMonotone(g.csize, j / g.csize + 1, |ch|);
    assert g.csize * (j / g.csize + 1) == g.csize * (j / g.csize) + g.csize;
  }

  // ---- the state of an open file

  datatype File = File(chain: seq<nat>, sclust: nat, objsize: nat, fptr: nat, clust: nat,
                       sect: nat, dirty: bool, buf: Sector)

  predicate Mapped(g: Geometry, disk: seq<Sector>, ch: seq<nat>) {
    g.Ok() && |disk| == g.sectors && Clusters(g, ch)
  }

  /** What file sector j holds: the buffer if it is dirty for that sector, else the medium. */
  function DataSector(g: Geometry, disk: seq<Sector>, f: File, j: nat): Sector
    requires Mapped(g, disk, f.chain) && j < g.csize * |f.chain|
  {
    SectorFacts(g, f.chain, j);
    var s := SectorOf(g, f.chain, j);
    if f.dirty && f.sect == s then f.buf else disk[s]
  }

  /** All the sectors of the file's clusters. */
  function Image(g: Geometry, disk: seq<Sector>, f: File): (r: seq<Sector>)
    requires Mapped(g, disk, f.chain)
    ensures |r| == g.csize * |f.chain|
  {
    seq(g.csize * |f.chain|, j requires 0 <= j < g.csize * |f.chain| => DataSector(g, disk, f, j))
  }

  lemma ImageAt(g: Geometry, disk: seq<Sector>, f: File, j: nat)
    requires Mapped(g, disk, f.chain) && j < g.csize * |f.chain|
    ensures Image(g, disk, f)[j] == DataSector(g, disk, f, j)
  {
  }

  /** Bytes a to b of an image. */
  function Slice(img: seq<Sector>, a: nat, b: nat): (r: seq<byte>)
    requires a <= b <= SS * |img|
    ensures |r| == b - a
  {
    seq(b - a, k requires 0 <= k < b - a => ByteAt(img, a + k))
  }

  lemma SliceAt(img: seq<Sector>, a: nat, b: nat, k: nat)
    requires a <= b <= SS * |img| && k < b - a
    ensures Slice(img, a, b)[k] == ByteAt(img, a + k)
  {
  }

  // ---- the invariant

  /** The start cluster and the chain agree with the table. */
  predicate Linked(g: Geometry, w: Window, f: File)
    requires Valid(g, w)
  {
    if f.sclust == 0 then f.chain == [] else IsChain(TableOf(g, w), f.chain) && f.chain[0] == f.sclust
  }

  /** A clean buffer holds its sector, a dirty one holds a sector of the file. */
  predicate Cached(g: Geometry, disk: seq<Sector>, f: File)
    requires g.csize > 0 && |disk| == g.sectors
  {
    && (f.sect != 0 ==> g.database <= f.sect < g.sectors) && (f.dirty ==> OfFile(g, f.chain, f.sect))
    && (f.sect != 0 && !f.dirty ==> f.buf == disk[f.sect])
  }

  /** A dirty window does not hold data of the file. */
  predicate Foreign(g: Geometry, w: Window, f: File)
    requires g.csize > 0
  {
    w.wflag ==> !OfFile(g, f.chain, w.winsect) && (w.winsect >= g.database ==> w.winsect != f.sect)
  }

  predicate Capacity(g: Geometry, f: File) {
    f.objsize < WORD && f.fptr < WORD && f.objsize <= SS * (g.csize * |f.chain|)
  }

  predicate Base(g: Geometry, w: Window, f: File)
    ensures Base(g, w, f) ==> Valid(g, w) && Mapped(g, w.disk, f.chain) && Distinct(f.chain) && g.csize > 0
  {
    && Valid(g, w) && Mapped(g, w.disk, f.chain) && Distinct(f.chain) && g.csize > 0
    && Linked(g, w, f) && Capacity(g, f) && Cached(g, w.disk, f) && Foreign(g, w, f)
  }

  /** The file's contents. */
  function Contents(g: Geometry, w: Window, f: File): (r: seq<byte>)
    requires Base(g, w, f)
    ensures |r| == f.objsize
  {
    Slice(Image(g, w.disk, f), 0, f.objsize)
  }

  /** The file sector of byte p lies in this element of the chain. */
  function ClusterIndex(g: Geometry, p: nat): nat
    requires g.csize > 0
  {
    p / SS / g.csize
  }

  /** The cursor names the cluster of the byte before it, and inside a sector the buffer
      holds that sector. */
  predicate Cursor(g: Geometry, f: File)
    requires g.csize > 0 && Clusters(g, f.chain)
  {
    && f.fptr <= f.objsize <= SS * (g.csize * |f.chain|)
    && (f.fptr > 0 ==> ClusterIndex(g, f.fptr - 1) < |f.chain| && f.clust == f.chain[ClusterIndex(g, f.fptr - 1)])
    && (f.fptr % SS != 0 ==> f.fptr / SS < g.csize * |f.chain| && f.sect == SectorOf(g, f.chain, f.fptr / SS))
  }

  // ---- accesses to the table do not disturb the file

  lemma DataKept(g: Geometry, w: Window, w': Window, s: nat)
    requires Valid(g, w) && Keeps(g, w, w') && g.database <= s < g.sectors && !(w.wflag && w.winsect == s)
    ensures w'.disk[s] == w.disk[s]
  {
    hide Mirrored;
    assert Logical(g, w')[s] == Logical(g, w)[s];
  }

  lemma ImageEqual(g: Geometry, d: seq<Sector>, f: File, d': seq<Sector>, f': File)
    requires Mapped(g, d, f.chain) && Mapped(g, d', f'.chain) && f'.chain == f.chain
    requires forall j :: 0 <= j < g.csize * |f.chain| ==> DataSector(g, d', f', j) == DataSector(g, d, f, j)
    ensures Image(g, d', f') == Image(g, d, f)
  {
    hide DataSector, Mapped;
    var a, b := Image(g, d, f), Image(g, d', f');
    forall j | 0 <= j < |a| ensures a[j] == b[j] {
      ImageAt(g, d, f, j);
      ImageAt(g, d', f', j);
    }
  }

  lemma AccessImage(g: Geometry, w: Window, w': Window, f: File)
    requires Base(g, w, f) && Keeps(g, w, w')
    ensures Image(g, w'.disk, f) == Image(g, w.disk, f)
  {
    hide Image, Mirrored, SameOutside, Logical, OfFile, Valid;
    forall j | 0 <= j < g.csize * |f.chain| ensures DataSector(g, w'.disk, f, j) == DataSector(g, w.disk, f, j) {
      SectorFacts(g, f.chain, j);
      DataKept(g, w, w', SectorOf(g, f.chain, j));
    }
    ImageEqual(g, w.disk, f, w'.disk, f);
  }

  lemma AccessKeeps(g: Geometry, w: Window, w': Window, f: File)
    requires Base(g, w, f) && Keeps(g, w, w') && TableOf(g, w') == TableOf(g, w)
    ensures Base(g, w', f) && Image(g, w'.disk, f) == Image(g, w.disk, f)
  {
    hide Image, Mirrored, Logical, SameOutside, TableOf, Valid;
    AccessImage(g, w, w', f);
    if f.sect != 0 && !f.dirty {
      DataKept(g, w, w', f.sect);
    }
  }

  // ---- splicing bytes

  /** c with the bytes from p on replaced by d, longer if d reaches past the end. */
  function Splice(c: seq<byte>, p: nat, d: seq<byte>): (r: seq<byte>)
    requires p <= |c|
    ensures |r| == if p + |d| > |c| then p + |d| else |c|
  {
    c[..p] + d + if p + |d| < |c| then c[p + |d|..] else []
  }

  lemma SpliceAt(c: seq<byte>, p: nat, d: seq<byte>, i: nat)
    requires p <= |c| && i < |Splice(c, p, d)|
    ensures Splice(c, p, d)[i] == if i < p then c[i] else if i < p + |d| then d[i - p] else c[i]
  {
  }

  /** Two adjacent pieces written one after the other. */
  lemma SpliceTwice(c: seq<byte>, p: nat, d: seq<byte>, e: seq<byte>)
    requires p <= |c|
    ensures Splice(Splice(c, p, d), p + |d|, e) == Splice(c, p, d + e)
  {
    var a, b := Splice(Splice(c, p, d), p + |d|, e), Splice(c, p, d + e);
    forall i | 0 <= i < |a| ensures a[i] == b[i] {
      SpliceAt(c, p, d + e, i);
      SpliceAt(Splice(c, p, d), p + |d|, e, i);
      if i < |Splice(c, p, d)| {
        SpliceAt(c, p, d, i);
      }
    }
  }

  predicate SameByte(a: seq<Sector>, b: seq<Sector>, i: nat)
    requires i < SS * |a| && i < SS * |b|
  {
    ByteAt(a, i) == ByteAt(b, i)
  }

  /** An image that differs from another by the bytes d at p. */
  lemma SpliceImage(img: seq<Sector>, img': seq<Sector>, size: nat, p: nat, d: seq<byte>)
    requires p <= size <= SS * |img| && |img'| == |img| && p + |d| <= SS * |img|
    requires forall i: nat :: i < size && !(p <= i < p + |d|) ==> SameByte(img', img, i)
    requires forall k: nat :: k < |d| ==> ByteAt(img', p + k) == d[k]
    ensures Slice(img', 0, if p + |d| > size then p + |d| else size) == Splice(Slice(img, 0, size), p, d)
  {
    hide ByteAt;
    var n := if p + |d| > size then p + |d| else size;
    var a, b := Slice(img', 0, n), Splice(Slice(img, 0, size), p, d);
    forall i | 0 <= i < n ensures a[i] == b[i] {
      SliceAt(img', 0, n, i);
      SpliceAt(Slice(img, 0, size), p, d, i);
      if i < size {
        SliceAt(img, 0, size, i);
        assert !(p <= i < p + |d|) ==> SameByte(img', img, i);
      }
      if p <= i < p + |d| {
        assert ByteAt(img', p + (i - p)) == d[i - p];
      }
    }
  }

  /** Equal images up to the size have equal contents. */
  lemma SliceEqual(img: seq<Sector>, img': seq<Sector>, a: nat, b: nat)
    requires a <= b <= SS * |img| && |img| <= |img'| && img'[..|img|] == img
    ensures Slice(img', a, b) == Slice(img, a, b)
  {
    forall k | 0 <= k < b - a ensures Slice(img', a, b)[k] == Slice(img, a, b)[k] {
      SliceAt(img, a, b, k);
      SliceAt(img', a, b, k);
      var q := (a + k) / SS;
      assert img'[q] == img'[..|img|][q] == img[q];
    }
  }

  // ---- changes of the buffer and the medium

  /** disk_write to a sector of the data area that the window does not hold dirty. */
  lemma DataWrite(g: Geometry, w: Window, w': Window)
    requires Valid(g, w) && w' == w.(disk := w'.disk) && |w'.disk| == |w.disk|
    requires forall s :: 0 <= s < g.database ==> w'.disk[s] == w.disk[s]
    ensures Valid(g, w') && TableOf(g, w') == TableOf(g, w) && (Mirrored(g, w) ==> Mirrored(g, w'))
  {
    hide Table;
    assert Fat(g, w') == Fat(g, w);
  }

  /** Writing back a dirty buffer. */
  lemma FlushKeeps(g: Geometry, w: Window, f: File)
    requires Base(g, w, f) && f.dirty
    ensures f.sect < g.sectors
    ensures var w', f' := w.(disk := w.disk[f.sect := f.buf]), f.(dirty := false);
      Base(g, w', f') && Image(g, w'.disk, f') == Image(g, w.disk, f) && TableOf(g, w') == TableOf(g, w)
  {
    hide Image, TableOf, Valid, Mirrored, ClusterOf, SectorOf;
    var w', f' := w.(disk := w.disk[f.sect := f.buf]), f.(dirty := false);
    DataWrite(g, w, w');
    forall j | 0 <= j < g.csize * |f.chain| ensures DataSector(g, w'.disk, f', j) == DataSector(g, w.disk, f, j) {
      SectorFacts(g, f.chain, j);
    }
    ImageEqual(g, w.disk, f, w'.disk, f');
  }

  /** Filling a clean buffer with a sector of the file. */
  lemma LoadKeeps(g: Geometry, w: Window, f: File, j: nat)
    requires Base(g, w, f) && !f.dirty && j < g.csize * |f.chain|
    ensures SectorOf(g, f.chain, j) < g.sectors
    ensures var s := SectorOf(g, f.chain, j);
      var f' := f.(sect := s, buf := w.disk[s]); Base(g, w, f') && Image(g, w.disk, f') == Image(g, w.disk, f)
  {
    hide Image, TableOf, Valid, ClusterOf;
    SectorFacts(g, f.chain, j);
    var s := SectorOf(g, f.chain, j);
    ImageEqual(g, w.disk, f, w.disk, f.(sect := s, buf := w.disk[s]));
  }

  /** Putting new bytes of file sector j in the buffer, which was clean or held that sector. */
  lemma StoreKeeps(g: Geometry, w: Window, f: File, j: nat, b: Sector)
    requires Base(g, w, f) && j < g.csize * |f.chain| && (!f.dirty || f.sect == SectorOf(g, f.chain, j))
    ensures var f' := f.(sect := SectorOf(g, f.chain, j), buf := b, dirty := true);
      Base(g, w, f') && Image(g, w.disk, f') == Image(g, w.disk, f)[j := b]
  {
    hide Image, TableOf, Valid, ClusterOf, Mirrored, SectorOf;
    SectorFacts(g, f.chain, j);
    var f' := f.(sect := SectorOf(g, f.chain, j), buf := b, dirty := true);
    var a, c := Image(g, w.disk, f), Image(g, w.disk, f');
    forall i | 0 <= i < |a| ensures c[i] == a[j := b][i] {
      ImageAt(g, w.disk, f, i);
      ImageAt(g, w.disk, f', i);
      if i != j && SectorOf(g, f.chain, i) == SectorOf(g, f.chain, j) {
        SectorInjective(g, f.chain, i, j);
      }
    }
  }

  /** Bytes d at offset o of a sector. */
  function Patch(b: Sector, o: nat, d: seq<byte>): Sector
    requires o + |d| <= SS
  {
    b[..o] + d + b[o + |d|..]
  }

  /** Storing d at p through a buffer that shows the sector, or at the growing edge. */
  lemma StoreSplices(img: seq<Sector>, size: nat, p: nat, d: seq<byte>, b: Sector)
    requires p <= size <= SS * |img| && p / SS < |img| && p % SS + |d| <= SS
    requires b == img[p / SS] || (p % SS == 0 && p >= size)
    ensures p + |d| <= SS * |img|
    ensures Slice(img[p / SS := Patch(b, p % SS, d)], 0, if p + |d| > size then p + |d| else size)
         == Splice(Slice(img, 0, size), p, d)
  {
    hide Slice, Splice;
    var j, o := p / SS, p % SS;
    var c := Patch(b, o, d);
    var img' := img[j := c];
    forall i: nat | i < size && !(p <= i < p + |d|) ensures SameByte(img', img, i) {
      if i / SS == j {
        PatchAt(b, o, d, i % SS);
      }
    }
    forall k: nat | k < |d| ensures ByteAt(img', p + k) == d[k] {
      assert (p + k) / SS == j && (p + k) % SS == o + k;
      PatchAt(b, o, d, o + k);
    }
    SpliceImage(img, img', size, p, d);
  }

  lemma PatchAt(b: Sector, o: nat, d: seq<byte>, i: nat)
    requires o + |d| <= SS && i < SS
    ensures Patch(b, o, d)[i] == if o <= i < o + |d| then d[i - o] else b[i]
  {
  }

  // ---- direct transfers of whole sectors

  function Chunk(d: seq<byte>, t: nat): Sector
    requires SS * (t + 1) <= |d|
  {
    d[SS * t..SS * (t + 1)]
  }

  /** disk_write of n sectors. */
  function PutSectors(disk: seq<Sector>, s: nat, d: seq<byte>, n: nat): (r: seq<Sector>)
    requires s + n <= |disk| && SS * n <= |d|
    ensures |r| == |disk|
    ensures forall i :: 0 <= i < |disk| ==> r[i] == if s <= i < s + n then Chunk(d, i - s) else disk[i]
  {
    disk[..s] + seq(n, t requires 0 <= t < n => Chunk(d, t)) + disk[s + n..]
  }

  /** The file after a direct write of n sectors from file sector j on: a buffer that holds
      one of them is refilled. */
  function Refilled(f: File, s: nat, d: seq<byte>, n: nat): File
    requires SS * n <= |d|
  {
    if s <= f.sect < s + n then f.(buf := Chunk(d, f.sect - s)) else f
  }

  lemma DirectKeeps(g: Geometry, w: Window, f: File, j: nat, d: seq<byte>, n: nat)
    requires Base(g, w, f) && !f.dirty && j < g.csize * |f.chain| && 0 < n && j % g.csize + n <= g.csize
        && SS * n <= |d|
    ensures j + n <= g.csize * |f.chain| && SectorOf(g, f.chain, j) + n <= g.sectors
    ensures var s := SectorOf(g, f.chain, j);
      var w', f' := w.(disk := PutSectors(w.disk, s, d, n)), Refilled(f, s, d, n);
      && Base(g, w', f') && Image(g, w'.disk, f') == PutSectors(Image(g, w.disk, f), j, d, n)
      && TableOf(g, w') == TableOf(g, w)
  {
    hide Image, TableOf, Valid, Mirrored, SectorOf, PutSectors, Chunk, ClusterOf, OfFile;
    SectorRun(g, f.chain, j, n - 1);
    SectorFacts(g, f.chain, j);
    SectorFacts(g, f.chain, j + n - 1);
    var s := SectorOf(g, f.chain, j);
    var w', f' := w.(disk := PutSectors(w.disk, s, d, n)), Refilled(f, s, d, n);
    DataWrite(g, w, w');
    var a, b := Image(g, w.disk, f), Image(g, w'.disk, f');
    forall i | 0 <= i < |a| ensures b[i] == PutSectors(a, j, d, n)[i] {
      DirectSector(g, w, f, j, n, i);
      ImageAt(g, w.disk, f, i);
      ImageAt(g, w'.disk, f', i);
    }
  }

  /** Which sectors of the file a run of n sectors covers. */
  lemma DirectSector(g: Geometry, w: Window, f: File, j: nat, n: nat, i: nat)
    requires Base(g, w, f) && j < g.csize * |f.chain| && 0 < n && j % g.csize + n <= g.csize && i < g.csize * |f.chain|
    ensures SectorOf(g, f.chain, i) < g.sectors
    ensures j <= i < j + n ==> SectorOf(g, f.chain, i) == SectorOf(g, f.chain, j) + (i - j)
    ensures SectorOf(g, f.chain, j) <= SectorOf(g, f.chain, i) < SectorOf(g, f.chain, j) + n ==> j <= i < j + n
  {
    hide SectorOf, Base, OfFile;
    SectorFacts(g, f.chain, i);
    var t := SectorOf(g, f.chain, i) - SectorOf(g, f.chain, j);
    if j <= i < j + n {
      SectorRun(g, f.chain, j, i - j);
    } else if 0 <= t < n {
      SectorRun(g, f.chain, j, t);
      SectorInjective(g, f.chain, i, j + t);
    }
  }

  lemma DirectSplices(img: seq<Sector>, size: nat, j: nat, d: seq<byte>, n: nat)
    requires SS * j <= size <= SS * |img| && j + n <= |img| && SS * n <= |d|
    ensures Slice(PutSectors(img, j, d, n), 0, if SS * (j + n) > size then SS * (j + n) else size)
         == Splice(Slice(img, 0, size), SS * j, d[..SS * n])
  {
    hide Slice, Splice;
    var img', e := PutSectors(img, j, d, n), d[..SS * n];
    forall i: nat | i < size && !(SS * j <= i < SS * j + |e|) ensures SameByte(img', img, i) {
    }
    forall k: nat | k < |e| ensures ByteAt(img', SS * j + k) == e[k] {
      assert (SS * j + k) / SS == j + k / SS && (SS * j + k) % SS == k % SS;
    }
    SpliceImage(img, img', size, SS * j, e);
  }

  // ---- growing and cutting the chain

  /** The file after create_chain gave it a cluster. */
  function Grown(f: File, ncl: nat): File {
    f.(chain := f.chain + [ncl], sclust := if f.sclust == 0 then ncl else f.sclust)
  }

  function LastCluster(f: File): nat {
    if f.chain == [] then 0 else f.chain[|f.chain| - 1]
  }

  lemma GrownSector(g: Geometry, ch: seq<nat>, ncl: nat, j: nat)
    requires g.csize > 0 && Clusters(g, ch) && 2 <= ncl < g.nFatent && j < g.csize * |ch|
    ensures j < g.csize * |ch + [ncl]| && SectorOf(g, ch + [ncl], j) == SectorOf(g, ch, j)
  {
    DivBound(j, g.csize, |ch|);
    TimesMonotone(g.csize, |ch|, |ch| + 1);
  }

  lemma GrownOfFile(g: Geometry, ch: seq<nat>, ncl: nat, s: nat)
    requires g.csize > 0 && OfFile(g, ch, s)
    ensures OfFile(g, ch + [ncl], s)
  {
    var k :| 0 <= k < |ch| && ch[k] == ClusterOf(g, s);
    assert (ch + [ncl])[k] == ClusterOf(g, s);
  }

  lemma GrownLinked(g: Geometry, w: Window, w': Window, f: File, ncl: nat, eoc: nat)
    requires Valid(g, w) && Valid(g, w') && Linked(g, w, f) && Cluster(TableOf(g, w), ncl) && TableOf(g, w)[ncl] == 0
    requires LastCluster(f) < g.nFatent && TableOf(g, w') == Stretched(TableOf(g, w), LastCluster(f), ncl, eoc)
        && eoc >= g.nFatent
    ensures Linked(g, w', Grown(f, ncl)) && Distinct(f.chain + [ncl])
  {
    hide TableOf, Valid;
    if f.chain != [] {
      StretchChain(TableOf(g, w), f.chain, ncl, eoc);
      assert IsChain(TableOf(g, w'), f.chain + [ncl]);
    } else {
      assert f.chain + [ncl] == [ncl];
    }
  }

  /** A cluster appended to the chain: nothing the file holds changes. */
  lemma GrownKeeps(g: Geometry, w: Window, w': Window, f: File, ncl: nat, eoc: nat)
    requires Base(g, w, f) && Keeps(g, w, w') && w'.winsect < g.database
    requires Cluster(TableOf(g, w), ncl) && TableOf(g, w)[ncl] == 0 && eoc >= g.nFatent
    requires LastCluster(f) < g.nFatent && TableOf(g, w') == Stretched(TableOf(g, w), LastCluster(f), ncl, eoc)
    ensures Base(g, w', Grown(f, ncl)) && |Image(g, w'.disk, Grown(f, ncl))| >= |Image(g, w.disk, f)|
    ensures Image(g, w'.disk, Grown(f, ncl))[..|Image(g, w.disk, f)|] == Image(g, w.disk, f)
  {
    hide Image, TableOf, Valid, Mirrored, SameOutside, Logical, Linked, IsChain, ClusterOf;
    var f' := Grown(f, ncl);
    GrownLinked(g, w, w', f, ncl, eoc);
    TimesMonotone(g.csize, |f.chain|, |f'.chain|);
    if f.dirty {
      GrownOfFile(g, f.chain, ncl, f.sect);
    } else if f.sect != 0 {
      DataKept(g, w, w', f.sect);
    }
    var a, b := Image(g, w.disk, f), Image(g, w'.disk, f');
    forall j | 0 <= j < |a| ensures b[j] == a[j] {
      SectorFacts(g, f.chain, j);
      GrownSector(g, f.chain, ncl, j);
      DataKept(g, w, w', SectorOf(g, f.chain, j));
      ImageAt(g, w.disk, f, j);
      ImageAt(g, w'.disk, f', j);
    }
  }

  /** The file after f_truncate kept k clusters and wrote the buffer back. */
  function Shortened(f: File, k: nat): File
    requires k <= |f.chain|
  {
    f.(chain := f.chain[..k], sclust := if k == 0 then 0 else f.sclust, objsize := f.fptr, dirty := false)
  }

  function FlushedDisk(disk: seq<Sector>, f: File): (r: seq<Sector>)
    requires f.dirty ==> f.sect < |disk|
    ensures |r| == |disk|
  {
    if f.dirty then disk[f.sect := f.buf] else disk
  }

  lemma CutSector(g: Geometry, ch: seq<nat>, k: nat, j: nat)
    requires g.csize > 0 && Clusters(g, ch) && k <= |ch| && j < g.csize * k
    ensures j < g.csize * |ch[..k]| && j < g.csize * |ch| && SectorOf(g, ch[..k], j) == SectorOf(g, ch, j)
  {
    DivBound(j, g.csize, k);
    TimesMonotone(g.csize, k, |ch|);
  }

  lemma CutOfFile(g: Geometry, ch: seq<nat>, k: nat, s: nat)
    requires g.csize > 0 && k <= |ch| && OfFile(g, ch[..k], s)
    ensures OfFile(g, ch, s)
  {
    var i :| 0 <= i < |ch[..k]| && ch[..k][i] == ClusterOf(g, s);
    assert ch[i] == ClusterOf(g, s);
  }

  /** Giving up the end of the chain: what remains keeps its data. */
  lemma ShortenedKeeps(g: Geometry, w: Window, w1: Window, f: File, k: nat)
    requires Base(g, w, f) && Keeps(g, w, w1) && k <= |f.chain| && f.fptr <= SS * (g.csize * k)
    requires Linked(g, w1, Shortened(f, k))
    ensures f.dirty ==> f.sect < g.sectors
    ensures var w2, f2 := w1.(disk := FlushedDisk(w1.disk, f)), Shortened(f, k);
      && Base(g, w2, f2) && |Image(g, w2.disk, f2)| <= |Image(g, w.disk, f)|
      && Image(g, w2.disk, f2) == Image(g, w.disk, f)[..g.csize * k]
      && TableOf(g, w2) == TableOf(g, w1)
  {
    hide Image, TableOf, Valid, Mirrored, SameOutside, Logical, IsChain, ClusterOf;
    var w2, f2 := w1.(disk := FlushedDisk(w1.disk, f)), Shortened(f, k);
    TimesMonotone(g.csize, k, |f.chain|);
    DataWrite(g, w1, w2);
    forall s: nat | OfFile(g, f.chain[..k], s) ensures OfFile(g, f.chain, s) {
      CutOfFile(g, f.chain, k, s);
    }
    if f.sect != 0 && !f.dirty {
      DataKept(g, w, w1, f.sect);
    }
    var a, b := Image(g, w.disk, f), Image(g, w2.disk, f2);
    forall j | 0 <= j < |b| ensures b[j] == a[..g.csize * k][j] {
      CutSector(g, f.chain, k, j);
      SectorFacts(g, f.chain, j);
      DataKept(g, w, w1, SectorOf(g, f.chain, j));
      ImageAt(g, w.disk, f, j);
      ImageAt(g, w2.disk, f2, j);
    }
  }

  // ---- the cursor

  /** The cursor names the cluster of the byte it is at. */
  predicate Located(g: Geometry, f: File)
    requires g.csize > 0
  {
    ClusterIndex(g, f.fptr) < |f.chain| && f.clust == f.chain[ClusterIndex(g, f.fptr)]
  }

  lemma IndexBound(g: Geometry, p: nat, n: nat)
    requires g.csize > 0
    ensures p < SS * (g.csize * n) <==> ClusterIndex(g, p) < n
    ensures p / SS < g.csize * n <==> ClusterIndex(g, p) < n
  {
    var j := p / SS;
    if j < g.csize * n {
      DivBound(j, g.csize, n);
    } else {
      DivLower(j, g.csize, n);
    }
  }

  /** From one byte to the next the cluster changes exactly at a cluster boundary. */
  lemma NextIndex(g: Geometry, p: nat)
    requires g.csize > 0 && p > 0
    ensures ClusterIndex(g, p) == ClusterIndex(g, p - 1) + if p % SS == 0 && (p / SS) % g.csize == 0 then 1 else 0
  {
    var j := p / SS;
    if p % SS == 0 {
      assert (p - 1) / SS == j - 1;
      DivMod(j, g.csize);
      var q := j / g.csize;
      if j % g.csize == 0 {
        assert g.csize * (q - 1) == g.csize * q - g.csize;
        ModUnique(j - 1, g.csize, q - 1, g.csize - 1);
      } else {
        ModUnique(j - 1, g.csize, q, j % g.csize - 1);
      }
    } else {
      assert (p - 1) / SS == j;
    }
  }

  /** A transfer within a sector, or of whole sectors within a cluster. */
  predicate Within(g: Geometry, p: nat, n: nat)
    requires g.csize > 0
  {
    0 < n && (p % SS + n <= SS || (p % SS == 0 && n % SS == 0 && (p / SS) % g.csize + n / SS <= g.csize))
  }

  lemma WithinIndex(g: Geometry, p: nat, n: nat)
    requires g.csize > 0 && Within(g, p, n)
    ensures ClusterIndex(g, p + n - 1) == ClusterIndex(g, p)
    ensures (p + n) % SS != 0 ==> (p + n) / SS == p / SS
  {
    var j, k := p / SS, (p + n - 1) / SS;
    if p % SS + n <= SS {
      assert k == j;
    } else {
      assert k == j + n / SS - 1;
      DivMod(j, g.csize);
      ModUnique(k, g.csize, j / g.csize, j % g.csize + (n / SS - 1));
    }
  }

  /** The file after the cursor moved over n transferred bytes. */
  function Advanced(f: File, n: nat): File {
    f.(fptr := f.fptr + n, objsize := if f.fptr + n > f.objsize then f.fptr + n else f.objsize)
  }

  lemma AdvancedKeeps(g: Geometry, w: Window, f: File, n: nat)
    requires Base(g, w, f) && Located(g, f) && 0 < n && Within(g, f.fptr, n) && f.fptr <= f.objsize && f.fptr + n < WORD
    requires (f.fptr + n) % SS != 0 ==> f.fptr / SS < g.csize * |f.chain| && f.sect == SectorOf(g, f.chain, f.fptr / SS)
    ensures Base(g, w, Advanced(f, n)) && Cursor(g, Advanced(f, n))
    ensures Image(g, w.disk, Advanced(f, n)) == Image(g, w.disk, f)
  {
    hide Image, TableOf, Valid, Mirrored, ClusterIndex, Within, Cached, Foreign, Linked, SectorOf;
    WithinIndex(g, f.fptr, n);
    IndexBound(g, f.fptr + n - 1, |f.chain|);
    var f' := Advanced(f, n);
    SameSectorMap(g, w, f, f');
    ImageEqual(g, w.disk, f, w.disk, f');
  }

  lemma SameSectorMap(g: Geometry, w: Window, f: File, f': File)
    requires Base(g, w, f) && f'.chain == f.chain && f'.dirty == f.dirty && f'.sect == f.sect && f'.buf == f.buf
        && f'.sclust == f.sclust
    ensures Linked(g, w, f') && Cached(g, w.disk, f') && Foreign(g, w, f')
    ensures forall j :: 0 <= j < g.csize * |f.chain| ==> DataSector(g, w.disk, f', j) == DataSector(g, w.disk, f, j)
  {
    hide TableOf, Valid, OfFile;
  }

  // ---- other files

  /** Every chain that does not meet the file's is still a chain, and still apart from it. */
  ghost predicate ChainsKept(g: Geometry, w0: Window, ch0: seq<nat>, w: Window, ch: seq<nat>)
    requires Valid(g, w0) && Valid(g, w)
  {
    forall other: seq<nat> :: IsChain(TableOf(g, w0), other) && Disjoint(ch0, other) ==>
        IsChain(TableOf(g, w), other) && Disjoint(ch, other)
  }

  /** No sector of the data area outside the file changed. */
  ghost predicate SectorsKept(g: Geometry, w0: Window, ch0: seq<nat>, w: Window, ch: seq<nat>)
    requires Valid(g, w0) && Valid(g, w) && g.csize > 0
  {
    forall s: nat :: g.database <= s < g.sectors && !OfFile(g, ch0, s) && !OfFile(g, ch, s) ==>
        Logical(g, w)[s] == Logical(g, w0)[s]
  }

  /** An operation on a file whose chain was ch0 and is ch touches no other file. */
  ghost predicate Apart(g: Geometry, w0: Window, ch0: seq<nat>, w: Window, ch: seq<nat>) {
    && Valid(g, w0) && Valid(g, w) && g.csize > 0 && (Mirrored(g, w0) ==> Mirrored(g, w))
    && ChainsKept(g, w0, ch0, w, ch) && SectorsKept(g, w0, ch0, w, ch)
  }

  lemma ApartSelf(g: Geometry, w: Window, ch: seq<nat>)
    requires Valid(g, w) && g.csize > 0
    ensures Apart(g, w, ch, w, ch)
  {
    hide Valid, TableOf, Logical, Mirrored, IsChain, Disjoint, OfFile;
  }

  lemma PrefixOfFile(g: Geometry, ch: seq<nat>, ch': seq<nat>, s: nat)
    requires g.csize > 0 && ch <= ch' && OfFile(g, ch, s)
    ensures OfFile(g, ch', s)
  {
    var k :| 0 <= k < |ch| && ch[k] == ClusterOf(g, s);
    assert ch'[k] == ClusterOf(g, s);
  }

  lemma ApartTrans(g: Geometry, w0: Window, ch0: seq<nat>, w1: Window, ch1: seq<nat>, w2: Window, ch2: seq<nat>)
    requires Apart(g, w0, ch0, w1, ch1) && Apart(g, w1, ch1, w2, ch2) && ch1 <= ch2
    ensures Apart(g, w0, ch0, w2, ch2)
  {
    hide Valid, TableOf, Logical, Mirrored, IsChain, Disjoint, OfFile;
    forall s: nat | g.database <= s < g.sectors && !OfFile(g, ch0, s) && !OfFile(g, ch2, s)
      ensures Logical(g, w2)[s] == Logical(g, w0)[s]
    {
      if OfFile(g, ch1, s) {
        PrefixOfFile(g, ch1, ch2, s);
      }
    }
  }

  lemma ApartAccess(g: Geometry, w: Window, w': Window, ch: seq<nat>)
    requires Valid(g, w) && Keeps(g, w, w') && TableOf(g, w') == TableOf(g, w) && g.csize > 0
    ensures Apart(g, w, ch, w', ch)
  {
    hide Valid, TableOf, Logical, Mirrored, IsChain, Disjoint, OfFile;
    LayoutOf(g, w);
  }

  lemma LayoutOf(g: Geometry, w: Window)
    requires Valid(g, w)
    ensures g.Layout()
  {
  }

  /** Writing sectors of the file past the window. */
  lemma ApartWrite(g: Geometry, w: Window, w': Window, ch: seq<nat>)
    requires Valid(g, w) && w' == w.(disk := w'.disk) && |w'.disk| == |w.disk| && g.csize > 0
    requires forall s: nat :: s < g.sectors && !OfFile(g, ch, s) ==> w'.disk[s] == w.disk[s]
    ensures Apart(g, w, ch, w', ch)
  {
    hide TableOf, Mirrored, IsChain, Disjoint, ClusterOf;
    forall s | 0 <= s < g.database ensures w'.disk[s] == w.disk[s] {
      assert !OfFile(g, ch, s);
    }
    DataWrite(g, w, w');
  }

  lemma ApartGrown(g: Geometry, w: Window, w': Window, f: File, ncl: nat, eoc: nat)
    requires Valid(g, w) && Keeps(g, w, w') && Linked(g, w, f) && g.csize > 0
    requires Cluster(TableOf(g, w), ncl) && TableOf(g, w)[ncl] == 0
    requires LastCluster(f) < g.nFatent && TableOf(g, w') == Stretched(TableOf(g, w), LastCluster(f), ncl, eoc)
    ensures Apart(g, w, f.chain, w', f.chain + [ncl])
  {
    hide Valid, TableOf, Logical, Mirrored, IsChain, Disjoint, OfFile;
    LayoutOf(g, w);
    forall other: seq<nat> | IsChain(TableOf(g, w), other) && Disjoint(f.chain, other)
      ensures IsChain(TableOf(g, w'), other) && Disjoint(f.chain + [ncl], other)
    {
      if f.chain == [] {
        NewOther(TableOf(g, w), other, ncl, eoc);
        assert f.chain + [ncl] == [ncl];
      } else {
        StretchOther(TableOf(g, w), f.chain, other, ncl, eoc);
      }
    }
    forall s: nat | g.database <= s < g.sectors ensures Logical(g, w')[s] == Logical(g, w)[s] {
    }
  }

  lemma ApartCut(g: Geometry, w: Window, w1: Window, w2: Window, f: File, k: nat, eoc: nat)
    requires Base(g, w, f) && Keeps(g, w, w1) && IsChain(TableOf(g, w), f.chain) && k <= |f.chain|
    requires k > 0 ==> f.chain[k - 1] < g.nFatent
    requires TableOf(g, w1) == if k < |f.chain| then Severed(TableOf(g, w), f.chain, k, eoc) else TableOf(g, w)
    requires (f.dirty ==> f.sect < g.sectors) && w2 == w1.(disk := FlushedDisk(w1.disk, f))
    ensures Apart(g, w, f.chain, w2, f.chain[..k])
  {
    hide TableOf, Mirrored, IsChain, ClusterOf, Severed, Linked, Capacity, Foreign, Logical, Valid;
    LayoutOf(g, w);
    ApartWrite(g, w1, w2, f.chain);
    forall other: seq<nat> | IsChain(TableOf(g, w), other) && Disjoint(f.chain, other)
      ensures IsChain(TableOf(g, w2), other) && Disjoint(f.chain[..k], other)
    {
      if k < |f.chain| {
        CutOther(TableOf(g, w), f.chain, other, k, eoc);
      }
      DataWrite(g, w1, w2);
    }
    forall s: nat | g.database <= s < g.sectors && !OfFile(g, f.chain, s)
        ensures Logical(g, w2)[s] == Logical(g, w)[s] {
    }
  }

  // ---- what steps of the file operations keep

  /** Nothing but cursor, buffer and window changed. */
  ghost predicate SameFile(g: Geometry, w: Window, f: File, w': Window, f': File) {
    && Base(g, w, f) && Base(g, w', f') && Image(g, w'.disk, f') == Image(g, w.disk, f)
    && TableOf(g, w') == TableOf(g, w) && f'.chain == f.chain && f'.sclust == f.sclust && f'.objsize == f.objsize
    && Apart(g, w, f.chain, w', f'.chain)
  }

  lemma SameSelf(g: Geometry, w: Window, f: File)
    requires Base(g, w, f)
    ensures SameFile(g, w, f, w, f)
  {
    hide Image, TableOf, Apart;
    ApartSelf(g, w, f.chain);
  }

  lemma SameTrans(g: Geometry, w0: Window, f0: File, w1: Window, f1: File, w2: Window, f2: File)
    requires SameFile(g, w0, f0, w1, f1) && SameFile(g, w1, f1, w2, f2)
    ensures SameFile(g, w0, f0, w2, f2)
  {
    hide Base, Image, TableOf, Apart;
    ApartTrans(g, w0, f0.chain, w1, f1.chain, w2, f2.chain);
  }

  lemma AccessSame(g: Geometry, w: Window, w': Window, f: File)
    requires Base(g, w, f) && Keeps(g, w, w') && TableOf(g, w') == TableOf(g, w)
    ensures SameFile(g, w, f, w', f)
  {
    hide Base, Image, TableOf, Keeps, Apart;
    AccessKeeps(g, w, w', f);
    ApartAccess(g, w, w', f.chain);
  }

  /** A field the data does not depend on. */
  lemma ClustSame(g: Geometry, w: Window, f: File, clst: nat)
    requires Base(g, w, f)
    ensures SameFile(g, w, f, w, f.(clust := clst))
  {
    hide Image, TableOf, Valid, OfFile, Apart;
    ApartSelf(g, w, f.chain);
    SameSectorMap(g, w, f, f.(clust := clst));
    ImageEqual(g, w.disk, f, w.disk, f.(clust := clst));
  }

  lemma ChainNext(table: seq<nat>, ch: seq<nat>, i: nat)
    requires IsChain(table, ch) && i < |ch|
    ensures Cluster(table, ch[i]) && if i + 1 < |ch| then table[ch[i]] == ch[i + 1] else table[ch[i]] >= |table|
  {
  }

  /** The low bits of a sector number are the sector within the cluster. */
  lemma SectorMask(g: Geometry, x: nat)
    requires g.Ok()
    ensures And(x, g.csize - 1) == x % g.csize
  {
    hide And;
    var k := Log(g.csize);
    AndLow(x, k);
  }

  function Log(m: nat): (k: nat)
    requires m in {1, 2, 4, 8, 16, 32, 64, 128}
    ensures Pow2(k) == m && k <= 7
  {
    if m == 1 then 0 else 1 + Log(m / 2)
  }

  /** At the start of a sector that has data, either the cursor already names its cluster,
      or the sector is the first of the next one. */
  lemma ReadPlace(g: Geometry, w: Window, f: File)
    requires Base(g, w, f) && Cursor(g, f) && f.fptr < f.objsize
    ensures ClusterIndex(g, f.fptr) < |f.chain| && f.fptr / SS < g.csize * |f.chain|
    ensures f.fptr == 0 ==> f.sclust == f.chain[ClusterIndex(g, f.fptr)]
    ensures f.fptr > 0 && f.fptr % SS == 0 && (f.fptr / SS) % g.csize == 0 ==>
              Cluster(TableOf(g, w), f.clust) && TableOf(g, w)[f.clust] == f.chain[ClusterIndex(g, f.fptr)]
    ensures f.fptr > 0 && !(f.fptr % SS == 0 && (f.fptr / SS) % g.csize == 0) ==> Located(g, f)
  {
    hide TableOf, Valid, OfFile, IsChain, ClusterIndex;
    IndexBound(g, f.fptr, |f.chain|);
    if f.fptr > 0 {
      NextIndex(g, f.fptr);
      ChainNext(TableOf(g, w), f.chain, ClusterIndex(g, f.fptr - 1));
    } else {
      IndexZero(g);
    }
  }

  lemma IndexZero(g: Geometry)
    requires g.csize > 0
    ensures ClusterIndex(g, 0) == 0
  {
    ModUnique(0, g.csize, 0, 0);
  }

  lemma SectorTop(g: Geometry, f: File)
    requires g.Ok() && Clusters(g, f.chain) && Located(g, f)
    ensures 2 <= f.clust < g.nFatent && f.fptr / SS < g.csize * |f.chain|
    ensures Top(g, f.clust) + (f.fptr / SS) % g.csize == SectorOf(g, f.chain, f.fptr / SS)
  {
    IndexBound(g, f.fptr, |f.chain|);
  }

  // ---- seeking

  /** The cursor is at the start of element q of the chain, which is cluster c. */
  predicate AtCluster(g: Geometry, f: File, c: nat, q: nat) {
    q < |f.chain| && c == f.chain[q] && f.clust == c && f.fptr == SS * (g.csize * q)
  }

  /** Cluster numbers by dividing by the size of a cluster in bytes. */
  lemma BytesIndex(g: Geometry, p: nat)
    requires g.csize > 0
    ensures p / (g.csize * SS) == ClusterIndex(g, p)
    ensures SS * (g.csize * ClusterIndex(g, p)) <= p < SS * (g.csize * ClusterIndex(g, p)) + g.csize * SS
  {
    DivTwice(p, SS, g.csize);
    DivMod(p / SS, g.csize);
  }

  /** Clearing the low bits rounds down to the start of the cluster. */
  lemma ClusterMask(g: Geometry, x: nat)
    requires g.Ok() && x < WORD
    ensures And(x, WORD - 1 - (g.csize * SS - 1)) == SS * (g.csize * ClusterIndex(g, x))
  {
    hide And;
    var k := Log(g.csize);
    PowerSplit(k);
    MaskHigh(x, k + 9, g.csize * SS);
    BytesIndex(g, x);
    MoveFactor(g.csize, ClusterIndex(g, x));
  }

  lemma MoveFactor(m: nat, q: nat)
    ensures q * (m * SS) == SS * (m * q)
  {
  }

  lemma PowerSplit(k: nat)
    requires k <= 7
    ensures Pow2(k + 9) == Pow2(k) * SS && Pow2(32) == WORD
  {
    hide Pow2;
    PowerSmall();
    Pow2Add(k, 9);
    Pow2Add(9, 9);
    Pow2Add(18, 9);
    Pow2Add(27, 5);
  }

  lemma PowerSmall()
    ensures Pow2(9) == SS && Pow2(5) == 32
  {
    assert Pow2(5) == 32;
    Pow2Add(5, 4);
    assert Pow2(4) == 16;
  }

  /** Where a byte lies that is rest bytes after the start of element q. */
  lemma RestPlace(g: Geometry, q: nat, rest: nat)
    requires g.csize > 0 && 0 < rest <= g.csize * SS
    ensures ClusterIndex(g, SS * (g.csize * q) + rest - 1) == q
    ensures rest % SS != 0 ==>
              var j := (SS * (g.csize * q) + rest) / SS; j / g.csize == q && j % g.csize == rest / SS < g.csize
    ensures (SS * (g.csize * q) + rest) % SS == rest % SS
  {
    var a := g.csize * q;
    assert (SS * a + rest - 1) / SS == a + (rest - 1) / SS;
    ModUnique(a + (rest - 1) / SS, g.csize, q, (rest - 1) / SS);
    if rest % SS != 0 {
      assert (SS * a + rest) / SS == a + rest / SS;
      ModUnique(a + rest / SS, g.csize, q, rest / SS);
    }
  }

  lemma SeekSame(g: Geometry, w: Window, f: File, p: nat, c: nat)
    requires Base(g, w, f) && p < WORD
    ensures SameFile(g, w, f, w, f.(fptr := p, clust := c))
  {
    hide Image, TableOf, Valid, OfFile, Apart;
    ApartSelf(g, w, f.chain);
    SameSectorMap(g, w, f, f.(fptr := p, clust := c));
    ImageEqual(g, w.disk, f, w.disk, f.(fptr := p, clust := c));
  }

  /** The file after its size was raised to the cursor. */
  function Lengthened(f: File): File {
    f.(objsize := if f.fptr > f.objsize then f.fptr else f.objsize)
  }

  lemma LengthenedKeeps(g: Geometry, w: Window, f: File)
    requires Base(g, w, f) && f.fptr <= SS * (g.csize * |f.chain|)
    ensures Base(g, w, Lengthened(f)) && Image(g, w.disk, Lengthened(f)) == Image(g, w.disk, f)
    ensures Contents(g, w, f) <= Contents(g, w, Lengthened(f))
  {
    hide TableOf, Valid, OfFile, Slice, Image;
    SameSectorMap(g, w, f, Lengthened(f));
    ImageEqual(g, w.disk, f, w.disk, Lengthened(f));
    SlicePrefix(Image(g, w.disk, f), f.objsize, Lengthened(f).objsize);
  }

  lemma SlicePrefix(img: seq<Sector>, a: nat, b: nat)
    requires a <= b <= SS * |img|
    ensures Slice(img, 0, a) <= Slice(img, 0, b)
  {
    hide ByteAt;
  }
}
