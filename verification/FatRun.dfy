/** Whole runs of file operations: an open file behaves like a sequence of bytes with a
    cursor, and the other files of the volume are not touched. */
module FatRun {
  import opened Arith
  import opened Bytes
  import opened FatTable
  import opened FatWindow
  import opened FatChain
  import opened FatAlloc
  import opened FatData
  import opened FatVolume
  import opened FatFile

  datatype Op = Read(n: nat) | Write(data: seq<byte>) | Seek(ofs: nat) | Truncate

  datatype Reply = Reply(res: FatVolume.Result, data: seq<byte>, count: nat)

  /** The abstract file: its bytes and cursor, an error that sticks, whether the volume is out
      of free clusters or has a bad table entry, and the clusters the file holds and those
      that are free. */
  datatype Stream = Stream(bytes: seq<byte>, pos: nat, err: FatVolume.Result, full: bool, bad: bool, held: nat,
                           free: nat)

  /** The clusters of unit bytes that n bytes need. */
  function Clusters(unit: nat, n: nat): nat {
    if unit == 0 then 0 else (n + unit - 1) / unit
  }

  lemma ClustersNeeded(g: Geometry, n: nat)
    requires g.csize > 0
    ensures Clusters(g.csize * SS, n) == Needed(g, n)
  {
    if n > 0 {
      RoundedUp(n, g.csize * SS);
    } else {
      RoundedNone(g.csize * SS);
    }
  }

  lemma RoundedUp(n: nat, unit: nat)
    requires n > 0 && unit > 0
    ensures (n + unit - 1) / unit == (n - 1) / unit + 1
  {
    DivMod(n - 1, unit);
    TimesSucc(unit, (n - 1) / unit);
    ModUnique(n + unit - 1, unit, (n - 1) / unit + 1, (n - 1) % unit);
  }

  lemma RoundedNone(unit: nat)
    requires unit > 0
    ensures (unit - 1) / unit == 0
  {
    ModUnique(unit - 1, unit, 0, unit - 1);
  }

  predicate Holds(unit: nat, s: Stream, s': Stream, n: nat) {
    s'.held == if s.held < Clusters(unit, n) then Clusters(unit, n) else s.held
  }

  /** Sizes and offsets are 32-bit numbers. */
  predicate Feasible(op: Op) {
    match op case Read(n) => n < WORD case Write(d) => |d| < WORD case Seek(o) => o < WORD case Truncate => true
  }

  predicate Reads(s: Stream, n: nat, r: Reply, s': Stream) {
    var k := if n > |s.bytes| - s.pos then |s.bytes| - s.pos else n;
    && 0 <= k && s.pos + k <= |s.bytes| && r == Reply(Success, s.bytes[s.pos..s.pos + k], k)
    && s'.bytes == s.bytes && s'.pos == s.pos + k && s'.err == Success && s'.held == s.held
  }

  /** A write stops early only at the end of the file, and then on a full volume or a bad
      entry. */
  predicate Writes(unit: nat, s: Stream, d: seq<byte>, r: Reply, s': Stream) {
    && r.count <= WriteCount(s.pos, |d|) && r.count <= |d| && r.data == [] && s.pos <= |s.bytes|
    && s'.bytes == Splice(s.bytes, s.pos, d[..r.count]) && s'.pos == s.pos + r.count && s'.err == r.res
    && (r.count < WriteCount(s.pos, |d|) ==> s'.pos == |s'.bytes| == unit * s'.held && if r.res == Success then s'.full
        else r.res == IntErr && s'.bad)
    && (r.count == WriteCount(s.pos, |d|) ==> r.res == Success) && Holds(unit, s, s', |s'.bytes|)
  }

  /** A seek past the end lengthens a writable file by bytes that are not specified. It
      stops early only behind the old end of the file. */
  predicate Seeks(unit: nat, s: Stream, ofs: nat, r: Reply, s': Stream, canWrite: bool) {
    && r.data == [] && r.count == 0 && s'.err == r.res && Holds(unit, s, s', if s'.pos > |s'.bytes| then s'.pos
        else |s'.bytes|)
    && if r.res == Success then
         && s.bytes <= s'.bytes && |s'.bytes| == (if s'.pos > |s.bytes| then s'.pos else |s.bytes|)
         && (s'.pos == SeekTarget(ofs, |s.bytes|, canWrite) || (|s.bytes| <= s'.pos < ofs && s'.pos == unit * s'.held
             && canWrite && s'.full))
       else r.res == IntErr && s'.bad && canWrite && s'.bytes == s.bytes && |s.bytes| <= s'.pos < ofs
             && s'.pos == unit * s'.held
  }

  predicate Truncates(unit: nat, s: Stream, r: Reply, s': Stream) {
    r == Reply(Success, [], 0) && s.pos <= |s.bytes| && s'.bytes == s.bytes[..s.pos] && s'.pos == s.pos
        && s'.err == Success && s'.held == if s.pos < |s.bytes| then Clusters(unit, s.pos) else s.held
  }

  predicate Refuses(s: Stream, r: Reply, s': Stream, err: FatVolume.Result) {
    r == Reply(err, [], 0) && s'.bytes == s.bytes && s'.pos == s.pos && s'.err == s.err && s'.held == s.held
  }

  /** One operation on the abstract file. No cluster is lost. */
  predicate Step(unit: nat, canRead: bool, canWrite: bool, s: Stream, op: Op, r: Reply, s': Stream) {
    && s'.held + s'.free == s.held + s.free
    && if s.err != Success then Refuses(s, r, s', s.err)
       else
         match op
         case Read(n) => if canRead then Reads(s, n, r, s') else Refuses(s, r, s', Denied)
         case Write(d) => if canWrite then Writes(unit, s, d, r, s') else Refuses(s, r, s', Denied)
         case Seek(ofs) => Seeks(unit, s, ofs, r, s', canWrite)
         case Truncate => if canWrite then Truncates(unit, s, r, s') else Refuses(s, r, s', Denied)
  }

  // ---- what the steps mean for a caller

  /** A file has the clusters for its bytes, and a full volume has none left. */
  predicate Sound(unit: nat, s: Stream) {
    unit > 0 && Clusters(unit, |s.bytes|) <= s.held && (s.full <==> s.free == 0)
  }

  /** Whatever the state of the volume, a write inside the file replaces just those bytes. */
  lemma InsideWrite(unit: nat, s: Stream, d: seq<byte>, r: Reply, s': Stream)
    requires Writes(unit, s, d, r, s') && s.pos + |d| <= |s.bytes| < WORD
    ensures r == Reply(Success, [], |d|) && s'.pos == s.pos + |d| && s'.err == Success
    ensures |s'.bytes| == |s.bytes| && s'.bytes == s.bytes[..s.pos] + d + s.bytes[s.pos + |d|..]
    ensures Clusters(unit, |s.bytes|) <= s.held ==> s'.held == s.held
  {
    assert d[..|d|] == d;
  }

  /** And a seek inside it goes where it was asked to, and changes nothing. */
  lemma InsideSeek(unit: nat, s: Stream, ofs: nat, r: Reply, s': Stream, canWrite: bool)
    requires Seeks(unit, s, ofs, r, s', canWrite) && ofs <= |s.bytes|
    ensures r == Reply(Success, [], 0) && s'.bytes == s.bytes && s'.pos == ofs && s'.err == Success
    ensures Clusters(unit, |s.bytes|) <= s.held ==> s'.held == s.held
  {
    assert |s'.bytes| == |s.bytes|;
    assert s'.bytes == s.bytes;
  }

  lemma Covered(unit: nat, n: nat, k: nat)
    requires unit > 0
    ensures Clusters(unit, n) <= k <==> n <= unit * k
  {
    var c := Clusters(unit, n);
    DivMod(n + unit - 1, unit);
    if c <= k {
      TimesMonotone(unit, c, k);
    } else {
      TimesMonotone(unit, k + 1, c);
      TimesSucc(unit, k);
    }
  }

  /** A write takes all its bytes, or as many as the clusters of the file and the free ones
      have room for; the 4 GiB limit apart. */
  lemma WriteFits(unit: nat, s: Stream, d: seq<byte>, r: Reply, s': Stream)
    requires Writes(unit, s, d, r, s') && s'.held + s'.free == s.held + s.free && Sound(unit, s) && Sound(unit, s')
    requires !s'.bad && s.pos + |d| < 0x1_0000_0000
    ensures var room := unit * (s.held + s.free) - s.pos;
      r.res == Success && r.count == if |d| <= room then |d| else room
  {
    hide Splice, Clusters;
    Covered(unit, |s'.bytes|, s'.held);
    TimesMonotone(unit, s'.held, s.held + s.free);
  }

  /** A seek on a writable file reaches any place that there are clusters for, and otherwise
      the end of the last one; on other files it stops at the end of the file. */
  lemma SeekFits(unit: nat, s: Stream, ofs: nat, r: Reply, s': Stream, canWrite: bool)
    requires Seeks(unit, s, ofs, r, s', canWrite) && s'.held + s'.free == s.held + s.free && Sound(unit, s)
    requires Sound(unit, s') && !s'.bad
    ensures r.res == Success
    ensures canWrite ==> s'.pos == if ofs <= unit * (s.held + s.free) then ofs else unit * (s.held + s.free)
    ensures !canWrite ==> s'.pos == if ofs <= |s.bytes| then ofs else |s.bytes|
  {
    hide Clusters;
    Covered(unit, |s'.bytes|, s'.held);
    TimesMonotone(unit, s'.held, s.held + s.free);
  }

  // ---- the open file is such a stream

  lemma HoldsSized(g: Geometry, a: nat, b: nat, n: nat)
    requires g.csize > 0 && Sized(g, a, b, n)
    ensures b == if a < Clusters(g.csize * SS, n) then Clusters(g.csize * SS, n) else a
  {
    hide Needed, Clusters;
    ClustersNeeded(g, n);
  }

  lemma UnitTimes(g: Geometry, k: nat)
    ensures SS * (g.csize * k) == g.csize * SS * k
  {
  }

  ghost function View(f: Fil): Stream
    requires f.Valid()
    reads f, f.buf, f.fs, f.fs.win
  {
    Stream(f.Bytes(), f.fptr, f.err, NoSpace(f.fs), BadEntry(TableOf(f.fs.g, f.fs.view)), |f.file.chain|,
           FreeClusters(TableOf(f.fs.g, f.fs.view)))
  }

  /** Another file's chain is still a chain with the same data. */
  ghost predicate Untouched(g: Geometry, w0: Window, w: Window, ch: seq<nat>, other: seq<nat>) {
    && FatWindow.Valid(g, w0) && FatWindow.Valid(g, w) && g.csize > 0
    && IsChain(TableOf(g, w), other) && Disjoint(ch, other)
    && forall s: nat :: g.database <= s < g.sectors && OfFile(g, other, s) ==> Logical(g, w)[s] == Logical(g, w0)[s]
  }

  /** Every other chain is untouched, and the copies of the table still agree if they did. */
  ghost predicate OthersUntouched(g: Geometry, w0: Window, ch0: seq<nat>, w: Window, ch: seq<nat>) {
    && FatWindow.Valid(g, w0) && FatWindow.Valid(g, w) && (Mirrored(g, w0) ==> Mirrored(g, w))
    && forall other: seq<nat> :: IsChain(TableOf(g, w0), other) && Disjoint(ch0, other) ==>
        Untouched(g, w0, w, ch, other)
  }

  lemma NotOfBoth(g: Geometry, ch: seq<nat>, other: seq<nat>, s: nat)
    requires g.csize > 0 && Disjoint(ch, other) && OfFile(g, other, s)
    ensures !OfFile(g, ch, s)
  {
  }

  lemma ApartUntouched(g: Geometry, w0: Window, ch0: seq<nat>, w: Window, ch: seq<nat>)
    requires Apart(g, w0, ch0, w, ch)
    ensures OthersUntouched(g, w0, ch0, w, ch)
  {
    hide TableOf, Logical, FatWindow.Valid, Mirrored, IsChain, Disjoint, OfFile;
    forall other: seq<nat> | IsChain(TableOf(g, w0), other) && Disjoint(ch0, other)
        ensures Untouched(g, w0, w, ch, other) {
      forall s: nat | g.database <= s < g.sectors && OfFile(g, other, s) ensures Logical(g, w)[s] == Logical(g, w0)[s] {
        NotOfBoth(g, ch0, other, s);
        NotOfBoth(g, ch, other, s);
      }
    }
  }

  lemma UntouchedTrans(g: Geometry, w0: Window, ch0: seq<nat>, w1: Window, ch1: seq<nat>, w2: Window, ch2: seq<nat>)
    requires OthersUntouched(g, w0, ch0, w1, ch1) && OthersUntouched(g, w1, ch1, w2, ch2)
    ensures OthersUntouched(g, w0, ch0, w2, ch2)
  {
    hide TableOf, Logical, FatWindow.Valid, Mirrored, IsChain, Disjoint, OfFile;
    forall other: seq<nat> | IsChain(TableOf(g, w0), other) && Disjoint(ch0, other)
        ensures Untouched(g, w0, w2, ch2, other) {
      assert Untouched(g, w0, w1, ch1, other);
      assert Untouched(g, w1, w2, ch2, other);
    }
  }

  method PerformRead(f: Fil, n: nat) returns (r: Reply)
    requires f.Valid() && n < WORD
    modifies f, f.fs, f.fs.win, f.buf
    ensures f.Valid() && Step(f.fs.g.csize * SS, f.canRead, f.canWrite, old(View(f)), Op.Read(n), r, View(f))
    ensures Apart(f.fs.g, old(f.fs.view), old(f.file.chain), f.fs.view, f.file.chain)
    ensures old(TrueCount(f.fs)) ==> TrueCount(f.fs)
  {
    hide Base, Image, TableOf, FatWindow.Valid, Contents, FreeClusters, BadEntry, Apart, Splice, Cursor, Tight, AtEnd,
        Counted, Sized, Clusters, Needed, Linked, Cached, Foreign;
    BaseUnit(f.fs.g, f.fs.view, f.file);
    var buff := new byte[n](i => 0);
    var res, br := f.Read(buff, n);
    r := Reply(res, buff[..br], br);
  }

  method PerformWrite(f: Fil, d: seq<byte>) returns (r: Reply)
    requires f.Valid() && |d| < WORD
    modifies f, f.fs, f.fs.win, f.buf
    ensures f.Valid() && Step(f.fs.g.csize * SS, f.canRead, f.canWrite, old(View(f)), Op.Write(d), r, View(f))
    ensures Apart(f.fs.g, old(f.fs.view), old(f.file.chain), f.fs.view, f.file.chain)
    ensures old(TrueCount(f.fs)) ==> TrueCount(f.fs)
  {
    hide Base, Image, TableOf, FatWindow.Valid, Contents, FreeClusters, BadEntry, Apart, Splice, Cursor, Tight, AtEnd,
        Counted, Sized, Clusters, Needed, Linked, Cached, Foreign;
    BaseUnit(f.fs.g, f.fs.view, f.file);
    var res, bw := f.Write(d, |d|);
    r := Reply(res, [], bw);
    HoldsSized(f.fs.g, |old(f.file.chain)|, |f.file.chain|, f.objsize);
    UnitTimes(f.fs.g, |f.file.chain|);
  }

  method PerformSeek(f: Fil, ofs: nat) returns (r: Reply)
    requires f.Valid() && ofs < WORD
    modifies f, f.fs, f.fs.win, f.buf
    ensures f.Valid() && Step(f.fs.g.csize * SS, f.canRead, f.canWrite, old(View(f)), Op.Seek(ofs), r, View(f))
    ensures Apart(f.fs.g, old(f.fs.view), old(f.file.chain), f.fs.view, f.file.chain)
    ensures old(TrueCount(f.fs)) ==> TrueCount(f.fs)
  {
    hide Base, Image, TableOf, FatWindow.Valid, Contents, FreeClusters, BadEntry, Apart, Splice, Cursor, Tight, AtEnd,
        Counted, Sized, Clusters, Needed, Linked, Cached, Foreign;
    BaseUnit(f.fs.g, f.fs.view, f.file);
    var res := f.Seek(ofs);
    r := Reply(res, [], 0);
    UnitTimes(f.fs.g, |f.file.chain|);
    if old(f.err) == Success {
      HoldsSized(f.fs.g, |old(f.file.chain)|, |f.file.chain|, if f.fptr > f.objsize then f.fptr else f.objsize);
      EndPlace(f.fs.g, f.file);
    }
  }

  method PerformTruncate(f: Fil) returns (r: Reply)
    requires f.Valid()
    modifies f, f.fs, f.fs.win, f.buf
    ensures f.Valid() && Step(f.fs.g.csize * SS, f.canRead, f.canWrite, old(View(f)), Op.Truncate, r, View(f))
    ensures Apart(f.fs.g, old(f.fs.view), old(f.file.chain), f.fs.view, f.file.chain)
    ensures old(TrueCount(f.fs)) ==> TrueCount(f.fs)
  {
    hide Base, Image, TableOf, FatWindow.Valid, Contents, FreeClusters, BadEntry, Apart, Splice, Cursor, Tight, AtEnd,
        Counted, Sized, Clusters, Needed, Linked, Cached, Foreign;
    BaseUnit(f.fs.g, f.fs.view, f.file);
    var res := f.Truncate();
    r := Reply(res, [], 0);
    ClustersNeeded(f.fs.g, f.fptr);
  }

  method Perform(f: Fil, op: Op) returns (r: Reply)
    requires f.Valid() && Feasible(op)
    modifies f, f.fs, f.fs.win, f.buf
    ensures f.Valid() && Step(f.fs.g.csize * SS, f.canRead, f.canWrite, old(View(f)), op, r, View(f))
    ensures Apart(f.fs.g, old(f.fs.view), old(f.file.chain), f.fs.view, f.file.chain)
    ensures old(TrueCount(f.fs)) ==> TrueCount(f.fs)
  {
    hide Base, Image, TableOf, FatWindow.Valid, Contents, FreeClusters, BadEntry, Apart, Step, Cursor, Counted;
    match op
    case Read(n) => r := PerformRead(f, n);
    case Write(d) => r := PerformWrite(f, d);
    case Seek(ofs) => r := PerformSeek(f, ofs);
    case Truncate => r := PerformTruncate(f);
  }

  lemma BaseUnit(g: Geometry, w: Window, f: File)
    requires Base(g, w, f)
    ensures g.csize > 0 && FatWindow.Valid(g, w)
  {
  }

  lemma EndPlace(g: Geometry, f: File)
    ensures AtEnd(g, f) ==> f.fptr == SS * (g.csize * |f.chain|)
  {
  }

  /** A file has the clusters it needs, and with a true free count a full volume is full. */
  lemma ViewSound(f: Fil)
    requires f.Valid() && TrueCount(f.fs)
    ensures Sound(f.fs.g.csize * SS, View(f))
  {
    hide Image, FreeClusters, BadEntry, Cursor, Clusters, Needed, Linked, Cached, Foreign, TableOf, FatWindow.Valid;
    BaseUnit(f.fs.g, f.fs.view, f.file);
    SmallTable(f.fs.g, f.fs.view);
    NeededFits(f.fs.g, f.objsize, |f.file.chain|);
    ClustersNeeded(f.fs.g, f.objsize);
  }

  /** Every run of operations on an open file is a run of the abstract byte sequence. It
      leaves every other chain of the volume with its data, and a true free count true. */
  method Run(f: Fil, ops: seq<Op>) returns (replies: seq<Reply>, ghost trace: seq<Stream>)
    requires f.Valid() && forall i :: 0 <= i < |ops| ==> Feasible(ops[i])
    modifies f, f.fs, f.fs.win, f.buf
    ensures f.Valid() && |replies| == |ops| && |trace| == |ops| + 1 && trace[0] == old(View(f))
        && trace[|ops|] == View(f)
    ensures forall i :: 0 <= i < |ops| ==>
        Step(f.fs.g.csize * SS, f.canRead, f.canWrite, trace[i], ops[i], replies[i], trace[i + 1])
    ensures OthersUntouched(f.fs.g, old(f.fs.view), old(f.file.chain), f.fs.view, f.file.chain)
    ensures old(TrueCount(f.fs)) ==> TrueCount(f.fs) && forall i :: 0 <= i <= |ops| ==>
        Sound(f.fs.g.csize * SS, trace[i])
  {
    hide Base, Image, TableOf, FatWindow.Valid, Contents, FreeClusters, BadEntry, Apart, Step, OthersUntouched,
        Counted, Sound;
    replies, trace := [], [View(f)];
    ghost var w0, ch0 := f.fs.view, f.file.chain;
    BaseValid(f.fs.g, w0, f.file);
    ApartSelf(f.fs.g, w0, ch0);
    ApartUntouched(f.fs.g, w0, ch0, w0, ch0);
    if TrueCount(f.fs) {
      ViewSound(f);
    }
    for i := 0 to |ops|
      invariant f.Valid() && |replies| == i && |trace| == i + 1 && trace[0] == old(View(f)) && trace[i] == View(f)
      invariant forall k :: 0 <= k < i ==>
          Step(f.fs.g.csize * SS, f.canRead, f.canWrite, trace[k], ops[k], replies[k], trace[k + 1])
      invariant OthersUntouched(f.fs.g, w0, ch0, f.fs.view, f.file.chain)
      invariant old(TrueCount(f.fs)) ==> TrueCount(f.fs) && forall k :: 0 <= k <= i ==>
          Sound(f.fs.g.csize * SS, trace[k])
    {
      ghost var w1, ch1 := f.fs.view, f.file.chain;
      var r := Perform(f, ops[i]);
      ApartUntouched(f.fs.g, w1, ch1, f.fs.view, f.file.chain);
      UntouchedTrans(f.fs.g, w0, ch0, w1, ch1, f.fs.view, f.file.chain);
      if TrueCount(f.fs) {
        ViewSound(f);
      }
      replies, trace := replies + [r], trace + [View(f)];
    }
  }
}
