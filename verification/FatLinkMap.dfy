/** The cluster link map: the fragments of a file's chain, made once and then used to find
    the cluster of an offset without following the table. */
module FatLinkMap {
  import opened FatTable
  import opened FatWindow
  import opened FatChain
  import opened FatVolume
  import FatData

  /** n clusters from c on. */
  function Run(c: nat, n: nat): (r: seq<nat>)
    ensures |r| == n && forall k :: 0 <= k < n ==> r[k] == c + k
  {
    seq(n, k requires 0 <= k < n => c + k)
  }

  /** The clusters that pairs of length and start describe. */
  function Expand(t: seq<nat>): seq<nat> {
    if |t| < 2 then [] else Run(t[1], t[0]) + Expand(t[2..])
  }

  lemma {:induction false} ExpandAppend(t: seq<nat>, n: nat, c: nat)
    requires |t| % 2 == 0
    ensures Expand(t + [n, c]) == Expand(t) + Run(c, n)
  {
    if |t| == 0 {
      assert t + [n, c] == [n, c];
      assert [n, c][2..] == [];
    } else {
      ExpandAppend(t[2..], n, c);
      assert (t + [n, c])[2..] == t[2..] + [n, c];
    }
  }

  /** How many runs of consecutive clusters the first i elements make. */
  function Fragments(ch: seq<nat>, i: nat): nat
    requires i <= |ch|
  {
    if i == 0 then 0 else Fragments(ch, i - 1) + if i == 1 || ch[i - 1] != ch[i - 2] + 1 then 1 else 0
  }

  /** Elements i to i + n are consecutive clusters. */
  predicate IsRun(ch: seq<nat>, i: nat, n: nat) {
    i + n <= |ch| && forall k :: i <= k < i + n ==> ch[k] == ch[i] + (k - i)
  }

  /** One run that begins at i counts once. */
  lemma {:induction false} FragmentOne(ch: seq<nat>, i: nat, n: nat)
    requires 0 < n && IsRun(ch, i, n) && (i == 0 || ch[i] != ch[i - 1] + 1)
    ensures Fragments(ch, i + n) == Fragments(ch, i) + 1
  {
    if n > 1 {
      FragmentOne(ch, i, n - 1);
    }
  }

  /** t is a terminated map of the chain. */
  ghost predicate Describes(t: seq<nat>, f: nat, ch: seq<nat>) {
    && 2 * f + 2 <= |t| && t[2 * f + 1] == 0 && Expand(t[1..2 * f + 1]) == ch
    && forall k: nat :: k < f ==> t[2 * k + 1] > 0
  }

  /** An end mark that happens to be the number after the last cluster. */
  predicate OddEnd(table: seq<nat>, ch: seq<nat>) {
    ch != [] && ch[|ch| - 1] < |table| && table[ch[|ch| - 1]] == ch[|ch| - 1] + 1
  }

  /** A table of three entries whose one chain ends in the mark 3: the map of it fails. */
  lemma OddEndExists()
    ensures IsChain([0, 0, 3], [2]) && OddEnd([0, 0, 3], [2])
  {
    assert Cluster([0, 0, 3], 2);
  }

  /** The end mark create_chain writes never is: such a chain always gets its map. */
  lemma OwnMark(t: FsType, table: seq<nat>, ch: seq<nat>)
    requires IsChain(table, ch) && |table| <= MaxEntries(t) && table[ch[|ch| - 1]] == Cut(t, EOC)
    ensures !OddEnd(table, ch)
  {
  }

  /** What follows element i - 1. */
  function After(table: seq<nat>, ch: seq<nat>, i: nat): nat
    requires 0 < i <= |ch| && ch[i - 1] < |table|
  {
    if i < |ch| then ch[i] else table[ch[i - 1]]
  }

  /** One step along a run: to the next cluster of the chain, or off its odd end. */
  lemma RunStep(table: seq<nat>, ch: seq<nat>, i: nat, n: nat, cl: nat)
    requires IsChain(table, ch) && i < |ch| && IsRun(ch, i, n)
    requires if n == 0 then cl == ch[i]
        else ch[i + n - 1] < |table| && cl == After(table, ch, i + n) == ch[i + n - 1] + 1
    ensures i + n < |ch| ==>
        cl == ch[i + n] && IsRun(ch, i, n + 1) && Cluster(table, cl) && table[cl] == After(table, ch, i + n + 1) >= 2
    ensures i + n == |ch| ==> OddEnd(table, ch) && cl == |table|
  {
    if i + n < |ch| {
      assert Cluster(table, ch[i + n]);
      assert i + n + 1 < |ch| ==> Cluster(table, ch[i + n + 1]);
    } else {
      assert Cluster(table, ch[|ch| - 1]);
    }
  }

  /** The inner loop: follow a run of consecutive clusters. */
  method FollowRun(fs: Fatfs, tcl: nat, ghost ch: seq<nat>, ghost i: nat, ghost w0: Window) returns (ncl: nat,
      cl: nat, ok: bool)
    requires fs.Valid() && FatWindow.Valid(fs.g, w0) && Keeps(fs.g, w0, fs.view)
    requires IsChain(TableOf(fs.g, fs.view), ch) && i < |ch| && tcl == ch[i]
    modifies fs`disk, fs`wflag, fs`winsect, fs`view, fs.win
    ensures fs.Valid() && Keeps(fs.g, w0, fs.view) && TableOf(fs.g, fs.view) == TableOf(fs.g, old(fs.view))
    ensures !ok ==> OddEnd(TableOf(fs.g, fs.view), ch)
    ensures ok ==>
              && 0 < ncl && IsRun(ch, i, ncl) && ch[i + ncl - 1] < fs.g.nFatent
              && cl == After(TableOf(fs.g, fs.view), ch, i + ncl) != ch[i + ncl - 1] + 1
  {
    hide Keeps, TableOf, FatWindow.Valid, IsChain, OddEnd, After, IsRun;
    EmptyRun(ch, i);
    SmallTable(fs.g, fs.view);
    ghost var table := TableOf(fs.g, fs.view);
    ncl, cl := 0, tcl;
    var pcl := 0;
    while ncl == 0 || cl == pcl + 1
      invariant fs.Valid() && Keeps(fs.g, w0, fs.view) && TableOf(fs.g, fs.view) == table && i + ncl <= |ch|
      invariant ncl == 0 ==> cl == ch[i]
      invariant ncl > 0 ==> pcl == ch[i + ncl - 1] < |table| && cl == After(table, ch, i + ncl)
      invariant IsRun(ch, i, ncl)
      decreases |ch| - ncl
    {
      RunStep(table, ch, i, ncl, cl);
      pcl := cl;
      ncl := ncl + 1;
      ghost var v := fs.view;
      cl := fs.GetFat(cl);
      KeepsTrans(fs.g, w0, v, fs.view);
      if cl <= 1 {
        return ncl, cl, false;
      }
    }
    ok := true;
  }

  /** The map after f fragments of the first i elements, as far as it fits. */
  ghost predicate Stored(t: seq<nat>, tlen: nat, f: nat, ch: seq<nat>, i: nat) {
    && i <= |ch| && f == Fragments(ch, i) && 1 <= |t| && tlen <= |t|
    && (2 * f + 2 <= tlen ==> Expand(t[1..2 * f + 1]) == ch[..i] && forall k: nat :: k < f ==> t[2 * k + 1] > 0)
  }

  lemma StoredNext(t: seq<nat>, t': seq<nat>, tlen: nat, f: nat, ch: seq<nat>, i: nat, n: nat)
    requires Stored(t, tlen, f, ch, i) && 0 < n && IsRun(ch, i, n) && |t'| == |t| && (i == 0 || ch[i] != ch[i - 1] + 1)
    requires 2 * f + 4 <= tlen ==> t' == t[2 * f + 1 := n][2 * f + 2 := ch[i]]
    ensures Stored(t', tlen, f + 1, ch, i + n)
  {
    FragmentOne(ch, i, n);
    if 2 * f + 4 <= tlen {
      ExpandAppend(t[1..2 * f + 1], n, ch[i]);
      assert t'[1..2 * (f + 1) + 1] == t[1..2 * f + 1] + [n, ch[i]];
      assert ch[..i + n] == ch[..i] + Run(ch[i], n);
      forall k: nat | k < f + 1 ensures t'[2 * k + 1] > 0 {
        if k < f {
          assert t[2 * k + 1] > 0;
        }
      }
    }
  }

  /** f_lseek with CREATE_LINKMAP: the table given in tbl, whose first item is its size, is
      filled if it is large enough, and the size needed is stored in any case. */
  method CreateLinkMap(fs: Fatfs, sclust: nat, tbl: array<nat>, ghost ch: seq<nat>) returns (res: FatVolume.Result)
    requires fs.Valid() && 1 <= tbl.Length && tbl[0] <= tbl.Length
    requires if sclust == 0 then ch == [] else IsChain(TableOf(fs.g, fs.view), ch) && ch[0] == sclust
    modifies fs`disk, fs`wflag, fs`winsect, fs`view, fs.win, tbl
    ensures fs.Valid() && Keeps(fs.g, old(fs.view), fs.view) && TableOf(fs.g, fs.view) == TableOf(fs.g, old(fs.view))
    ensures res == IntErr <==> OddEnd(TableOf(fs.g, fs.view), ch)
    ensures res != IntErr ==> tbl[0] == 2 + 2 * Fragments(ch, |ch|)
    ensures res != IntErr ==> res == if tbl[0] <= old(tbl[0]) then Success else NotEnoughCore
    ensures res == Success ==> Describes(tbl[..], Fragments(ch, |ch|), ch)
  {
    hide Keeps, TableOf, FatWindow.Valid, IsChain, OddEnd, After, Stored, Describes, IsRun, Fragments, Geometry.Ok,
        Run, Expand;
    ghost var w0, table := fs.view, TableOf(fs.g, fs.view);
    KeepsSelf(fs.g, w0);
    SmallTable(fs.g, w0);
    var tlen, ulen, at, cl := tbl[0], 2, 1, sclust;
    StoredNone(tbl[..], tlen, ch);
    EmptyEnd(table, ch);
    ghost var i, f := 0, 0;
    if cl != 0 {
      var more := true;
      while more
        invariant fs.Valid() && Keeps(fs.g, w0, fs.view) && TableOf(fs.g, fs.view) == table && i <= |ch|
        invariant Stored(tbl[..], tlen, f, ch, i) && ulen == 2 * f + 2 && (ulen <= tlen ==> at == 2 * f + 1)
        invariant more ==> i < |ch| && cl == ch[i] && (i == 0 || ch[i] != ch[i - 1] + 1)
        invariant !more ==> i == |ch| && !OddEnd(table, ch)
        decreases |ch| - i, more
      {
        var tcl := cl;
        var ncl, ok;
        ulen := ulen + 2;
        ncl, cl, ok := FollowRun(fs, cl, ch, i, w0);
        if !ok {
          return IntErr;
        }
        ghost var t := tbl[..];
        if ulen <= tlen {
          tbl[at], tbl[at + 1] := ncl, tcl;
          at := at + 2;
        }
        StoredNext(t, tbl[..], tlen, f, ch, i, ncl);
        RunDone(table, ch, i + ncl, cl);
        i, f := i + ncl, f + 1;
        more := cl < fs.g.nFatent;
      }
    }
    StoredFacts(tbl[..], tlen, f, ch);
    res := CloseMap(tbl, tlen, ulen, at, f, ch);
  }

  /** Store the size of the map and, if it fits, its terminator. */
  method CloseMap(tbl: array<nat>, tlen: nat, ulen: nat, at: nat, ghost f: nat, ghost ch: seq<nat>)
    returns (res: FatVolume.Result)
    requires 1 <= tbl.Length && tlen <= tbl.Length && ulen == 2 * f + 2 && (ulen <= tlen ==> at == 2 * f + 1)
    requires Stored(tbl[..], tlen, f, ch, |ch|)
    modifies tbl
    ensures tbl[0] == ulen && res == if ulen <= tlen then Success else NotEnoughCore
    ensures res == Success ==> Describes(tbl[..], f, ch)
  {
    hide Stored, Describes;
    ghost var t := tbl[..];
    tbl[0] := ulen;
    if ulen <= tlen {
      tbl[at] := 0;
      res := Success;
      assert tbl[..] == t[0 := ulen][at := 0];
      StoredDescribes(t, tlen, f, ch, ulen);
    } else {
      res := NotEnoughCore;
    }
  }

  lemma EmptyRun(ch: seq<nat>, i: nat)
    requires i <= |ch|
    ensures IsRun(ch, i, 0)
  {
  }

  lemma StoredNone(t: seq<nat>, tlen: nat, ch: seq<nat>)
    requires 1 <= |t| && tlen <= |t|
    ensures Stored(t, tlen, 0, ch, 0)
  {
  }

  lemma EmptyEnd(table: seq<nat>, ch: seq<nat>)
    ensures ch == [] ==> !OddEnd(table, ch)
    ensures IsChain(table, ch) ==> ch != [] && ch[0] != 0
  {
    assert IsChain(table, ch) ==> Cluster(table, ch[0]);
  }

  lemma RunDone(table: seq<nat>, ch: seq<nat>, i: nat, cl: nat)
    requires IsChain(table, ch) && 0 < i <= |ch| && ch[i - 1] < |table| && cl == After(table, ch, i) != ch[i - 1] + 1
    ensures if cl < |table| then i < |ch| && cl == ch[i] && ch[i] != ch[i - 1] + 1 else i == |ch| && !OddEnd(table, ch)
  {
    assert i < |ch| ==> Cluster(table, ch[i]);
  }

  lemma StoredFacts(t: seq<nat>, tlen: nat, f: nat, ch: seq<nat>)
    requires Stored(t, tlen, f, ch, |ch|)
    ensures f == Fragments(ch, |ch|)
  {
  }

  lemma StoredDescribes(t: seq<nat>, tlen: nat, f: nat, ch: seq<nat>, ulen: nat)
    requires Stored(t, tlen, f, ch, |ch|) && ulen == 2 * f + 2 <= tlen
    ensures Describes(t[0 := ulen][2 * f + 1 := 0], f, ch)
  {
    var t' := t[0 := ulen][2 * f + 1 := 0];
    assert t'[1..2 * f + 1] == t[1..2 * f + 1];
    assert ch[..|ch|] == ch;
    forall k: nat | k < f ensures t'[2 * k + 1] > 0 {
      assert t[2 * k + 1] > 0;
    }
  }

  // ---- looking up

  /** The rest of the map from pair k on describes the rest of the chain. */
  ghost predicate RestDescribes(t: seq<nat>, f: nat, k: nat, rest: seq<nat>) {
    && k <= f && 2 * f + 2 <= |t| && t[2 * f + 1] == 0 && Expand(t[2 * k + 1..2 * f + 1]) == rest
    && forall j: nat :: j < f ==> t[2 * j + 1] > 0
  }

  lemma RestNext(t: seq<nat>, f: nat, k: nat, rest: seq<nat>)
    requires RestDescribes(t, f, k, rest)
    ensures k == f ==> rest == []
    ensures k < f ==> t[2 * k + 1] <= |rest| && t[2 * k + 1] > 0 && RestDescribes(t, f, k + 1, rest[t[2 * k + 1]..])
    ensures k < f ==> forall j :: 0 <= j < t[2 * k + 1] ==> rest[j] == t[2 * k + 2] + j
  {
    if k < f {
      var s := t[2 * k + 1..2 * f + 1];
      assert s[0] == t[2 * k + 1] && s[1] == t[2 * k + 2] && s[2..] == t[2 * k + 3..2 * f + 1];
      assert rest == Run(s[1], s[0]) + Expand(s[2..]);
      assert rest[s[0]..] == Expand(s[2..]);
      assert RestDescribes(t, f, k + 1, rest[s[0]..]);
    }
  }

  /** clmt_clust: element ofs / clustersize of the chain, or 0 past its end. */
  method ClmtClust(g: Geometry, tbl: array<nat>, ofs: nat, ghost f: nat, ghost ch: seq<nat>) returns (r: nat)
    requires g.csize > 0 && Describes(tbl[..], f, ch)
    ensures r == if FatData.ClusterIndex(g, ofs) < |ch| then ch[FatData.ClusterIndex(g, ofs)] else 0
  {
    hide Expand, Run;
    var cl := ofs / SS / g.csize;
    var at := 1;
    ghost var k: nat, rest := 0, ch;
    while true
      invariant at == 2 * k + 1 && RestDescribes(tbl[..], f, k, rest)
      invariant cl + (|ch| - |rest|) == FatData.ClusterIndex(g, ofs) && |rest| <= |ch| && rest == ch[|ch| - |rest|..]
          && cl >= 0
      decreases f - k
    {
      RestNext(tbl[..], f, k, rest);
      var ncl := tbl[at];
      at := at + 1;
      if ncl == 0 {
        return 0;
      }
      if cl < ncl {
        return cl + tbl[at];
      }
      cl := cl - ncl;
      at := at + 1;
      rest := rest[ncl..];
      k := k + 1;
    }
  }
}
