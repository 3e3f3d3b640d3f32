/** Cluster chains: the table as a linked structure, independent of how it is stored.
    Cluster numbers start at 2; an entry 0 is free, an entry >= |table| ends a chain. */
module FatChain {

  predicate Cluster(table: seq<nat>, c: nat) {
    2 <= c < |table|
  }

  // ---- counting free clusters

  function CountFree(table: seq<nat>, k: nat): (n: nat)
    requires k <= |table|
    ensures n <= k
    ensures k >= 2 ==> n <= k - 2
  {
    if k <= 2 then 0 else CountFree(table, k - 1) + if table[k - 1] == 0 then 1 else 0
  }

  function FreeClusters(table: seq<nat>): (n: nat)
    ensures n <= |table|
  {
    CountFree(table, |table|)
  }

  lemma {:induction false} CountUpdate(table: seq<nat>, k: nat, c: nat, v: nat)
    requires k <= |table| && Cluster(table, c)
    ensures CountFree(table[c := v], k)
      == CountFree(table, k) + if c < k then (if v == 0 then 1 else 0) - (if table[c] == 0 then 1 else 0) else 0
  {
    if k > 2 {
      CountUpdate(table, k - 1, c, v);
    }
  }

  lemma {:induction false} NoneFree(table: seq<nat>, k: nat)
    requires k <= |table| && CountFree(table, k) == 0
    ensures forall c :: 2 <= c < k ==> table[c] != 0
  {
    if k > 2 {
      NoneFree(table, k - 1);
    }
  }

  lemma {:induction false} SomeUsed(table: seq<nat>, k: nat, c: nat)
    requires k <= |table| && 2 <= c < k && table[c] != 0
    ensures CountFree(table, k) < k - 2
  {
    if c < k - 1 {
      SomeUsed(table, k - 1, c);
    }
  }

  // ---- chains

  predicate Distinct(s: seq<nat>) {
    forall i, j :: 0 <= i < j < |s| ==> s[i] != s[j]
  }

  /** ch is a chain from its first cluster to an end mark. */
  predicate IsChain(table: seq<nat>, ch: seq<nat>) {
    && |ch| > 0 && Distinct(ch)
    && (forall i :: 0 <= i < |ch| ==> Cluster(table, ch[i]))
    && (forall i :: 0 <= i < |ch| - 1 ==> table[ch[i]] == ch[i + 1])
    && table[ch[|ch| - 1]] >= |table|
  }

  predicate Disjoint(a: seq<nat>, b: seq<nat>) {
    forall i, j :: 0 <= i < |a| && 0 <= j < |b| ==> a[i] != b[j]
  }

  predicate At(chains: seq<seq<nat>>, k: nat, j: nat, c: nat) {
    k < |chains| && j < |chains[k]| && chains[k][j] == c
  }

  ghost predicate Covered(chains: seq<seq<nat>>, c: nat) {
    exists k: nat, j: nat :: At(chains, k, j, c)
  }

  ghost predicate AllCovered(table: seq<nat>, chains: seq<seq<nat>>) {
    forall c: nat :: Cluster(table, c) && table[c] != 0 ==> Covered(chains, c)
  }

  ghost predicate AllDisjoint(chains: seq<seq<nat>>) {
    forall k, l :: 0 <= k < |chains| && 0 <= l < |chains| && k != l ==> Disjoint(chains[k], chains[l])
  }

  /** The used clusters are exactly those of the chains, which do not meet. */
  ghost predicate Chains(table: seq<nat>, chains: seq<seq<nat>>) {
    && (forall k :: 0 <= k < |chains| ==> IsChain(table, chains[k]))
    && AllDisjoint(chains) && AllCovered(table, chains)
  }

  /** A chain does not notice changes elsewhere. */
  lemma ChainFrame(table: seq<nat>, table': seq<nat>, ch: seq<nat>)
    requires IsChain(table, ch) && |table| == |table'|
    requires forall i :: 0 <= i < |ch| ==> table'[ch[i]] == table[ch[i]]
    ensures IsChain(table', ch)
  {
  }

  lemma ChainUsed(table: seq<nat>, ch: seq<nat>, i: nat)
    requires IsChain(table, ch) && i < |ch|
    ensures Cluster(table, ch[i]) && table[ch[i]] != 0 && table[ch[i]] != 1
  {
    assert i < |ch| - 1 ==> Cluster(table, ch[i + 1]);
  }

  /** Replacing one chain by another that avoids the rest. */
  lemma DisjointUpdate(chains: seq<seq<nat>>, k: nat, ch: seq<nat>)
    requires AllDisjoint(chains) && k < |chains|
    requires forall l :: 0 <= l < |chains| && l != k ==> Disjoint(ch, chains[l]) && Disjoint(chains[l], ch)
    ensures AllDisjoint(chains[k := ch])
  {
  }

  // ---- stretching

  /** The table after a free cluster ncl became the end of a chain, linked from clst if
      that is not 0. */
  function Stretched(table: seq<nat>, clst: nat, ncl: nat, eoc: nat): seq<nat>
    requires ncl < |table| && clst < |table|
  {
    if clst == 0 then table[ncl := eoc] else table[ncl := eoc][clst := ncl]
  }

  lemma StretchChain(table: seq<nat>, ch: seq<nat>, ncl: nat, eoc: nat)
    requires IsChain(table, ch) && Cluster(table, ncl) && table[ncl] == 0 && eoc >= |table|
    ensures IsChain(Stretched(table, ch[|ch| - 1], ncl, eoc), ch + [ncl])
  {
    forall i | 0 <= i < |ch| ensures ch[i] != ncl {
      ChainUsed(table, ch, i);
    }
  }

  /** Another chain is not touched by the two entries a stretch writes. */
  lemma StretchOther(table: seq<nat>, ch: seq<nat>, other: seq<nat>, ncl: nat, eoc: nat)
    requires IsChain(table, ch) && IsChain(table, other) && Disjoint(ch, other)
    requires Cluster(table, ncl) && table[ncl] == 0
    ensures IsChain(Stretched(table, ch[|ch| - 1], ncl, eoc), other) && IsChain(table[ncl := eoc], other)
    ensures Disjoint(ch + [ncl], other) && Disjoint(other, ch + [ncl]) && Disjoint(other, [ncl])
        && Disjoint([ncl], other)
  {
    forall i | 0 <= i < |other| ensures other[i] != ncl && other[i] != ch[|ch| - 1] {
      ChainUsed(table, other, i);
    }
    ChainFrame(table, Stretched(table, ch[|ch| - 1], ncl, eoc), other);
    ChainFrame(table, table[ncl := eoc], other);
  }

  /** Stretching one chain leaves the others alone. */
  lemma StretchKeepsChains(table: seq<nat>, chains: seq<seq<nat>>, k: nat, ncl: nat, eoc: nat)
    requires Chains(table, chains) && k < |chains| && Cluster(table, ncl) && table[ncl] == 0 && eoc >= |table|
    ensures var ch := chains[k]; Chains(Stretched(table, ch[|ch| - 1], ncl, eoc), chains[k := ch + [ncl]])
  {
    hide IsChain, Disjoint;
    var ch := chains[k];
    ChainLast(table, ch);
    var table', chains' := Stretched(table, ch[|ch| - 1], ncl, eoc), chains[k := ch + [ncl]];
    StretchChain(table, ch, ncl, eoc);
    forall l | 0 <= l < |chains| && l != k
      ensures IsChain(table', chains[l]) && Disjoint(ch + [ncl], chains[l]) && Disjoint(chains[l], ch + [ncl])
    {
      StretchOther(table, ch, chains[l], ncl, eoc);
    }
    DisjointUpdate(chains, k, ch + [ncl]);
    forall c: nat | Cluster(table', c) && table'[c] != 0 ensures Covered(chains', c) {
      if c == ncl {
        assert At(chains', k, |ch|, c);
      } else {
        if c == ch[|ch| - 1] { assert At(chains, k, |ch| - 1, c); }
        var l: nat, j: nat :| At(chains, l, j, c);
        assert At(chains', l, j, c);
      }
    }
  }

  lemma ChainLast(table: seq<nat>, ch: seq<nat>)
    requires IsChain(table, ch)
    ensures |ch| > 0 && Cluster(table, ch[|ch| - 1]) && table[ch[|ch| - 1]] >= |table|
  {
  }

  /** A new chain of one cluster leaves the others alone. */
  lemma NewChainKeepsChains(table: seq<nat>, chains: seq<seq<nat>>, ncl: nat, eoc: nat)
    requires Chains(table, chains) && Cluster(table, ncl) && table[ncl] == 0 && eoc >= |table|
    ensures Chains(table[ncl := eoc], chains + [[ncl]])
  {
    var table', chains' := table[ncl := eoc], chains + [[ncl]];
    assert IsChain(table', [ncl]);
    hide IsChain, Disjoint;
    forall l | 0 <= l < |chains|
      ensures IsChain(table', chains[l]) && Disjoint(chains[l], [ncl]) && Disjoint([ncl], chains[l])
    {
      NewOther(table, chains[l], ncl, eoc);
    }
    assert AllDisjoint(chains');
    forall c: nat | Cluster(table', c) && table'[c] != 0 ensures Covered(chains', c) {
      if c == ncl {
        assert At(chains', |chains|, 0, c);
      } else {
        var l: nat, j: nat :| At(chains, l, j, c);
        assert At(chains', l, j, c);
      }
    }
  }

  lemma NewOther(table: seq<nat>, other: seq<nat>, ncl: nat, eoc: nat)
    requires IsChain(table, other) && Cluster(table, ncl) && table[ncl] == 0
    ensures IsChain(table[ncl := eoc], other) && Disjoint(other, [ncl]) && Disjoint([ncl], other)
  {
    forall i | 0 <= i < |other| ensures other[i] != ncl {
      ChainUsed(table, other, i);
    }
    ChainFrame(table, table[ncl := eoc], other);
  }

  // ---- removal

  /** What remove_chain does from clst on, on any table at all: it frees clusters until
      it meets a free one, an end mark, or an entry 1, which makes it fail. */
  function Freed(table: seq<nat>, clst: nat): (r: (seq<nat>, bool))
    requires Cluster(table, clst)
    ensures |r.0| == |table|
    decreases |table| - FreeClusters(table)
  {
    var nxt := table[clst];
    if nxt == 0 then (table, true)
    else if nxt == 1 then (table, false)
    else
      CountUpdate(table, |table|, clst, 0);
      var t := table[clst := 0];
      if nxt < |table| then Freed(t, nxt) else (t, true)
  }

  function Zeroed(table: seq<nat>, s: seq<nat>): (r: seq<nat>)
    ensures |r| == |table|
    ensures forall c :: 0 <= c < |table| ==> r[c] == if c in s then 0 else table[c]
  {
    seq(|table|, c requires 0 <= c < |table| => if c in s then 0 else table[c])
  }

  /** Removal from element i of a chain frees exactly the rest of it. */
  lemma {:induction false} FreedSuffix(table: seq<nat>, ch: seq<nat>, i: nat)
    requires i < |ch| && Distinct(ch) && (forall j :: i <= j < |ch| ==> Cluster(table, ch[j]))
    requires forall j :: i <= j < |ch| - 1 ==> Cluster(table, ch[j]) && table[ch[j]] == ch[j + 1]
    requires Cluster(table, ch[|ch| - 1]) && table[ch[|ch| - 1]] >= |table|
    ensures Freed(table, ch[i]) == (Zeroed(table, ch[i..]), true)
    ensures FreeClusters(Zeroed(table, ch[i..])) == FreeClusters(table) + (|ch| - i)
    decreases |ch| - i
  {
    var t := table[ch[i] := 0];
    CountUpdate(table, |table|, ch[i], 0);
    assert ch[i..] == [ch[i]] + ch[i + 1..];
    if i < |ch| - 1 {
      FreedSuffix(t, ch, i + 1);
      assert Zeroed(t, ch[i + 1..]) == Zeroed(table, ch[i..]);
    } else {
      assert t == Zeroed(table, ch[i..]);
    }
  }

  /** The table after remove_chain cut chain ch before element i. */
  function Severed(table: seq<nat>, ch: seq<nat>, i: nat, eoc: nat): (r: seq<nat>)
    requires i <= |ch| && (i > 0 ==> ch[i - 1] < |table|)
    ensures |r| == |table|
  {
    Zeroed(if i == 0 then table else table[ch[i - 1] := eoc], ch[i..])
  }

  lemma CutChain(table: seq<nat>, ch: seq<nat>, i: nat, eoc: nat)
    requires IsChain(table, ch) && 0 < i <= |ch| && eoc >= |table|
    ensures IsChain(Severed(table, ch, i, eoc), ch[..i])
  {
    forall j | 0 <= j < i ensures ch[j] !in ch[i..] {
    }
  }

  lemma CutOther(table: seq<nat>, ch: seq<nat>, other: seq<nat>, i: nat, eoc: nat)
    requires IsChain(table, ch) && IsChain(table, other) && Disjoint(ch, other) && i <= |ch|
    ensures IsChain(Severed(table, ch, i, eoc), other)
  {
    var table' := Severed(table, ch, i, eoc);
    forall j | 0 <= j < |other| ensures table'[other[j]] == table[other[j]] {
      assert Cluster(table, other[j]);
    }
    ChainFrame(table, table', other);
  }

  /** The chains after a cut of chain k before element i. */
  function CutChains(chains: seq<seq<nat>>, k: nat, i: nat): seq<seq<nat>>
    requires k < |chains| && i <= |chains[k]|
  {
    if i > 0 then chains[k := chains[k][..i]] else chains[..k] + chains[k + 1..]
  }

  lemma CutDisjoint(chains: seq<seq<nat>>, k: nat, i: nat)
    requires AllDisjoint(chains) && k < |chains| && i <= |chains[k]|
    ensures AllDisjoint(CutChains(chains, k, i))
  {
    if i > 0 {
      forall l | 0 <= l < |chains| && l != k
        ensures Disjoint(chains[k][..i], chains[l]) && Disjoint(chains[l], chains[k][..i])
      {
        assert Disjoint(chains[k], chains[l]) && Disjoint(chains[l], chains[k]);
      }
      DisjointUpdate(chains, k, chains[k][..i]);
    } else {
      hide Disjoint;
    }
  }

  lemma CutCovers(table: seq<nat>, chains: seq<seq<nat>>, k: nat, i: nat, eoc: nat, c: nat)
    requires AllCovered(table, chains) && k < |chains| && i < |chains[k]| && Cluster(table, c)
    requires i > 0 ==> Cluster(table, chains[k][i - 1])
    requires Severed(table, chains[k], i, eoc)[c] != 0
    ensures Covered(CutChains(chains, k, i), c)
  {
    var ch, chains' := chains[k], CutChains(chains, k, i);
    assert c !in ch[i..];
    if i > 0 && c == ch[i - 1] {
      assert At(chains', k, i - 1, c);
    } else {
      var l: nat, j: nat :| At(chains, l, j, c);
      if l == k {
        SuffixMember(ch, i, j);
        assert At(chains', k, j, c);
      } else {
        assert At(chains', if i > 0 || l < k then l else l - 1, j, c);
      }
    }
  }

  lemma SuffixMember(s: seq<nat>, i: nat, j: nat)
    requires i <= |s| && j < |s|
    ensures j >= i ==> s[j] in s[i..]
  {
    if j >= i {
      assert s[i..][j - i] == s[j];
    }
  }

  lemma CutMembers(table: seq<nat>, chains: seq<seq<nat>>, k: nat, i: nat, eoc: nat, l: nat)
    requires Chains(table, chains) && k < |chains| && i < |chains[k]| && eoc >= |table|
    requires i > 0 ==> Cluster(table, chains[k][i - 1])
    requires l < |CutChains(chains, k, i)|
    ensures IsChain(Severed(table, chains[k], i, eoc), CutChains(chains, k, i)[l])
  {
    hide IsChain, Disjoint, Severed;
    if i > 0 && l == k {
      CutChain(table, chains[k], i, eoc);
    } else {
      CutOther(table, chains[k], chains[if i > 0 || l < k then l else l + 1], i, eoc);
    }
  }

  /** Removal keeps the table a set of chains: chain k loses its suffix, or disappears. */
  lemma CutKeepsChains(table: seq<nat>, chains: seq<seq<nat>>, k: nat, i: nat, eoc: nat)
    requires Chains(table, chains) && k < |chains| && i < |chains[k]| && eoc >= |table|
    ensures i > 0 ==> Cluster(table, chains[k][i - 1])
    ensures Chains(Severed(table, chains[k], i, eoc), CutChains(chains, k, i))
  {
    assert IsChain(table, chains[k]);
    assert i > 0 ==> Cluster(table, chains[k][i - 1]);
    hide IsChain, Severed, CutChains, AllDisjoint, Covered, Disjoint;
    var table', chains' := Severed(table, chains[k], i, eoc), CutChains(chains, k, i);
    forall l | 0 <= l < |chains'| ensures IsChain(table', chains'[l]) {
      CutMembers(table, chains, k, i, eoc, l);
    }
    CutDisjoint(chains, k, i);
    forall c: nat | Cluster(table', c) && table'[c] != 0 ensures Covered(chains', c) {
      CutCovers(table, chains, k, i, eoc, c);
    }
  }
}
