/** Which cluster create_chain takes, and what it and remove_chain do to the table and to
    the count of free clusters. */
module FatAlloc {
  import opened FatChain

  /** The cluster the circular search looks at in step k, having started at scl. */
  function Visit(n: nat, scl: nat, k: nat): (c: nat)
    requires 1 <= scl < n && k < n - 2
    ensures 2 <= c < n
  {
    if scl + 1 + k < n then scl + 1 + k else scl + 1 + k - (n - 2)
  }

  /** How many steps after scl the circular search reaches c. */
  function Distance(n: nat, scl: nat, c: nat): int {
    if c > scl then c - scl - 1 else c - scl - 1 + (n - 2)
  }

  lemma VisitDistance(n: nat, scl: nat, c: nat)
    requires 1 <= scl < n && 2 <= c < n
    ensures 0 <= Distance(n, scl, c) < n - 2 && Visit(n, scl, Distance(n, scl, c)) == c
  {
  }

  /** The search from step k on: a free cluster, 1 for a bad entry, 0 when all are used. */
  function Find(table: seq<nat>, scl: nat, k: nat): nat
    requires 1 <= scl < |table| && k <= |table| - 2
    decreases |table| - k
  {
    if k == |table| - 2 then 0
    else
      var c := Visit(|table|, scl, k);
      if table[c] == 0 then c else if table[c] == 1 then 1 else Find(table, scl, k + 1)
  }

  /** c is free and the clusters the search meets before it are not. */
  ghost predicate Nearest(table: seq<nat>, scl: nat, c: nat) {
    && Cluster(table, c) && table[c] == 0
    && forall d: nat :: Cluster(table, d) && Distance(|table|, scl, d) < Distance(|table|, scl, c) ==> table[d] != 0
  }

  ghost predicate BadEntry(table: seq<nat>) {
    exists c: nat :: Cluster(table, c) && table[c] == 1
  }

  lemma {:induction false} FindMeaning(table: seq<nat>, scl: nat, k: nat)
    requires 1 <= scl < |table| && k <= |table| - 2
    requires forall d: nat :: Cluster(table, d) && Distance(|table|, scl, d) < k ==> table[d] != 0
    ensures var r := Find(table, scl, k);
      && (r == 0 ==> forall d: nat :: Cluster(table, d) ==> table[d] != 0)
      && (r == 1 ==> BadEntry(table))
      && (r >= 2 ==> Nearest(table, scl, r))
    decreases |table| - k
  {
    forall d: nat | Cluster(table, d)
        ensures 0 <= Distance(|table|, scl, d) < |table| - 2 && Visit(|table|, scl, Distance(|table|, scl, d)) == d {
      VisitDistance(|table|, scl, d);
    }
    if k < |table| - 2 {
      var c := Visit(|table|, scl, k);
      if table[c] == 0 {
        assert Cluster(table, c) && Distance(|table|, scl, c) == k;
      } else if table[c] == 1 {
        assert Cluster(table, c);
      } else {
        FindMeaning(table, scl, k + 1);
      }
    }
  }

  /** Where the search starts. */
  function Start(table: seq<nat>, last: nat, clst: nat): (s: nat)
    requires |table| >= 3 && (clst == 0 || Cluster(table, clst))
    ensures 1 <= s < |table|
  {
    if clst == 0 then if last == 0 || last >= |table| then 1 else last
    else if 2 <= last < |table| then last else clst
  }

  function Adjacent(table: seq<nat>, clst: nat): nat {
    if clst + 1 >= |table| then 2 else clst + 1
  }

  /** The cluster create_chain takes: the one after clst when stretching and that is free,
      the next free one after the last allocation otherwise. */
  function Choice(table: seq<nat>, last: nat, clst: nat): nat
    requires |table| >= 3 && (clst == 0 || Cluster(table, clst))
  {
    var a := Adjacent(table, clst);
    if clst != 0 && table[a] == 1 then 1
    else if clst != 0 && table[a] == 0 then a
    else Find(table, Start(table, last, clst), 0)
  }

  /** A free cluster is found exactly when there is one, unless a bad entry gets in the way;
      the cluster after clst is preferred, then the nearest. */
  lemma ChoiceMeaning(table: seq<nat>, last: nat, clst: nat)
    requires |table| >= 3 && (clst == 0 || Cluster(table, clst))
    ensures var r := Choice(table, last, clst);
      && (r >= 2 ==> Cluster(table, r) && table[r] == 0)
      && (r == 0 ==> FreeClusters(table) == 0)
      && (r == 1 ==> BadEntry(table))
      && (clst != 0 && table[Adjacent(table, clst)] == 0 ==> r == Adjacent(table, clst))
      && (r >= 2 && r != Adjacent(table, clst) ==> Nearest(table, Start(table, last, clst), r))
    ensures !BadEntry(table) ==> (Choice(table, last, clst) == 0 <==> FreeClusters(table) == 0)
  {
    var a := Adjacent(table, clst);
    assert clst != 0 ==> Cluster(table, a);
    FindMeaning(table, Start(table, last, clst), 0);
    var r := Choice(table, last, clst);
    hide Find, Distance;
    if r == 0 {
      AllUsed(table, |table|);
    } else if r >= 2 && FreeClusters(table) == 0 {
      NoneFree(table, |table|);
    }
  }

  /** The same by cluster numbers: the cluster after clst if it is free; otherwise the first
      free one behind the last allocation, or behind clst or from 2 on if that is not known,
      and from the start of the table if there is none up to its end. */
  lemma ChoiceByNumber(table: seq<nat>, last: nat, clst: nat)
    requires |table| >= 3 && (clst == 0 || 2 <= clst < |table|)
    ensures var r := Choice(table, last, clst);
      var next := if clst + 1 < |table| then clst + 1 else 2;
      var from := if 2 <= last < |table| then last else if clst != 0 then clst else 1;
      r >= 2 ==>
        && r < |table| && table[r] == 0
        && if clst != 0 && table[next] == 0 then r == next
           else if r > from then forall d :: from < d < r ==> table[d] != 0
           else forall d :: 2 <= d < r || from < d < |table| ==> table[d] != 0
  {
    ChoiceMeaning(table, last, clst);
    var r := Choice(table, last, clst);
    hide Choice;
    if r >= 2 && !(clst != 0 && table[Adjacent(table, clst)] == 0) {
      assert Nearest(table, Start(table, last, clst), r);
      assert forall d: nat :: 2 <= d < |table| ==> Cluster(table, d);
    }
  }

  lemma {:induction false} AllUsed(table: seq<nat>, k: nat)
    requires k <= |table| && forall c: nat :: Cluster(table, c) ==> table[c] != 0
    ensures CountFree(table, k) == 0
  {
    if k > 2 {
      AllUsed(table, k - 1);
      assert Cluster(table, k - 1);
    }
  }

  // ---- the outcome of create_chain

  /** clst ends a chain, or a new chain is wanted. */
  predicate Stretches(table: seq<nat>, clst: nat) {
    clst == 0 || (Cluster(table, clst) && table[clst] >= |table|)
  }

  /** The result of create_chain: 1 on a bad argument, the next cluster of the chain if
      there is one, 0 when the volume is full, else the cluster taken. */
  function Outcome(table: seq<nat>, last: nat, free: nat, clst: nat): nat
    requires |table| >= 3
  {
    if Stretches(table, clst) then (if free == 0 then 0 else Choice(table, last, clst))
    else if Cluster(table, clst) && table[clst] >= 2 then table[clst]
    else 1
  }

  /** The outcome is a cluster that was free. */
  predicate Took(table: seq<nat>, last: nat, free: nat, clst: nat)
    requires |table| >= 3
  {
    Stretches(table, clst) && Outcome(table, last, free, clst) >= 2
  }

  function Created(table: seq<nat>, last: nat, free: nat, clst: nat, eoc: nat): (r: seq<nat>)
    requires |table| >= 3
    ensures |r| == |table|
  {
    if Took(table, last, free, clst) then
      ChoiceMeaning(table, last, clst);
      Stretched(table, clst, Outcome(table, last, free, clst), eoc)
    else table
  }

  /** A believable count of free clusters is the true one. */
  predicate Counted(table: seq<nat>, free: nat) {
    free <= |table| - 2 ==> free == FreeClusters(table)
  }

  function Lowered(table: seq<nat>, free: nat): nat {
    if free <= |table| - 2 && free > 0 then free - 1 else free
  }

  function Raised(table: seq<nat>, free: nat): nat {
    if free < |table| - 2 then free + 1 else free
  }

  lemma CreatedCount(table: seq<nat>, last: nat, free: nat, clst: nat, eoc: nat)
    requires |table| >= 3 && Counted(table, free) && eoc >= |table| && Took(table, last, free, clst)
    ensures Counted(Created(table, last, free, clst, eoc), Lowered(table, free))
  {
    ChoiceMeaning(table, last, clst);
    var ncl := Outcome(table, last, free, clst);
    CountUpdate(table, |table|, ncl, eoc);
    if clst != 0 {
      CountUpdate(table[ncl := eoc], |table|, clst, ncl);
    }
  }

  /** With a true count and no bad entry, allocation fails exactly on a full volume. */
  lemma FullOnly(table: seq<nat>, last: nat, free: nat, clst: nat)
    requires |table| >= 3 && Counted(table, free) && Stretches(table, clst) && !BadEntry(table)
    ensures Took(table, last, free, clst) <==> FreeClusters(table) > 0
    ensures Outcome(table, last, free, clst) == 0 <==> FreeClusters(table) == 0
  {
    ChoiceMeaning(table, last, clst);
  }

  /** Allocation keeps the table a set of chains. */
  lemma CreatedChains(table: seq<nat>, chains: seq<seq<nat>>, k: nat, last: nat, free: nat, clst: nat, eoc: nat)
    requires |table| >= 3 && Chains(table, chains) && eoc >= |table| && Took(table, last, free, clst)
    requires clst != 0 ==> k < |chains| && (IsChain(table, chains[k]) ==> chains[k][|chains[k]| - 1] == clst)
    ensures var ncl := Outcome(table, last, free, clst);
      Chains(Created(table, last, free, clst, eoc), if clst == 0 then chains + [[ncl]]
          else chains[k := chains[k] + [ncl]])
  {
    ChoiceMeaning(table, last, clst);
    var ncl := Outcome(table, last, free, clst);
    if clst == 0 {
      NewChainKeepsChains(table, chains, ncl, eoc);
    } else {
      assert IsChain(table, chains[k]);
      StretchKeepsChains(table, chains, k, ncl, eoc);
    }
  }

  // ---- removal on any table

  /** The clusters remove_chain frees on a table that need not consist of chains. */
  lemma {:induction false} FreedFrees(table: seq<nat>, clst: nat)
    requires Cluster(table, clst)
    ensures var r := Freed(table, clst);
      && FreeClusters(r.0) >= FreeClusters(table)
      && (forall c :: 0 <= c < |table| ==> r.0[c] == table[c] || (r.0[c] == 0 && table[c] >= 2))
      && (r.1 ==> r.0[clst] == 0)
    decreases |table| - FreeClusters(table)
  {
    var nxt := table[clst];
    if nxt >= 2 {
      CountUpdate(table, |table|, clst, 0);
      if nxt < |table| {
        FreedFrees(table[clst := 0], nxt);
      }
    }
  }

  lemma FreedCount(table: seq<nat>, clst: nat, free: nat)
    requires Cluster(table, clst) && Counted(table, free) && table[clst] >= 2
    ensures Counted(table[clst := 0], Raised(table, free))
  {
    CountUpdate(table, |table|, clst, 0);
    SomeUsed(table, |table|, clst);
  }

  /** The table remove_chain starts from: the cluster before the cut becomes an end. */
  function Capped(table: seq<nat>, pclst: nat, eoc: nat): (r: seq<nat>)
    requires pclst == 0 || Cluster(table, pclst)
    ensures |r| == |table|
  {
    if pclst == 0 then table else table[pclst := eoc]
  }

  predicate Removable(table: seq<nat>, clst: nat, pclst: nat) {
    Cluster(table, clst) && (pclst == 0 || Cluster(table, pclst))
  }

  /** A free count after k clusters were freed: never above the number of clusters, and
      left alone when it was not believable. */
  function Credited(n: nat, free: nat, k: int): int {
    if free >= n - 2 then free else if free + k > n - 2 then n - 2 else free + k
  }

  /** The table and count when removal from clst on table t0 is complete. */
  predicate Removed(t0: seq<nat>, free0: nat, clst: nat, t: seq<nat>, free: nat, ok: bool) {
    && Cluster(t0, clst) && Freed(t0, clst) == (t, ok)
    && free == Credited(|t0|, free0, FreeClusters(t) - FreeClusters(t0))
    && (Counted(t0, free0) ==> Counted(t, free))
  }

  /** Removal has got as far as cluster c. */
  predicate Removing(t0: seq<nat>, free0: nat, clst: nat, t: seq<nat>, free: nat, c: nat) {
    && Cluster(t0, clst) && |t| == |t0| && Cluster(t, c) && Freed(t0, clst) == Freed(t, c)
    && FreeClusters(t) >= FreeClusters(t0) && free == Credited(|t0|, free0, FreeClusters(t) - FreeClusters(t0))
    && (Counted(t0, free0) ==> Counted(t, free))
  }

  lemma RemovingBegins(t0: seq<nat>, free0: nat, clst: nat)
    requires Cluster(t0, clst)
    ensures Removing(t0, free0, clst, t0, free0, clst)
  {
    hide FreeClusters, Freed;
    assert FreeClusters(t0) - FreeClusters(t0) == 0;
  }

  lemma RemovingStep(t0: seq<nat>, free0: nat, clst: nat, t: seq<nat>, free: nat, c: nat)
    requires Removing(t0, free0, clst, t, free, c)
    ensures Cluster(t, c)
    ensures t[c] == 0 ==> Removed(t0, free0, clst, t, free, true)
    ensures t[c] == 1 ==> Removed(t0, free0, clst, t, free, false)
    ensures t[c] >= 2 ==> var t', free' := t[c := 0], Raised(t, free);
      && FreeClusters(t') == FreeClusters(t) + 1
      && if t[c] < |t| then Removing(t0, free0, clst, t', free', t[c]) else Removed(t0, free0, clst, t', free', true)
  {
    FreedUnfold(t, c);
    if t[c] >= 2 {
      RemovingCount(t0, free0, t, free, c);
    }
  }

  lemma FreedUnfold(t: seq<nat>, c: nat)
    requires Cluster(t, c)
    ensures t[c] == 0 ==> Freed(t, c) == (t, true)
    ensures t[c] == 1 ==> Freed(t, c) == (t, false)
    ensures t[c] >= 2 ==> Freed(t, c) == if t[c] < |t| then Freed(t[c := 0], t[c]) else (t[c := 0], true)
  {
  }

  lemma RemovingCount(t0: seq<nat>, free0: nat, t: seq<nat>, free: nat, c: nat)
    requires |t| == |t0| && Cluster(t, c) && t[c] >= 2
    requires free == Credited(|t0|, free0, FreeClusters(t) - FreeClusters(t0)) && FreeClusters(t) >= FreeClusters(t0)
    requires Counted(t0, free0) ==> Counted(t, free)
    ensures FreeClusters(t[c := 0]) == FreeClusters(t) + 1
    ensures Raised(t, free) == Credited(|t0|, free0, FreeClusters(t[c := 0]) - FreeClusters(t0))
    ensures Counted(t0, free0) ==> Counted(t[c := 0], Raised(t, free))
  {
    CountUpdate(t, |t|, c, 0);
    if Counted(t, free) {
      FreedCount(t, c, free);
    }
  }

  /** Removing a chain from element i on frees exactly the rest of it. */
  lemma RemovedSuffix(table: seq<nat>, ch: seq<nat>, i: nat, eoc: nat)
    requires IsChain(table, ch) && i < |ch| && eoc >= |table|
    ensures var pclst := if i == 0 then 0 else ch[i - 1];
      && (pclst == 0 || Cluster(table, pclst)) && Cluster(table, ch[i])
      && Freed(Capped(table, pclst, eoc), ch[i]) == (Severed(table, ch, i, eoc), true)
      && FreeClusters(Severed(table, ch, i, eoc)) == FreeClusters(table) + (|ch| - i)
  {
    var pclst := if i == 0 then 0 else ch[i - 1];
    assert i > 0 ==> Cluster(table, ch[i - 1]);
    var t := Capped(table, pclst, eoc);
    FreedSuffix(t, ch, i);
    if i > 0 {
      ChainUsed(table, ch, i - 1);
      CountUpdate(table, |table|, pclst, eoc);
    }
  }
}
