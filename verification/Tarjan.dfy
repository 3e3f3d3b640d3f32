/** Directed graphs as the include-cycle script stores them: a dictionary from a
    node to the list of its successors, where a successor need not be a key. */
module Digraph {

  function Successors<V>(g: map<V, seq<V>>, v: V): seq<V> {
    if v in g then g[v] else []
  }

  predicate Edge<V(==)>(g: map<V, seq<V>>, x: V, y: V) {
    y in Successors(g, x)
  }

  ghost predicate IsPath<V>(g: map<V, seq<V>>, p: seq<V>) {
    |p| > 0 && forall i :: 0 <= i < |p| - 1 ==> Edge(g, p[i], p[i + 1])
  }

  /** y can be reached from x by following zero or more edges. */
  ghost predicate Reach<V(!new)>(g: map<V, seq<V>>, x: V, y: V) {
    exists p :: IsPath(g, p) && p[0] == x && p[|p| - 1] == y
  }

  ghost predicate Mutual<V(!new)>(g: map<V, seq<V>>, x: V, y: V) {
    Reach(g, x, y) && Reach(g, y, x)
  }

  ghost predicate Closed<V(!new)>(g: map<V, seq<V>>, s: set<V>) {
    forall x, y :: x in s && Edge(g, x, y) ==> y in s
  }

  lemma ReachRefl<V(!new)>(g: map<V, seq<V>>, x: V)
    ensures Reach(g, x, x)
  {
    assert IsPath(g, [x]);
  }

  lemma ReachEdge<V(!new)>(g: map<V, seq<V>>, x: V, y: V)
    requires Edge(g, x, y)
    ensures Reach(g, x, y)
  {
    assert IsPath(g, [x, y]);
  }

  lemma ReachTrans<V(!new)>(g: map<V, seq<V>>, x: V, y: V, z: V)
    requires Reach(g, x, y) && Reach(g, y, z)
    ensures Reach(g, x, z)
  {
    var p :| IsPath(g, p) && p[0] == x && p[|p| - 1] == y;
    var q :| IsPath(g, q) && q[0] == y && q[|q| - 1] == z;
    var r := p + q[1..];
    forall i | 0 <= i < |r| - 1 ensures Edge(g, r[i], r[i + 1]) {
      if i >= |p| - 1 {
        assert r[i] == q[i - (|p| - 1)];
      }
    }
    assert IsPath(g, r);
  }

  /** A closed set contains whatever its members reach. */
  lemma {:induction false} ClosedReach<V(!new)>(g: map<V, seq<V>>, s: set<V>, x: V, y: V)
    requires Closed(g, s) && x in s && Reach(g, x, y)
    ensures y in s
  {
    var p :| IsPath(g, p) && p[0] == x && p[|p| - 1] == y;
    var i := 0;
    while i < |p| - 1
      invariant 0 <= i < |p|
      invariant p[i] in s
    {
      assert Edge(g, p[i], p[i + 1]);
      i := i + 1;
    }
  }
}

/** strongly_connected_components of Tools/find-includes-cycles.py. */
module Tarjan {
  import opened Digraph

  ghost function Elems<V>(s: seq<V>): set<V> {
    set v | v in s
  }

  /** Every node in one of the first k components. */
  ghost function Emitted<V>(result: seq<seq<V>>, k: nat): set<V>
    requires k <= |result|
  {
    set i, v | 0 <= i < k && v in result[i] :: v
  }

  ghost predicate IsComponent<V(!new)>(g: map<V, seq<V>>, c: seq<V>) {
    && |c| > 0
    && (forall i, j :: 0 <= i < j < |c| ==> c[i] != c[j])
    && (forall x, y :: x in c ==> (y in c <==> Mutual(g, x, y)))
  }

  /** The components emitted so far: each is a full mutual-reachability class, and
      each prefix of the list is closed under edges, so a component comes out only
      after every other component it can reach. */
  ghost predicate GoodResult<V(!new)>(g: map<V, seq<V>>, result: seq<seq<V>>) {
    && (forall k :: 0 <= k < |result| ==> IsComponent(g, result[k]))
    && (forall k :: 0 <= k <= |result| ==> Closed(g, Emitted(result, k)))
    && (forall k :: 0 <= k < |result| ==> Emitted(result, k) !! Elems(result[k]))
  }

  /** The variables shared by the nested function, as one value. */
  datatype State<V> = State(
    counter: nat, stack: seq<V>, lowlinks: map<V, nat>, index: map<V, nat>, result: seq<seq<V>>)
  {
    ghost function Done(): set<V> { Emitted(result, |result|) }
  }

  /** Stack and numbering bookkeeping. */
  ghost predicate Numbered<V(!new)>(s: State<V>) {
    && s.index.Keys == s.lowlinks.Keys
    && s.index.Keys == Elems(s.stack) + s.Done()
    && Elems(s.stack) !! s.Done()
    && (forall v :: v in s.index ==> s.index[v] < s.counter)
    && (forall i, j :: 0 <= i < j < |s.stack| ==> s.index[s.stack[i]] < s.index[s.stack[j]])
  }

  /** A node of the stack reaches the node of an active call that is not above it. */
  ghost predicate LeadsToGray<V(!new)>(g: map<V, seq<V>>, s: State<V>, grays: set<V>, y: V)
    requires y in s.index
  {
    exists x :: x in grays && x in s.index && s.index[x] <= s.index[y] && Reach(g, y, x)
  }

  /** Every node of the stack whose call is over has only visited successors. */
  ghost predicate NoUnvisited<V(!new)>(g: map<V, seq<V>>, s: State<V>, grays: set<V>) {
    forall x, y :: x in s.stack && x !in grays && Edge(g, x, y) ==> y in s.index
  }

  /** A node of the stack reaches everything above it. */
  ghost predicate Ascending<V(!new)>(g: map<V, seq<V>>, stack: seq<V>) {
    forall i, j {:trigger Reach(g, stack[i], stack[j])} :: 0 <= i <= j < |stack| ==> Reach(g, stack[i], stack[j])
  }

  ghost predicate Anchored<V(!new)>(g: map<V, seq<V>>, s: State<V>, grays: set<V>) {
    && (forall y :: y in s.stack ==> y in s.index)
    && (forall y {:trigger LeadsToGray(g, s, grays, y)} :: y in s.stack ==> LeadsToGray(g, s, grays, y))
  }

  /** grays are the nodes whose calls are active. */
  ghost predicate Inv<V(!new)>(g: map<V, seq<V>>, s: State<V>, grays: set<V>) {
    && Numbered(s)
    && GoodResult(g, s.result)
    && grays <= Elems(s.stack)
    && NoUnvisited(g, s, grays)
    && Ascending(g, s.stack)
    && Anchored(g, s, grays)
  }

  /** What a later state keeps of an earlier one. */
  ghost predicate Extends<V(!new)>(a: State<V>, b: State<V>) {
    && a.stack <= b.stack
    && a.result <= b.result
    && a.counter <= b.counter
    && (forall v :: v in a.index ==> v in b.index && b.index[v] == a.index[v])
    && (forall v :: v in a.lowlinks ==> v in b.lowlinks && b.lowlinks[v] == a.lowlinks[v])
    && (forall v :: v in b.index && v !in a.index ==> b.index[v] >= a.counter)
  }

  /** low bounds the numbers of the nodes in `base` that some node pushed above
      `base` points at; of `node` itself only the first k successors count. */
  ghost predicate LowBound<V(!new)>(g: map<V, seq<V>>, s: State<V>, base: seq<V>, node: V, k: nat, low: nat)
    requires base <= s.stack && (forall v :: v in s.stack ==> v in s.index)
  {
    && (forall i, y :: |base| <= i < |s.stack| && s.stack[i] != node && y in base && Edge(g, s.stack[i], y)
         ==> low <= s.index[y])
    && (forall j :: 0 <= j < k && j < |Successors(g, node)| && Successors(g, node)[j] in base
         ==> low <= s.index[Successors(g, node)[j]])
  }

  /** low is the number of a node on the stack that `node` reaches. */
  ghost predicate LowWitness<V(!new)>(g: map<V, seq<V>>, s: State<V>, node: V, low: nat) {
    exists y :: y in s.stack && y in s.index && s.index[y] == low && Reach(g, node, y)
  }

  // ---- the three ways a call changes the state

  function Entered<V>(s: State<V>, node: V): State<V> {
    State(s.counter + 1, s.stack + [node], s.lowlinks[node := s.counter], s.index[node := s.counter], s.result)
  }

  lemma EnterAscending<V(!new)>(g: map<V, seq<V>>, s: State<V>, grays: set<V>, node: V)
    requires Ascending(g, s.stack) && Anchored(g, s, grays)
    requires forall x :: x in grays ==> Reach(g, x, node)
    ensures Ascending(g, s.stack + [node])
  {
    var stack' := s.stack + [node];
    forall i, j | 0 <= i <= j < |stack'|
      ensures Reach(g, stack'[i], stack'[j])
    {
      if j < |s.stack| {
        assert Reach(g, s.stack[i], s.stack[j]);
      } else if i < j {
        assert LeadsToGray(g, s, grays, s.stack[i]);
        var x :| x in grays && x in s.index && s.index[x] <= s.index[s.stack[i]] && Reach(g, s.stack[i], x);
        ReachTrans(g, s.stack[i], x, node);
      } else {
        ReachRefl(g, node);
      }
    }
  }

  lemma EnterAnchored<V(!new)>(g: map<V, seq<V>>, s: State<V>, grays: set<V>, node: V)
    requires Anchored(g, s, grays) && node !in s.index
    ensures Anchored(g, Entered(s, node), grays + {node})
  {
    var s' := Entered(s, node);
    forall y | y in s'.stack
      ensures LeadsToGray(g, s', grays + {node}, y)
    {
      if y == node {
        ReachRefl(g, node);
      } else {
        assert y in s.stack && LeadsToGray(g, s, grays, y);
      }
    }
  }

  lemma EnterNumbered<V(!new)>(s: State<V>, node: V)
    requires Numbered(s) && node !in s.index
    ensures Numbered(Entered(s, node))
  {
    var s' := Entered(s, node);
    assert Elems(s'.stack) == Elems(s.stack) + {node};
    forall i, j | 0 <= i < j < |s'.stack|
      ensures s'.index[s'.stack[i]] < s'.index[s'.stack[j]]
    {
      assert s.stack[i] in Elems(s.stack);
      if j < |s.stack| {
        assert s.stack[j] in Elems(s.stack);
      }
    }
  }

  lemma EnterKeepsInv<V(!new)>(g: map<V, seq<V>>, s: State<V>, grays: set<V>, node: V)
    requires Inv(g, s, grays) && node !in s.index
    requires forall x :: x in grays ==> Reach(g, x, node)
    ensures Inv(g, Entered(s, node), grays + {node})
    ensures Extends(s, Entered(s, node))
  {
    EnterAscending(g, s, grays, node);
    EnterAnchored(g, s, grays, node);
    EnterNumbered(s, node);
  }

  lemma LeaveAnchored<V(!new)>(g: map<V, seq<V>>, s: State<V>, grays: set<V>, node: V, low: nat)
    requires Anchored(g, s, grays + {node})
    requires node in s.index && low < s.index[node] && LowWitness(g, s, node, low)
    ensures Anchored(g, s, grays)
  {
    var z :| z in s.stack && z in s.index && s.index[z] == low && Reach(g, node, z);
    assert LeadsToGray(g, s, grays + {node}, z);
    var x0 :| x0 in grays + {node} && x0 in s.index && s.index[x0] <= s.index[z] && Reach(g, z, x0);
    ReachTrans(g, node, z, x0);
    forall y | y in s.stack
      ensures LeadsToGray(g, s, grays, y)
    {
      assert LeadsToGray(g, s, grays + {node}, y);
      var x :| x in grays + {node} && x in s.index && s.index[x] <= s.index[y] && Reach(g, y, x);
      if x == node {
        ReachTrans(g, y, node, x0);
      }
    }
  }

  /** A call that does not emit a component leaves its node on the stack. */
  lemma LeaveKeepsInv<V(!new)>(g: map<V, seq<V>>, s: State<V>, grays: set<V>, node: V, low: nat)
    requires Inv(g, s, grays + {node})
    requires node in s.index && low < s.index[node] && LowWitness(g, s, node, low)
    requires forall y :: Edge(g, node, y) ==> y in s.index
    ensures Inv(g, s, grays)
  {
    LeaveAnchored(g, s, grays, node, low);
  }

  // ---- emitting a component: the stack is base + seg with node at the bottom of seg

  ghost predicate AtRoot<V(!new)>(g: map<V, seq<V>>, s: State<V>, grays: set<V>, node: V, base: seq<V>, seg: seq<V>) {
    && Inv(g, s, grays + {node})
    && grays <= Elems(base)
    && s.stack == base + seg && |seg| > 0 && seg[0] == node
    && LowBound(g, s, base, node, |Successors(g, node)|, s.index[node])
    && (forall y :: Edge(g, node, y) ==> y in s.index)
  }

  lemma SegmentApart<V(!new)>(s: State<V>, base: seq<V>, seg: seq<V>)
    requires Numbered(s) && s.stack == base + seg
    ensures Elems(s.stack) == Elems(base) + Elems(seg) && Elems(base) !! Elems(seg)
    ensures forall y :: y in base ==> y in s.index && (|seg| > 0 ==> s.index[y] < s.index[seg[0]])
    ensures forall y :: y in seg ==> y in s.index
  {
    forall i, j | 0 <= i < |base| && 0 <= j < |seg|
      ensures base[i] != seg[j]
    {
      assert s.stack[i] == base[i] && s.stack[|base| + j] == seg[j];
    }
    forall y | y in base
      ensures y in Elems(s.stack) && (|seg| > 0 ==> s.index[y] < s.index[seg[0]])
    {
      var i :| 0 <= i < |base| && base[i] == y;
      assert s.stack[i] == y;
      assert y in Elems(s.stack);
      if |seg| > 0 {
        assert s.stack[|base|] == seg[0];
      }
    }
    forall y | y in seg
      ensures y in Elems(s.stack)
    {
      assert y in s.stack;
    }
  }

  lemma SegmentClosed<V(!new)>(g: map<V, seq<V>>, s: State<V>, grays: set<V>, node: V, base: seq<V>, seg: seq<V>)
    requires AtRoot(g, s, grays, node, base, seg)
    ensures Closed(g, Elems(seg) + s.Done())
  {
    SegmentApart(s, base, seg);
    forall x, y | x in Elems(seg) + s.Done() && Edge(g, x, y)
      ensures y in Elems(seg) + s.Done()
    {
      if x in seg {
        var i :| 0 <= i < |seg| && seg[i] == x;
        assert s.stack[|base| + i] == x;
        assert y in s.index;
        if y in base {
          assert false;
        }
      } else {
        assert Closed(g, Emitted(s.result, |s.result|));
      }
    }
  }

  lemma SegmentToRoot<V(!new)>(g: map<V, seq<V>>, s: State<V>, grays: set<V>, node: V, base: seq<V>, seg: seq<V>, x: V)
    requires AtRoot(g, s, grays, node, base, seg) && x in seg
    ensures Mutual(g, node, x)
  {
    SegmentApart(s, base, seg);
    SegmentClosed(g, s, grays, node, base, seg);
    var i :| 0 <= i < |seg| && seg[i] == x;
    assert Reach(g, s.stack[|base|], s.stack[|base| + i]);
    assert x in s.stack && LeadsToGray(g, s, grays + {node}, x);
    var w :| w in grays + {node} && w in s.index && s.index[w] <= s.index[x] && Reach(g, x, w);
    ClosedReach(g, Elems(seg) + s.Done(), x, w);
  }

  lemma SegmentIsComponent<V(!new)>(g: map<V, seq<V>>, s: State<V>, grays: set<V>, node: V, base: seq<V>, seg: seq<V>,
      c: seq<V>)
    requires AtRoot(g, s, grays, node, base, seg)
    requires Elems(c) == Elems(seg) && (forall i, j :: 0 <= i < j < |c| ==> c[i] != c[j])
    ensures IsComponent(g, c)
  {
    SegmentApart(s, base, seg);
    assert node in Elems(c);
    forall x, y | x in c
      ensures y in c <==> Mutual(g, x, y)
    {
      assert x in Elems(c);
      SegmentToRoot(g, s, grays, node, base, seg, x);
      if y in c {
        assert y in Elems(c);
        SegmentToRoot(g, s, grays, node, base, seg, y);
        ReachTrans(g, x, node, y);
        ReachTrans(g, y, node, x);
      } else if Mutual(g, x, y) {
        SegmentClosed(g, s, grays, node, base, seg);
        ClosedReach(g, Elems(seg) + s.Done(), x, y);
        assert y !in Elems(c) && y in s.Done();
        ClosedReach(g, s.Done(), y, x);
        assert false;
      }
    }
  }

  lemma EmitGoodResult<V(!new)>(g: map<V, seq<V>>, r: seq<seq<V>>, c: seq<V>)
    requires GoodResult(g, r) && IsComponent(g, c)
    requires Emitted(r, |r|) !! Elems(c) && Closed(g, Elems(c) + Emitted(r, |r|))
    ensures GoodResult(g, r + [c])
    ensures Emitted(r + [c], |r| + 1) == Emitted(r, |r|) + Elems(c)
  {
    var r' := r + [c];
    forall k | 0 <= k <= |r| ensures Emitted(r', k) == Emitted(r, k) {
      assert forall i :: 0 <= i < k ==> r'[i] == r[i];
    }
    assert r'[|r|] == c;
    assert Emitted(r', |r| + 1) == Emitted(r, |r|) + Elems(c);
    assert Elems(c) + Emitted(r, |r|) == Emitted(r, |r|) + Elems(c);
  }

  function Popped<V>(s: State<V>, base: seq<V>, c: seq<V>): State<V> {
    s.(stack := base, result := s.result + [c])
  }

  lemma PopAnchored<V(!new)>(g: map<V, seq<V>>, s: State<V>, grays: set<V>, node: V, base: seq<V>, seg: seq<V>,
      c: seq<V>)
    requires AtRoot(g, s, grays, node, base, seg)
    ensures Anchored(g, Popped(s, base, c), grays)
  {
    SegmentApart(s, base, seg);
    var s' := Popped(s, base, c);
    forall y | y in base
      ensures LeadsToGray(g, s', grays, y)
    {
      assert y in s.stack;
      assert LeadsToGray(g, s, grays + {node}, y);
      var x :| x in grays + {node} && x in s.index && s.index[x] <= s.index[y] && Reach(g, y, x);
      assert x in grays;
    }
  }

  lemma PopNumbered<V(!new)>(s: State<V>, base: seq<V>, seg: seq<V>, c: seq<V>)
    requires Numbered(s) && s.stack == base + seg && Elems(c) == Elems(seg)
    requires Emitted(s.result + [c], |s.result| + 1) == s.Done() + Elems(c)
    ensures Numbered(Popped(s, base, c))
  {
    SegmentApart(s, base, seg);
    assert forall i :: 0 <= i < |base| ==> base[i] == s.stack[i];
  }

  lemma PopKeepsInv<V(!new)>(g: map<V, seq<V>>, s: State<V>, grays: set<V>, node: V, base: seq<V>, seg: seq<V>,
      c: seq<V>)
    requires AtRoot(g, s, grays, node, base, seg)
    requires Elems(c) == Elems(seg) && (forall i, j :: 0 <= i < j < |c| ==> c[i] != c[j])
    ensures Inv(g, Popped(s, base, c), grays)
  {
    SegmentIsComponent(g, s, grays, node, base, seg, c);
    SegmentClosed(g, s, grays, node, base, seg);
    SegmentApart(s, base, seg);
    EmitGoodResult(g, s.result, c);
    PopNumbered(s, base, seg, c);
    PopAnchored(g, s, grays, node, base, seg, c);
    PopRest(g, s, grays, node, base, seg);
  }

  lemma PopRest<V(!new)>(g: map<V, seq<V>>, s: State<V>, grays: set<V>, node: V, base: seq<V>, seg: seq<V>)
    requires AtRoot(g, s, grays, node, base, seg)
    ensures Ascending(g, base)
    ensures forall x, y :: x in base && x !in grays && Edge(g, x, y) ==> y in s.index
  {
    SegmentApart(s, base, seg);
    forall i, j | 0 <= i <= j < |base|
      ensures Reach(g, base[i], base[j])
    {
      assert Reach(g, s.stack[i], s.stack[j]);
    }
    forall x, y | x in base && x !in grays && Edge(g, x, y)
      ensures y in s.index
    {
      assert x in s.stack && x != node;
    }
  }

  // ---- what the lowlink of a node says when its call returns

  ghost predicate Outcome<V(!new)>(g: map<V, seq<V>>, s0: State<V>, s: State<V>, node: V) {
    && s0.stack <= s.stack
    && (forall v :: v in s.stack ==> v in s.index)
    && node in s.index && node in s.lowlinks && s.index[node] == s0.counter
    && s.lowlinks[node] <= s.index[node]
    && (s.lowlinks[node] == s.index[node] ==> s.stack == s0.stack)
    && (s.lowlinks[node] < s.index[node] ==>
          && |s0.stack| < |s.stack| && s.stack[|s0.stack|] == node
          && LowWitness(g, s, node, s.lowlinks[node])
          && LowBound(g, s, s0.stack, node, |Successors(g, node)|, s.lowlinks[node]))
  }

  /** The call of node is active and node lies just above the stack it found. */
  ghost predicate Active<V(!new)>(g: map<V, seq<V>>, s0: State<V>, s: State<V>, grays: set<V>, node: V) {
    && Extends(s0, s)
    && (forall v :: v in s.stack ==> v in s.index)
    && node in s.index && node in s.lowlinks && node !in s0.lowlinks && s.index[node] == s0.counter
    && |s0.stack| < |s.stack| && s.stack[|s0.stack|] == node
    && grays <= Elems(s0.stack) && (forall x :: x in grays ==> Reach(g, x, node))
    && s.lowlinks[node] <= s.index[node]
  }

  /** Between two successors of node: k of them have been looked at. */
  ghost predicate Midway<V(!new)>(g: map<V, seq<V>>, s0: State<V>, s: State<V>, grays: set<V>, node: V, k: nat) {
    && Active(g, s0, s, grays, node)
    && k <= |Successors(g, node)|
    && (forall j :: 0 <= j < k ==> Successors(g, node)[j] in s.index)
    && LowWitness(g, s, node, s.lowlinks[node])
    && LowBound(g, s, s0.stack, node, k, s.lowlinks[node])
  }

  function Lowered<V>(s: State<V>, node: V, x: nat): State<V>
    requires node in s.lowlinks
  {
    s.(lowlinks := s.lowlinks[node := if x < s.lowlinks[node] then x else s.lowlinks[node]])
  }

  lemma LoweredKeepsInv<V(!new)>(g: map<V, seq<V>>, s: State<V>, grays: set<V>, node: V, x: nat)
    requires Inv(g, s, grays) && node in s.lowlinks
    ensures Inv(g, Lowered(s, node, x), grays)
  {
    var s' := Lowered(s, node, x);
    assert Anchored(g, s', grays) by {
      forall y | y in s'.stack ensures LeadsToGray(g, s', grays, y) {
        assert LeadsToGray(g, s, grays, y);
      }
    }
  }

  lemma MidwayEntered<V(!new)>(g: map<V, seq<V>>, s: State<V>, grays: set<V>, node: V)
    requires Inv(g, s, grays) && node !in s.index
    requires forall x :: x in grays ==> Reach(g, x, node)
    ensures Inv(g, Entered(s, node), grays + {node}) && Midway(g, s, Entered(s, node), grays, node, 0)
  {
    EnterKeepsInv(g, s, grays, node);
    ReachRefl(g, node);
    assert Entered(s, node).stack[|s.stack|] == node;
  }

  lemma SeenWitness<V(!new)>(g: map<V, seq<V>>, s: State<V>, node: V, w: V)
    requires node in s.lowlinks && Edge(g, node, w) && w in s.stack && w in s.index
    requires LowWitness(g, s, node, s.lowlinks[node])
    ensures var s' := Lowered(s, node, s.index[w]); LowWitness(g, s', node, s'.lowlinks[node])
  {
    ReachEdge(g, node, w);
  }

  lemma SeenLowBound<V(!new)>(g: map<V, seq<V>>, s: State<V>, base: seq<V>, node: V, k: nat, low: nat)
    requires base <= s.stack && (forall v :: v in s.stack ==> v in s.index)
    requires node in s.lowlinks && k < |Successors(g, node)| && LowBound(g, s, base, node, k, low)
    ensures var w := Successors(g, node)[k];
      && (w !in s.stack ==> LowBound(g, s, base, node, k + 1, low))
      && (w in s.stack ==> LowBound(g, Lowered(s, node, s.index[w]), base, node, k + 1,
                                    if s.index[w] < low then s.index[w] else low))
  {
    assert forall y :: y in base ==> y in s.stack;
  }

  lemma MidwaySeenOff<V(!new)>(g: map<V, seq<V>>, s0: State<V>, s: State<V>, grays: set<V>, node: V, k: nat)
    requires Midway(g, s0, s, grays, node, k) && k < |Successors(g, node)|
    requires Successors(g, node)[k] in s.index && Successors(g, node)[k] !in s.stack
    ensures Midway(g, s0, s, grays, node, k + 1)
  {
    SeenLowBound(g, s, s0.stack, node, k, s.lowlinks[node]);
  }

  lemma LoweredActive<V(!new)>(g: map<V, seq<V>>, s0: State<V>, s: State<V>, grays: set<V>, node: V, x: nat)
    requires Active(g, s0, s, grays, node)
    ensures Active(g, s0, Lowered(s, node, x), grays, node)
  {
  }

  lemma MidwaySeenOn<V(!new)>(g: map<V, seq<V>>, s0: State<V>, s: State<V>, grays: set<V>, node: V, k: nat)
    requires Midway(g, s0, s, grays, node, k) && k < |Successors(g, node)|
    requires Successors(g, node)[k] in s.index && Successors(g, node)[k] in s.stack
    ensures Midway(g, s0, Lowered(s, node, s.index[Successors(g, node)[k]]), grays, node, k + 1)
  {
    var w := Successors(g, node)[k];
    SeenLowBound(g, s, s0.stack, node, k, s.lowlinks[node]);
    LoweredActive(g, s0, s, grays, node, s.index[w]);
    SeenWitness(g, s, node, w);
  }

  /** Every active node reaches the successor about to be visited. */
  lemma CallersReach<V(!new)>(g: map<V, seq<V>>, s0: State<V>, s: State<V>, grays: set<V>, node: V, k: nat, x: V)
    requires Midway(g, s0, s, grays, node, k) && k < |Successors(g, node)|
    requires x in grays + {node}
    ensures Reach(g, x, Successors(g, node)[k])
  {
    var w := Successors(g, node)[k];
    ReachEdge(g, node, w);
    if x != node {
      ReachTrans(g, x, node, w);
    }
  }

  // ---- after the call on an unvisited successor w, which turned s into s'

  lemma CalledActive<V(!new)>(g: map<V, seq<V>>, s0: State<V>, s: State<V>, s': State<V>, grays: set<V>, node: V)
    requires Active(g, s0, s, grays, node) && Extends(s, s')
    requires forall v :: v in s'.stack ==> v in s'.index
    ensures Active(g, s0, s', grays, node)
  {
  }

  lemma CalledWitness<V(!new)>(g: map<V, seq<V>>, s: State<V>, s': State<V>, node: V, w: V)
    requires node in s.lowlinks && LowWitness(g, s, node, s.lowlinks[node]) && Extends(s, s')
    requires Edge(g, node, w) && Outcome(g, s, s', w)
    requires node in s.index && s.index[node] < s.counter && s.lowlinks[node] <= s.index[node]
    ensures var t := Lowered(s', node, s'.lowlinks[w]); LowWitness(g, t, node, t.lowlinks[node])
  {
    var t := Lowered(s', node, s'.lowlinks[w]);
    if s'.lowlinks[w] < s.lowlinks[node] {
      var y :| y in s'.stack && y in s'.index && s'.index[y] == s'.lowlinks[w] && Reach(g, w, y);
      ReachEdge(g, node, w);
      ReachTrans(g, node, w, y);
      assert y in t.stack && t.index[y] == t.lowlinks[node];
    } else {
      var y :| y in s.stack && y in s.index && s.index[y] == s.lowlinks[node] && Reach(g, node, y);
      assert y in t.stack && t.index[y] == t.lowlinks[node];
    }
  }

  lemma CalledLowBound<V(!new)>(g: map<V, seq<V>>, s: State<V>, s': State<V>, base: seq<V>, node: V, k: nat, w: V)
    requires base <= s.stack && node in s.lowlinks && (forall v :: v in s.stack ==> v in s.index)
    requires LowBound(g, s, base, node, k, s.lowlinks[node]) && Extends(s, s')
    requires k < |Successors(g, node)| && Successors(g, node)[k] == w && w !in s.index
    requires Outcome(g, s, s', w)
    ensures var t := Lowered(s', node, s'.lowlinks[w]); LowBound(g, t, base, node, k + 1, t.lowlinks[node])
  {
    var t := Lowered(s', node, s'.lowlinks[w]);
    var low := t.lowlinks[node];
    assert forall y :: y in base ==> y in s.stack;
    forall i, y | |base| <= i < |t.stack| && t.stack[i] != node && y in base && Edge(g, t.stack[i], y)
      ensures low <= t.index[y]
    {
      if i < |s.stack| {
        assert s.stack[i] == t.stack[i];
      } else if t.stack[i] == w {
        var j :| 0 <= j < |Successors(g, w)| && Successors(g, w)[j] == y;
      }
    }
  }

  lemma MidwayCalled<V(!new)>(g: map<V, seq<V>>, s0: State<V>, s: State<V>, s': State<V>, grays: set<V>, node: V,
      k: nat)
    requires Midway(g, s0, s, grays, node, k) && k < |Successors(g, node)|
    requires Successors(g, node)[k] !in s.index && s.index[node] < s.counter
    requires Extends(s, s') && Outcome(g, s, s', Successors(g, node)[k])
    ensures Midway(g, s0, Lowered(s', node, s'.lowlinks[Successors(g, node)[k]]), grays, node, k + 1)
  {
    hide Reach, LowBound, LowWitness;
    var w := Successors(g, node)[k];
    assert Edge(g, node, w);
    CalledActive(g, s0, s, s', grays, node);
    CalledWitness(g, s, s', node, w);
    CalledLowBound(g, s, s', s0.stack, node, k, w);
    LoweredActive(g, s0, s', grays, node, s'.lowlinks[w]);
  }

  // ---- the end of a call

  lemma FinishLeave<V(!new)>(g: map<V, seq<V>>, s0: State<V>, s: State<V>, grays: set<V>, node: V)
    requires Inv(g, s, grays + {node}) && Midway(g, s0, s, grays, node, |Successors(g, node)|)
        && s.lowlinks[node] != s.index[node]
    ensures Inv(g, s, grays) && Extends(s0, s) && Outcome(g, s0, s, node)
  {
    LeaveKeepsInv(g, s, grays, node, s.lowlinks[node]);
  }

  lemma FinishEmit<V(!new)>(g: map<V, seq<V>>, s0: State<V>, s: State<V>, grays: set<V>, node: V, c: seq<V>)
    requires Inv(g, s, grays + {node}) && Midway(g, s0, s, grays, node, |Successors(g, node)|)
    requires s.lowlinks[node] == s.index[node] && |c| == |s.stack| - |s0.stack|
    requires forall i :: 0 <= i < |c| ==> c[i] == s.stack[|s.stack| - 1 - i]
    ensures Inv(g, Popped(s, s0.stack, c), grays)
    ensures Extends(s0, Popped(s, s0.stack, c)) && Outcome(g, s0, Popped(s, s0.stack, c), node)
  {
    hide Reach, Ascending, NoUnvisited, Anchored, GoodResult, LowWitness;
    var seg := s.stack[|s0.stack|..];
    assert s.stack == s0.stack + seg;
    PoppedOrder(s, s0.stack, c);
    PoppedOutcome(g, s0, s, grays, node, c);
    hide Extends, Outcome, Numbered;
    PopKeepsInv(g, s, grays, node, s0.stack, seg, c);
  }

  lemma PoppedOutcome<V(!new)>(g: map<V, seq<V>>, s0: State<V>, s: State<V>, grays: set<V>, node: V, c: seq<V>)
    requires Active(g, s0, s, grays, node) && s.lowlinks[node] == s.index[node]
    ensures Extends(s0, Popped(s, s0.stack, c)) && Outcome(g, s0, Popped(s, s0.stack, c), node)
  {
    assert forall v :: v in s0.stack ==> v in s.stack;
  }

  lemma PoppedOrder<V(!new)>(s: State<V>, base: seq<V>, c: seq<V>)
    requires base <= s.stack && |c| == |s.stack| - |base|
    requires forall i :: 0 <= i < |c| ==> c[i] == s.stack[|s.stack| - 1 - i]
    requires Numbered(s)
    ensures Elems(c) == Elems(s.stack[|base|..])
    ensures forall i, j :: 0 <= i < j < |c| ==> c[i] != c[j]
  {
    PoppedDistinct(s, c);
    var seg := s.stack[|base|..];
    forall v | v in seg ensures v in c {
      var j :| 0 <= j < |seg| && seg[j] == v;
      assert c[|c| - 1 - j] == v;
    }
    forall v | v in c ensures v in seg {
      var i :| 0 <= i < |c| && c[i] == v;
      assert seg[|seg| - 1 - i] == v;
    }
  }

  lemma PoppedDistinct<V(!new)>(s: State<V>, c: seq<V>)
    requires Numbered(s) && |c| <= |s.stack|
    requires forall i :: 0 <= i < |c| ==> c[i] == s.stack[|s.stack| - 1 - i]
    ensures forall i, j :: 0 <= i < j < |c| ==> c[i] != c[j]
  {
    forall i, j | 0 <= i < j < |c| ensures c[i] != c[j] {
      assert s.index[s.stack[|s.stack| - 1 - j]] < s.index[s.stack[|s.stack| - 1 - i]];
    }
  }

  /** What the code itself needs to know between two successors. */
  lemma MidwayFacts<V(!new)>(g: map<V, seq<V>>, s0: State<V>, s: State<V>, grays: set<V>, node: V, k: nat)
    requires Inv(g, s, grays + {node}) && Midway(g, s0, s, grays, node, k)
    ensures s.index.Keys == s.lowlinks.Keys && node in s.index && s.index[node] < s.counter
    ensures s0.stack <= s.stack && |s0.stack| < |s.stack| && s.stack[|s0.stack|] == node
    ensures forall i :: |s0.stack| < i < |s.stack| ==> s.stack[i] != node
    ensures s0.index.Keys <= s.index.Keys
  {
    forall i | |s0.stack| < i < |s.stack| ensures s.stack[i] != node {
      assert s.index[s.stack[|s0.stack|]] < s.index[s.stack[i]];
    }
  }

  lemma OutcomeFacts<V(!new)>(g: map<V, seq<V>>, s0: State<V>, s: State<V>, node: V)
    requires Outcome(g, s0, s, node) && Extends(s0, s)
    ensures node in s.index && node in s.lowlinks
    ensures s0.index.Keys <= s.index.Keys && s0.lowlinks.Keys <= s.lowlinks.Keys
  {
  }

  // ---- the search itself

  class Search<V(==, !new)> {
    const graph: map<V, seq<V>>
    var index_counter: nat
    var stack: seq<V>
    var lowlinks: map<V, nat>
    var index: map<V, nat>
    var result: seq<seq<V>>

    ghost function View(): State<V> reads this {
      State(index_counter, stack, lowlinks, index, result)
    }

    constructor (graph: map<V, seq<V>>)
      ensures this.graph == graph && View() == State(0, [], map[], map[], [])
    {
      this.graph := graph;
      index_counter, stack, lowlinks, index, result := 0, [], map[], map[], [];
    }

    method StrongConnect(node: V, ghost grays: set<V>, ghost universe: set<V>)
      requires Inv(graph, View(), grays) && node !in index
      requires forall x :: x in grays ==> Reach(graph, x, node)
      requires Closed(graph, universe) && index.Keys <= universe && node in universe
      modifies this
      ensures Inv(graph, View(), grays)
      ensures Extends(old(View()), View()) && index.Keys <= universe
      ensures Outcome(graph, old(View()), View(), node)
      decreases universe - index.Keys, 0
    {
      hide Inv, Midway, Outcome, Extends, Reach, Closed;
      ghost var s0 := View();
      MidwayEntered(graph, s0, grays, node);
      index := index[node := index_counter];
      lowlinks := lowlinks[node := index_counter];
      index_counter := index_counter + 1;
      stack := stack + [node];
      assert View() == Entered(s0, node);
      var successors := if node in graph then graph[node] else [];
      for k := 0 to |successors|
        invariant Inv(graph, View(), grays + {node}) && Midway(graph, s0, View(), grays, node, k)
        invariant s0.index.Keys + {node} <= index.Keys <= universe
      {
        VisitSuccessor(node, successors[k], k, s0, grays, universe);
      }
      ghost var s := View();
      MidwayFacts(graph, s0, s, grays, node, |successors|);
      if lowlinks[node] == index[node] {
        var component := PopComponent(node, |s0.stack|);
        FinishEmit(graph, s0, s, grays, node, component);
        result := result + [component];
        assert View() == Popped(s, s0.stack, component);
      } else {
        FinishLeave(graph, s0, s, grays, node);
      }
    }

    /** One iteration of the loop over the successors of node. */
    method VisitSuccessor(node: V, successor: V, ghost k: nat, ghost s0: State<V>, ghost grays: set<V>,
        ghost universe: set<V>)
      requires Inv(graph, View(), grays + {node}) && Midway(graph, s0, View(), grays, node, k)
      requires k < |Successors(graph, node)| && successor == Successors(graph, node)[k]
      requires Closed(graph, universe) && index.Keys <= universe
      modifies this
      ensures Inv(graph, View(), grays + {node}) && Midway(graph, s0, View(), grays, node, k + 1)
      ensures old(index).Keys <= index.Keys <= universe
      decreases universe - index.Keys, 1
    {
      hide Inv, Midway, Outcome, Extends, Reach;
      ghost var s := View();
      MidwayFacts(graph, s0, s, grays, node, k);
      if successor !in lowlinks {
        forall x | x in grays + {node} ensures Reach(graph, x, successor) {
          CallersReach(graph, s0, s, grays, node, k, x);
        }
        assert Edge(graph, node, successor);
        StrongConnect(successor, grays + {node}, universe);
        ghost var s' := View();
        OutcomeFacts(graph, s, s', successor);
        MidwayCalled(graph, s0, s, s', grays, node, k);
        LoweredKeepsInv(graph, s', grays + {node}, node, lowlinks[successor]);
        lowlinks := lowlinks[node := Min(lowlinks[node], lowlinks[successor])];
        assert View() == Lowered(s', node, s'.lowlinks[successor]);
      } else if successor in stack {
        MidwaySeenOn(graph, s0, s, grays, node, k);
        LoweredKeepsInv(graph, s, grays + {node}, node, index[successor]);
        lowlinks := lowlinks[node := Min(lowlinks[node], index[successor])];
        assert View() == Lowered(s, node, s.index[successor]);
      } else {
        MidwaySeenOff(graph, s0, s, grays, node, k);
      }
    }

    /** Pops the stack down to and including node. */
    method PopComponent(node: V, ghost depth: nat) returns (component: seq<V>)
      requires depth < |stack| && stack[depth] == node
      requires forall i :: depth < i < |stack| ==> stack[i] != node
      modifies this`stack
      ensures stack == old(stack)[..depth]
      ensures |component| == |old(stack)| - depth
      ensures forall i :: 0 <= i < |component| ==> component[i] == old(stack)[|old(stack)| - 1 - i]
    {
      component := [];
      while true
        invariant depth < |stack| <= |old(stack)| && stack == old(stack)[..|stack|]
        invariant |component| == |old(stack)| - |stack|
        invariant forall i :: 0 <= i < |component| ==> component[i] == old(stack)[|old(stack)| - 1 - i]
        decreases |stack|
      {
        var successor := stack[|stack| - 1];
        stack := stack[..|stack| - 1];
        component := component + [successor];
        if successor == node { break; }
      }
    }
  }

  function Min(a: nat, b: nat): nat {
    if b < a then b else a
  }

  ghost predicate Listed<V(!new)>(result: seq<seq<V>>, v: V) {
    exists k :: 0 <= k < |result| && v in result[k]
  }

  ghost predicate FromKey<V(!new)>(g: map<V, seq<V>>, v: V) {
    exists key :: key in g && Reach(g, key, v)
  }

  /** No node is listed twice, and no component reaches a later one. */
  ghost predicate Ordered<V(!new)>(g: map<V, seq<V>>, result: seq<seq<V>>) {
    && (forall i, j, x :: 0 <= i < j < |result| && x in result[i] ==> x !in result[j])
    && (forall i, j, x, y ::
          0 <= i < |result| && 0 <= j < |result| && x in result[i] && y in result[j] && Reach(g, x, y) ==> j <= i)
  }

  /** What the list of components is for: exactly the mutual-reachability classes of
      the nodes reachable from the keys, each emitted after those it reaches. */
  ghost predicate IsDecomposition<V(!new)>(g: map<V, seq<V>>, result: seq<seq<V>>) {
    && (forall k :: 0 <= k < |result| ==> IsComponent(g, result[k]))
    && (forall v :: Listed(result, v) <==> FromKey(g, v))
    && Ordered(g, result)
  }

  function Universe<V(!new)>(g: map<V, seq<V>>): set<V> {
    g.Keys + set k, v | k in g && v in g[k] :: v
  }

  lemma UniverseClosed<V(!new)>(g: map<V, seq<V>>)
    ensures Closed(g, Universe(g))
  {
  }

  lemma UniverseReached<V(!new)>(g: map<V, seq<V>>, v: V)
    requires v in Universe(g)
    ensures FromKey(g, v)
  {
    if v in g {
      ReachRefl(g, v);
    } else {
      var key :| key in g && v in g[key];
      ReachEdge(g, key, v);
    }
  }

  lemma OrderedPair<V(!new)>(g: map<V, seq<V>>, r: seq<seq<V>>, i: nat, j: nat, x: V)
    requires GoodResult(g, r) && i < j < |r| && x in r[i]
    ensures x !in r[j] && forall y :: y in r[j] ==> !Reach(g, x, y)
  {
    assert x in Emitted(r, j) && Emitted(r, j) !! Elems(r[j]);
    assert Closed(g, Emitted(r, j));
    forall y | y in r[j] ensures !Reach(g, x, y) {
      if Reach(g, x, y) {
        ClosedReach(g, Emitted(r, j), x, y);
      }
    }
  }

  lemma ResultOrdered<V(!new)>(g: map<V, seq<V>>, r: seq<seq<V>>)
    requires GoodResult(g, r)
    ensures Ordered(g, r)
  {
    forall i, j, x | 0 <= i < j < |r| && x in r[i]
      ensures x !in r[j] && forall y :: y in r[j] ==> !Reach(g, x, y)
    {
      OrderedPair(g, r, i, j, x);
    }
  }

  lemma ActiveBelow<V(!new)>(g: map<V, seq<V>>, s: State<V>, grays: set<V>, y: V)
    requires Anchored(g, s, grays) && y in s.stack
    ensures grays != {}
  {
    assert LeadsToGray(g, s, grays, y);
  }

  /** With no call active the stack is empty. */
  lemma DoneIsAll<V(!new)>(g: map<V, seq<V>>, s: State<V>)
    requires Inv(g, s, {})
    ensures s.stack == [] && s.index.Keys == s.Done()
  {
    if s.stack != [] {
      ActiveBelow(g, s, {}, s.stack[0]);
    }
  }

  lemma DoneIsReached<V(!new)>(g: map<V, seq<V>>, s: State<V>, v: V)
    requires GoodResult(g, s.result) && g.Keys <= s.Done() <= Universe(g)
    ensures Listed(s.result, v) <==> FromKey(g, v)
  {
    assert v in s.Done() <==> Listed(s.result, v);
    if FromKey(g, v) {
      var key :| key in g && Reach(g, key, v);
      assert Closed(g, Emitted(s.result, |s.result|));
      ClosedReach(g, s.Done(), key, v);
    }
    if v in s.Done() {
      UniverseReached(g, v);
    }
  }

  lemma DecompositionDone<V(!new)>(g: map<V, seq<V>>, s: State<V>)
    requires Inv(g, s, {}) && g.Keys <= s.index.Keys <= Universe(g)
    ensures IsDecomposition(g, s.result)
  {
    DoneIsAll(g, s);
    ResultOrdered(g, s.result);
    forall v ensures Listed(s.result, v) <==> FromKey(g, v) {
      DoneIsReached(g, s, v);
    }
  }

  lemma StartInv<V(!new)>(g: map<V, seq<V>>)
    ensures Inv(g, State(0, [], map[], map[], []), {})
  {
  }

  lemma InvKeys<V(!new)>(g: map<V, seq<V>>, s: State<V>)
    requires Inv(g, s, {})
    ensures s.index.Keys == s.lowlinks.Keys
  {
  }

  /** order is the iteration order of the dictionary's keys. */
  method StronglyConnectedComponents<V(==, !new)>(graph: map<V, seq<V>>, order: seq<V>) returns (result: seq<seq<V>>)
    requires forall v :: v in order <==> v in graph
    ensures IsDecomposition(graph, result)
  {
    hide Inv, Extends, Outcome, Reach, IsDecomposition;
    StartInv(graph);
    var search := new Search(graph);
    ghost var universe := Universe(graph);
    UniverseClosed(graph);
    for i := 0 to |order|
      invariant search.graph == graph
      invariant Inv(graph, search.View(), {})
      invariant search.index.Keys <= universe && search.index.Keys == search.lowlinks.Keys
      invariant forall j :: 0 <= j < i ==> order[j] in search.index
    {
      if order[i] !in search.lowlinks {
        ghost var s := search.View();
        search.StrongConnect(order[i], {}, universe);
        OutcomeFacts(graph, s, search.View(), order[i]);
        InvKeys(graph, search.View());
      }
    }
    DecompositionDone(graph, search.View());
    result := search.result;
  }
}
