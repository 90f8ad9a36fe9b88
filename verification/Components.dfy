/** The stack search that splits an overlap graph into connected components
    (scripts/eval_span_alignment.py `components`; the same loop is inlined in `align`). */
module Components {

  type Edges = map<nat, set<nat>>

  /** `edges.get(n, ())`. */
  function Neighbours(edges: Edges, n: nat): set<nat> {
    if n in edges then edges[n] else {}
  }

  ghost predicate Symmetric(edges: Edges) {
    forall a, b :: b in Neighbours(edges, a) ==> a in Neighbours(edges, b)
  }

  /** Consecutive nodes of a walk are linked. */
  ghost predicate Walk(edges: Edges, w: seq<nat>) {
    w != [] && forall t :: 0 < t < |w| ==> w[t] in Neighbours(edges, w[t - 1])
  }

  ghost predicate WalkBetween(edges: Edges, w: seq<nat>, a: nat, b: nat) {
    Walk(edges, w) && w[0] == a && w[|w| - 1] == b
  }

  ghost predicate Connected(edges: Edges, a: nat, b: nat) {
    exists w :: WalkBetween(edges, w, a, b)
  }

  /** No edge leaves the set. */
  ghost predicate Closed(edges: Edges, s: set<nat>) {
    forall a, b :: a in s && b in Neighbours(edges, a) ==> b in s
  }

  lemma {:induction false} ConnectedSelf(edges: Edges, a: nat)
    ensures Connected(edges, a, a)
  {
    assert WalkBetween(edges, [a], a, a);
  }

  lemma {:induction false} ConnectedStep(edges: Edges, a: nat, b: nat, c: nat)
    requires Connected(edges, a, b) && c in Neighbours(edges, b)
    ensures Connected(edges, a, c)
  {
    var w :| WalkBetween(edges, w, a, b);
    assert WalkBetween(edges, w + [c], a, c);
  }

  lemma {:induction false} ConnectedTrans(edges: Edges, a: nat, b: nat, c: nat)
    requires Connected(edges, a, b) && Connected(edges, b, c)
    ensures Connected(edges, a, c)
  {
    var v :| WalkBetween(edges, v, a, b);
    var w :| WalkBetween(edges, w, b, c);
    var u := v + w[1..];
    forall t | 0 < t < |u| ensures u[t] in Neighbours(edges, u[t - 1]) {
      if t >= |v| {
        assert u[t] == w[t - |v| + 1];
        assert u[t - 1] == w[t - |v|];
      }
    }
    assert WalkBetween(edges, u, a, c);
  }

  lemma {:induction false} ConnectedSym(edges: Edges, a: nat, b: nat)
    requires Symmetric(edges) && Connected(edges, a, b)
    ensures Connected(edges, b, a)
  {
    var w :| WalkBetween(edges, w, a, b);
    var r := seq(|w|, i requires 0 <= i < |w| => w[|w| - 1 - i]);
    forall t | 0 < t < |r| ensures r[t] in Neighbours(edges, r[t - 1]) {
      assert w[|w| - t] in Neighbours(edges, w[|w| - t - 1]);
    }
    assert WalkBetween(edges, r, b, a);
  }

  /** A walk cannot leave a closed set. */
  lemma {:induction false} WalkStays(edges: Edges, s: set<nat>, w: seq<nat>, t: nat)
    requires Closed(edges, s) && Walk(edges, w) && w[0] in s && t < |w|
    ensures w[t] in s
  {
    if t > 0 {
      WalkStays(edges, s, w, t - 1);
    }
  }

  lemma {:induction false} ConnectedStays(edges: Edges, s: set<nat>, a: nat, b: nat)
    requires Closed(edges, s) && a in s && Connected(edges, a, b)
    ensures b in s
  {
    var w :| WalkBetween(edges, w, a, b);
    WalkStays(edges, s, w, |w| - 1);
  }

  /** Two graphs that agree on a closed set have the same connections inside it. */
  lemma {:induction false} SameConnections(e1: Edges, e2: Edges, s: set<nat>, a: nat, b: nat)
    requires Closed(e1, s) && a in s && Connected(e1, a, b)
    requires forall x :: x in s ==> Neighbours(e1, x) == Neighbours(e2, x)
    ensures Connected(e2, a, b)
  {
    var w :| WalkBetween(e1, w, a, b);
    forall t | 0 < t < |w| ensures w[t] in Neighbours(e2, w[t - 1]) {
      WalkStays(e1, s, w, t - 1);
    }
    assert WalkBetween(e2, w, a, b);
  }

  /** `s` is the connected component that holds every one of its own members. */
  ghost predicate IsComponent(edges: Edges, s: set<nat>) {
    s != {} && forall a :: a in s ==> forall b :: b in s <==> Connected(edges, a, b)
  }

  /** A closed set whose members are all connected to one root is a component. */
  lemma {:induction false} ClosedConnectedIsComponent(edges: Edges, s: set<nat>, root: nat)
    requires Symmetric(edges) && Closed(edges, s) && root in s
    requires forall b :: b in s ==> Connected(edges, root, b)
    ensures IsComponent(edges, s)
  {
    forall a, b | a in s ensures b in s <==> Connected(edges, a, b) {
      if b in s {
        ConnectedSym(edges, root, a);
        ConnectedTrans(edges, a, root, b);
      }
      if Connected(edges, a, b) {
        ConnectedStays(edges, s, a, b);
      }
    }
  }

  // ----- sorted(comp) ------------------------------------------------------------------------

  function Elements(s: seq<nat>): set<nat> {
    set x | x in s
  }

  ghost predicate Ascending(s: seq<nat>) {
    forall i, j :: 0 <= i < j < |s| ==> s[i] < s[j]
  }

  ghost predicate NoRepeats(s: seq<nat>) {
    forall i, j :: 0 <= i < j < |s| ==> s[i] != s[j]
  }

  function InsertNat(x: nat, s: seq<nat>): (r: seq<nat>)
    requires Ascending(s) && x !in s
    ensures Ascending(r) && |r| == |s| + 1
    ensures forall y :: y in r <==> y == x || y in s
  {
    if s == [] || x < s[0] then [x] + s
    else
      assert s == [s[0]] + s[1..];
      var rest := InsertNat(x, s[1..]);
      assert forall i :: 0 <= i < |rest| ==> rest[i] in rest;
      [s[0]] + rest
  }

  function SortedNats(s: seq<nat>): (r: seq<nat>)
    requires NoRepeats(s)
    ensures Ascending(r) && |r| == |s|
    ensures forall y :: y in r <==> y in s
  {
    if s == [] then []
    else
      assert s == [s[0]] + s[1..];
      InsertNat(s[0], SortedNats(s[1..]))
  }

  // ----- the search --------------------------------------------------------------------------

  /** What the search knows part-way: `comp` was popped, `stack` waits, both hang off `root`, and
      with the nodes seen by earlier searches they are all that was seen. Everything linked to a
      node of `done` has been seen. */
  ghost predicate Frontier(edges: Edges, root: nat, before: set<nat>, seen: set<nat>,
                           stack: seq<nat>, comp: seq<nat>, done: seq<nat>) {
    && NoRepeats(comp + stack)
    && root in comp + stack
    && seen == before + Elements(comp + stack)
    && before !! Elements(comp + stack)
    && (forall b :: b in comp + stack ==> Connected(edges, root, b))
    && (forall a :: a in done ==> Neighbours(edges, a) <= seen)
  }

  lemma {:induction false} PopKeeps(edges: Edges, root: nat, before: set<nat>, seen: set<nat>, stack: seq<nat>, comp: seq<nat>)
    requires stack != [] && Frontier(edges, root, before, seen, stack, comp, comp)
    ensures var top := |stack| - 1;
            Frontier(edges, root, before, seen, stack[..top], comp + [stack[top]], comp)
  {
    var top := |stack| - 1;
    var was, now := comp + stack, comp + [stack[top]] + stack[..top];
    forall b ensures b in was <==> b in now {
      if b in stack {
        var i :| 0 <= i < |stack| && stack[i] == b;
        assert now[if i == top then |comp| else |comp| + 1 + i] == b;
      }
    }
    forall i, j | 0 <= i < j < |now| ensures now[i] != now[j] {
      var i' := if i < |comp| then i else if i == |comp| then |was| - 1 else i - 1;
      var j' := if j < |comp| then j else if j == |comp| then |was| - 1 else j - 1;
      assert now[i] == was[i'] && now[j] == was[j'] && i' != j';
    }
    assert Elements(was) == Elements(now);
  }

  lemma {:induction false} PushKeeps(edges: Edges, root: nat, before: set<nat>, seen: set<nat>, stack: seq<nat>,
                  comp: seq<nat>, done: seq<nat>, nb: nat)
    requires Frontier(edges, root, before, seen, stack, comp, done)
    requires nb !in seen && Connected(edges, root, nb)
    ensures Frontier(edges, root, before, seen + {nb}, stack + [nb], comp, done)
  {
    var was, now := comp + stack, comp + (stack + [nb]);
    assert now == was + [nb];
    assert Elements(now) == Elements(was) + {nb};
  }

  lemma {:induction false} ExploredIsClosed(edges: Edges, root: nat, before: set<nat>, seen: set<nat>, comp: seq<nat>)
    requires Symmetric(edges) && Closed(edges, before)
    requires Frontier(edges, root, before, seen, [], comp, comp)
    ensures Closed(edges, seen) && Closed(edges, Elements(comp))
  {
    assert comp + [] == comp;
    forall a, b | a in Elements(comp) && b in Neighbours(edges, a) ensures b in Elements(comp) {
      assert a in comp + [] && b in seen;
      assert b !in before;
    }
  }

  /** Expand one start node to everything reachable from it, with the source's explicit stack.
      The order in which a neighbour set is enumerated is left open. */
  method Explore(root: nat, edges: Edges, before: set<nat>)
    returns (seen: set<nat>, comp: seq<nat>)
    requires Symmetric(edges) && Closed(edges, before) && root !in before
    ensures NoRepeats(comp) && root in comp
    ensures IsComponent(edges, Elements(comp))
    ensures seen == before + Elements(comp) && before !! Elements(comp)
    ensures Closed(edges, seen)
  {
    var stack := [root];
    comp := [];
    seen := before + {root};
    ghost var universe := before + {root} + (set a, b | a in edges.Keys && b in edges[a] :: b);
    ConnectedSelf(edges, root);
    assert comp + stack == [root];
    while stack != []
      invariant Frontier(edges, root, before, seen, stack, comp, comp)
      invariant seen <= universe
      decreases universe - seen, |stack|
    {
      PopKeeps(edges, root, before, seen, stack, comp);
      var cur := stack[|stack| - 1];
      stack := stack[..|stack| - 1];
      ghost var done := comp;
      comp := comp + [cur];
      assert cur in comp + stack;
      var todo := Neighbours(edges, cur);
      ghost var seenAt, waiting := seen, |stack|;
      while todo != {}
        invariant todo <= Neighbours(edges, cur) <= seen + todo
        invariant Frontier(edges, root, before, seen, stack, comp, done)
        invariant seenAt <= seen <= universe
        invariant seen == seenAt ==> |stack| == waiting
        decreases todo
      {
        var nb :| nb in todo;
        todo := todo - {nb};
        if nb !in seen {
          ConnectedStep(edges, root, cur, nb);
          PushKeeps(edges, root, before, seen, stack, comp, done, nb);
          seen := seen + {nb};
          stack := stack + [nb];
        }
      }
      assert seen != seenAt ==> universe - seen < universe - seenAt;
    }
    assert comp + stack == comp;
    ExploredIsClosed(edges, root, before, seen, comp);
    ClosedConnectedIsComponent(edges, Elements(comp), root);
  }

  /** Every node lies in exactly one listed component, and each listed component is complete. */
  ghost predicate Partitions(out: seq<seq<nat>>, nodes: set<nat>) {
    && (forall i, x :: 0 <= i < |out| && x in out[i] ==> x in nodes)
    && (forall x :: x in nodes ==> exists i :: 0 <= i < |out| && x in out[i])
    && (forall i, j, x :: 0 <= i < j < |out| && x in out[i] ==> x !in out[j])
  }

  method ConnectedComponents(nodes: seq<nat>, edges: Edges) returns (out: seq<seq<nat>>)
    requires Symmetric(edges) && Closed(edges, Elements(nodes))
    ensures Partitions(out, Elements(nodes))
    ensures forall i :: 0 <= i < |out| ==> Ascending(out[i]) && IsComponent(edges, Elements(out[i]))
  {
    var seen := {};
    out := [];
    for n := 0 to |nodes|
      invariant Partitions(out, seen)
      invariant Closed(edges, seen)
      invariant Elements(nodes[..n]) <= seen <= Elements(nodes)
      invariant forall i :: 0 <= i < |out| ==> Ascending(out[i]) && IsComponent(edges, Elements(out[i]))
    {
      if nodes[n] !in seen {
        ghost var before := seen;
        var comp;
        seen, comp := Explore(nodes[n], edges, seen);
        forall b | b in Elements(comp) ensures b in nodes {
          ConnectedStays(edges, Elements(nodes), nodes[n], b);
        }
        assert Elements(SortedNats(comp)) == Elements(comp);
        PartitionGrows(out, before, SortedNats(comp), seen);
        out := out + [SortedNats(comp)];
      }
      assert Elements(nodes[..n + 1]) == Elements(nodes[..n]) + {nodes[n]};
    }
    assert nodes[..|nodes|] == nodes;
  }

  lemma {:induction false} PartitionGrows(out: seq<seq<nat>>, before: set<nat>, comp: seq<nat>, seen: set<nat>)
    requires Partitions(out, before)
    requires seen == before + Elements(comp) && before !! Elements(comp)
    ensures Partitions(out + [comp], seen)
  {
    var next := out + [comp];
    forall x | x in seen ensures exists i :: 0 <= i < |next| && x in next[i] {
      if x in before {
        var i :| 0 <= i < |out| && x in out[i];
        assert x in next[i];
      } else {
        assert x in next[|out|];
      }
    }
    forall i, j, x | 0 <= i < j < |next| && x in next[i] ensures x !in next[j] {
      assert next[i] == out[i] && x in before;
      assert x !in comp;
    }
  }
}
