/**
 * do_dies_traversal: a depth-first walk of one compile unit's DIE tree
 * with an explicit LIFO queue, visiting every DIE it reaches through
 * dwarf_child and dwarf_siblingof links.
 */
module Traversal {
  import opened Dwarf
  import opened HostDb
  import opened Engine

  /**
   * The order in which the walk visits the DIEs under `t`: the DIE, then
   * everything under its first child, then everything from its next sibling
   * on. A link that cannot be read hides what lies behind it.
   */
  function Preorder(t: DieTree): seq<u64>
    decreases t
  {
    [t.off] + LinkOrder(t.child) + LinkOrder(t.sibling)
  }

  function LinkOrder(l: Link): seq<u64>
    decreases l
  {
    match l
    case Die(t) => Preorder(t)
    case _ => []
  }

  /** `o` is the offset of a DIE reachable from `t` through readable child and sibling links. */
  ghost predicate Reachable(t: DieTree, o: u64)
    decreases t
  {
    t.off == o || LinkReaches(t.child, o) || LinkReaches(t.sibling, o)
  }

  ghost predicate LinkReaches(l: Link, o: u64)
    decreases l
  {
    l.Die? && Reachable(l.node, o)
  }

  /** The walk visits a DIE exactly when that DIE is reachable. */
  lemma {:induction false} PreorderReachable(t: DieTree, o: u64)
    ensures o in Preorder(t) <==> Reachable(t, o)
    decreases t
  {
    LinkOrderReachable(t.child, o);
    LinkOrderReachable(t.sibling, o);
  }

  lemma {:induction false} LinkOrderReachable(l: Link, o: u64)
    ensures o in LinkOrder(l) <==> LinkReaches(l, o)
    decreases l
  {
    if l.Die? {
      PreorderReachable(l.node, o);
    }
  }

  /** What is still to be visited for a queue: its back element's walk first. */
  function Pending(queue: seq<DieTree>): seq<u64>
    decreases |queue|
  {
    if queue == [] then [] else Preorder(queue[|queue| - 1]) + Pending(queue[..|queue| - 1])
  }

  /** try_visit_die on each offset of `offs` in turn. */
  function VisitAll(h: Host, sec: Section, offs: seq<u64>, st: State, fuel: nat): (r: State)
    ensures Grows(st, r)
    decreases |offs|
  {
    if offs == [] then st
    else
      var before := VisitAll(h, sec, offs[..|offs| - 1], st, fuel);
      var r := TryVisit(h, sec, offs[|offs| - 1], before, fuel);
      GrowsTransitive(st, before, r);
      r
  }

  /** The queue after visiting `t`: the sibling is pushed first, then the child. */
  function Pushed(queue: seq<DieTree>, t: DieTree): seq<DieTree>
  {
    var withSibling := if t.sibling.Die? then queue + [t.sibling.node] else queue;
    if t.child.Die? then withSibling + [t.child.node] else withSibling
  }

  lemma PushedPending(queue: seq<DieTree>, t: DieTree)
    ensures Pending(Pushed(queue, t)) == LinkOrder(t.child) + LinkOrder(t.sibling) + Pending(queue)
  {
    var withSibling := if t.sibling.Die? then queue + [t.sibling.node] else queue;
    assert Pending(withSibling) == LinkOrder(t.sibling) + Pending(queue) by {
      if t.sibling.Die? {
        assert withSibling[..|withSibling| - 1] == queue;
      }
    }
    if t.child.Die? {
      var pushed := withSibling + [t.child.node];
      assert pushed[..|pushed| - 1] == withSibling;
    }
  }

  /** One round of the loop moves the popped DIE from what is pending to what is visited. */
  lemma PopStep(visited: seq<u64>, queue: seq<DieTree>)
    requires queue != []
    ensures var t := queue[|queue| - 1];
      visited + Pending(queue) == (visited + [t.off]) + Pending(Pushed(queue[..|queue| - 1], t))
  {
    var t := queue[|queue| - 1];
    var rest := queue[..|queue| - 1];
    PushedPending(rest, t);
    Regroup(visited, t.off, LinkOrder(t.child), LinkOrder(t.sibling), Pending(rest));
  }

  lemma Regroup(v: seq<u64>, x: u64, a: seq<u64>, b: seq<u64>, p: seq<u64>)
    ensures v + (([x] + a + b) + p) == (v + [x]) + (a + b + p)
  {
  }

  lemma VisitAllSnoc(h: Host, sec: Section, offs: seq<u64>, o: u64, st: State, fuel: nat)
    ensures VisitAll(h, sec, offs + [o], st, fuel) == TryVisit(h, sec, o, VisitAll(h, sec, offs, st, fuel), fuel)
  {
    assert (offs + [o])[..|offs|] == offs;
  }

  /**
   * do_dies_traversal: pop the back of the queue, try to visit it, push its
   * sibling and then its child. The DIEs are visited in `Preorder(root)`
   * order and the resolver state is that of visiting them in turn.
   */
  method DiesTraversal(h: Host, sec: Section, root: DieTree, st0: State, fuel: nat)
    returns (visited: seq<u64>, st: State)
    ensures visited == Preorder(root)
    ensures st == VisitAll(h, sec, visited, st0, fuel)
    ensures Grows(st0, st)
  {
    var queue := [root];
    visited := [];
    st := st0;
    assert Pending(queue) == Preorder(root) by {
      assert queue[..0] == [];
    }
    while queue != []
      invariant visited + Pending(queue) == Preorder(root)
      invariant st == VisitAll(h, sec, visited, st0, fuel)
      decreases |Preorder(root)| - |visited|
    {
      var t := queue[|queue| - 1];
      PopStep(visited, queue);
      VisitAllSnoc(h, sec, visited, t.off, st0, fuel);
      st := TryVisit(h, sec, t.off, st, fuel);
      visited := visited + [t.off];
      queue := Pushed(queue[..|queue| - 1], t);
    }
  }
}
