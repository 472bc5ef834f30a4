/**
 * The upward DOM walk of js/dom_utils.js: `bubble` visits an element and then
 * every ancestor, stepping to `parentNode` or, from a shadow root, to its
 * `host`; `upwardsSearch` collects the matching direct children of every
 * visited node.
 */
module DomUtils {
  import opened JsString

  /** A DOM node, known by its identity. */
  type Node = nat

  /**
   * The part of the DOM the walk sees: the non-null `parentNode` of each node,
   * the non-null `host` of each shadow root, each node's `children` in order,
   * and a rank that witnesses that the ancestor chain has no cycle.
   */
  datatype Dom = Dom(parent: map<Node, Node>, host: map<Node, Node>, children: map<Node, seq<Node>>, rank: map<Node, nat>)

  /** Every step to a parent or host goes to a node of strictly smaller rank. */
  predicate Acyclic(dom: Dom)
  {
    && (forall n :: n in dom.parent ==> n in dom.rank && dom.parent[n] in dom.rank && dom.rank[dom.parent[n]] < dom.rank[n])
    && (forall n :: n in dom.host ==> n in dom.rank && dom.host[n] in dom.rank && dom.rank[dom.host[n]] < dom.rank[n])
  }

  function Height(dom: Dom, n: Node): nat
  {
    if n in dom.rank then dom.rank[n] else 0
  }

  /** Where one turn of `bubble`'s loop goes from `n`: the parent if any, else the host if any. */
  function Step(dom: Dom, n: Node): Option<Node>
  {
    if n in dom.parent then Some(dom.parent[n])
    else if n in dom.host then Some(dom.host[n])
    else None
  }

  /**
   * The nodes `bubble` visits from `n`, in order: `n` itself, then each step up,
   * the parent being preferred over the host, until a node has neither.
   */
  function Ancestors(dom: Dom, n: Node): (r: seq<Node>)
    requires Acyclic(dom)
    ensures |r| > 0 && r[0] == n
    decreases Height(dom, n)
  {
    match Step(dom, n)
    case None => [n]
    case Some(next) => [n] + Ancestors(dom, next)
  }

  /** Each visited node steps to the next one, and the last has nowhere to go. */
  lemma {:induction false} AncestorsStep(dom: Dom, n: Node, i: nat)
    requires Acyclic(dom)
    requires i < |Ancestors(dom, n)|
    ensures i < |Ancestors(dom, n)| - 1 ==> Step(dom, Ancestors(dom, n)[i]) == Some(Ancestors(dom, n)[i + 1])
    ensures i == |Ancestors(dom, n)| - 1 ==> Step(dom, Ancestors(dom, n)[i]) == None
    decreases i
  {
    if i > 0 {
      AncestorsStep(dom, Step(dom, n).value, i - 1);
    }
  }

  /**
   * `bubble(start, func)`: the arguments of the successive calls of `func`. A null
   * start is passed to `func` once and the walk stops; otherwise `func` sees the
   * start and then each ancestor.
   */
  method Bubble(dom: Dom, start: Option<Node>) returns (visited: seq<Option<Node>>)
    requires Acyclic(dom)
    ensures start.None? ==> visited == [None]
    ensures start.Some? ==> |visited| == |Ancestors(dom, start.value)|
    ensures start.Some? ==> forall i :: 0 <= i < |visited| ==> visited[i] == Some(Ancestors(dom, start.value)[i])
  {
    visited := [start];
    if start.None? {
      return;
    }
    var element := start.value;
    ghost var chain := Ancestors(dom, element);
    while true
      invariant 0 < |visited| <= |chain| && element == chain[|visited| - 1]
      invariant forall i :: 0 <= i < |visited| ==> visited[i] == Some(chain[i])
      decreases |chain| - |visited|
    {
      AncestorsStep(dom, start.value, |visited| - 1);
      match Step(dom, element)
      case None =>
        break;
      case Some(next) =>
        element := next;
        visited := visited + [Some(element)];
    }
  }

  function Children(dom: Dom, n: Node): seq<Node>
  {
    if n in dom.children then dom.children[n] else []
  }

  /** The children that match the selector, in child order. */
  function Matching(children: seq<Node>, selector: Node -> bool): (r: seq<Node>)
  {
    if |children| == 0 then []
    else
      var rest := Matching(children[..|children| - 1], selector);
      var c := children[|children| - 1];
      if selector(c) then rest + [c] else rest
  }

  /** The matching children are exactly the children the selector accepts. */
  lemma {:induction false} MatchingMembers(children: seq<Node>, selector: Node -> bool, x: Node)
    ensures x in Matching(children, selector) <==> x in children && selector(x)
    decreases |children|
  {
    if |children| > 0 {
      var init := children[..|children| - 1];
      MatchingMembers(init, selector, x);
      assert children == init + [children[|children| - 1]];
    }
  }

  /** The matching children of every node of `chain`, level by level. */
  function Found(dom: Dom, chain: seq<Node>, selector: Node -> bool): (r: seq<Node>)
  {
    if |chain| == 0 then []
    else Found(dom, chain[..|chain| - 1], selector) + Matching(Children(dom, chain[|chain| - 1]), selector)
  }

  /** The matches of a lower level all come before those of a higher one. */
  lemma {:induction false} FoundAppend(dom: Dom, a: seq<Node>, b: seq<Node>, selector: Node -> bool)
    ensures Found(dom, a + b, selector) == Found(dom, a, selector) + Found(dom, b, selector)
    decreases |b|
  {
    if |b| == 0 {
      assert a + b == a;
    } else {
      var b' := b[..|b| - 1];
      assert (a + b)[..|a + b| - 1] == a + b';
      FoundAppend(dom, a, b', selector);
    }
  }

  /**
   * What `Found` holds is exactly the matching direct children of the nodes of
   * the chain: everything in it matches and is a child of one of them, and every
   * such child is in it.
   */
  lemma {:induction false} FoundMembers(dom: Dom, chain: seq<Node>, selector: Node -> bool, x: Node)
    ensures x in Found(dom, chain, selector) <==>
      selector(x) && exists k :: 0 <= k < |chain| && x in Children(dom, chain[k])
    decreases |chain|
  {
    if |chain| > 0 {
      var init := chain[..|chain| - 1];
      FoundMembers(dom, init, selector, x);
      MatchingMembers(Children(dom, chain[|chain| - 1]), selector, x);
      if exists k :: 0 <= k < |init| && x in Children(dom, init[k]) {
        var k :| 0 <= k < |init| && x in Children(dom, init[k]);
        assert chain[k] == init[k];
      }
      if exists k :: 0 <= k < |chain| && x in Children(dom, chain[k]) {
        var k :| 0 <= k < |chain| && x in Children(dom, chain[k]);
        if k < |init| {
          assert init[k] == chain[k];
        }
      }
    }
  }

  /**
   * The matching children of the first node of a chain come before everything
   * found further up it; for the chain `bubble` walks, that node is the start.
   */
  lemma OwnChildrenFirst(dom: Dom, chain: seq<Node>, selector: Node -> bool)
    requires |chain| > 0
    ensures Found(dom, chain, selector) == Matching(Children(dom, chain[0]), selector) + Found(dom, chain[1..], selector)
  {
    assert chain == [chain[0]] + chain[1..];
    FoundAppend(dom, [chain[0]], chain[1..], selector);
    assert [chain[0]][..0] == [];
  }

  /** The inner loop of `upwardsSearch`: the children of one node that match, in child order. */
  method MatchingChildren(children: seq<Node>, selector: Node -> bool) returns (matched: seq<Node>)
    ensures matched == Matching(children, selector)
  {
    matched := [];
    for j := 0 to |children|
      invariant matched == Matching(children[..j], selector)
    {
      assert children[..j + 1][..j] == children[..j];
      if selector(children[j]) {
        matched := matched + [children[j]];
      }
    }
    assert children[..|children|] == children;
  }

  /**
   * `upwardsSearch(start, selector)`: the matching direct children of the start
   * node first, then those of its parent, and so on up; nothing for a null start.
   */
  method UpwardsSearch(dom: Dom, start: Option<Node>, selector: Node -> bool) returns (result: seq<Node>)
    requires Acyclic(dom)
    ensures start.None? ==> result == []
    ensures start.Some? ==> result == Found(dom, Ancestors(dom, start.value), selector)
  {
    var visited := Bubble(dom, start);
    ghost var chain := if start.Some? then Ancestors(dom, start.value) else [];
    result := [];
    for i := 0 to |visited|
      invariant start.Some? ==> |visited| == |chain| && result == Found(dom, chain[..i], selector)
      invariant start.None? ==> result == []
    {
      var checkedElement := visited[i];
      if checkedElement.None? {
        continue;
      }
      var matched := MatchingChildren(Children(dom, checkedElement.value), selector);
      result := result + matched;
      assert chain[..i + 1][..i] == chain[..i];
    }
    if start.Some? {
      assert chain[..|visited|] == chain;
    }
  }
}
