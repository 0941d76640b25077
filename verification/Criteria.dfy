/**
 The criteria package: expression trees whose nodes know their parent. A constructor with two operands
 overwrites the parent of both; everything here is about what those pointers are worth afterwards.
 */
module Criteria {
  import opened Prelude

  datatype Kind =
    | Field(name: string) | Literal(value: string) | Parameter | IsNull(name: string)
    | And | Or | Equals | Substring | Not | Child

  predicate IsBinary(k: Kind) {
    k.And? || k.Or? || k.Equals? || k.Substring? || k.Not? || k.Child?
  }

  // The operands are set when a node is made and never change; the parent does.
  class Expression {
    const kind: Kind
    const left: Expression?
    const right: Expression?
    var parent: Expression?

    constructor Leaf(kind: Kind)
      requires !IsBinary(kind)
      ensures this.kind == kind && left == null && right == null && parent == null
    {
      this.kind, this.left, this.right, this.parent := kind, null, null, null;
    }

    constructor Binary(kind: Kind, left: Expression, right: Expression)
      requires IsBinary(kind)
      ensures this.kind == kind && this.left == left && this.right == right && parent == null
    {
      this.kind, this.left, this.right, this.parent := kind, left, right, null;
    }

    method SetParent(p: Expression)
      modifies this
      ensures parent == p
    {
      parent := p;
    }
  }

  // ---- The tree below a node ----

  datatype Tree = Leaf(node: Expression) | Bin(node: Expression, left: Tree, right: Tree)

  ghost function Nodes(t: Tree): set<Expression> {
    match t
    case Leaf(e) => {e}
    case Bin(e, l, r) => {e} + Nodes(l) + Nodes(r)
  }

  // The nodes strictly below the root.
  ghost function Inner(t: Tree): set<Expression> {
    match t
    case Leaf(_) => {}
    case Bin(_, l, r) => Nodes(l) + Nodes(r)
  }

  function Size(t: Tree): nat {
    match t case Leaf(_) => 1 case Bin(_, l, r) => 1 + Size(l) + Size(r)
  }

  ghost predicate Shape(t: Tree) {
    match t
    case Leaf(e) => !IsBinary(e.kind) && e.left == null && e.right == null
    case Bin(e, l, r) => IsBinary(e.kind) && e.left == l.node && e.right == r.node && Shape(l) && Shape(r)
  }

  // Each operand's parent is the node that holds it.
  ghost predicate ParentsOk(t: Tree)
    reads Inner(t)
    decreases t
  {
    match t
    case Leaf(_) => true
    case Bin(e, l, r) => l.node.parent == e && r.node.parent == e && ParentsOk(l) && ParentsOk(r)
  }

  ghost predicate Rep(t: Tree)
    reads Nodes(t)
  {
    Shape(t) && ParentsOk(t)
  }

  // ---- The shape alone ----

  lemma {:induction false} NodeFixesTree(t: Tree, u: Tree)
    requires Shape(t) && Shape(u) && t.node == u.node
    ensures t == u
    decreases t
  {
    match t
    case Leaf(_) =>
    case Bin(_, l, r) =>
      NodeFixesTree(l, u.left);
      NodeFixesTree(r, u.right);
  }

  lemma {:induction false} SubtreeAt(t: Tree, n: Expression) returns (s: Tree)
    requires Shape(t) && n in Nodes(t)
    ensures Shape(s) && s.node == n && Nodes(s) <= Nodes(t)
    ensures Size(s) <= Size(t) && (n in Inner(t) && t.Bin? && n != t.node ==> Size(s) < Size(t))
    decreases t
  {
    if n == t.node {
      s := t;
    } else if n in Nodes(t.left) {
      s := SubtreeAt(t.left, n);
    } else {
      s := SubtreeAt(t.right, n);
    }
  }

  lemma SmallerAt(t: Tree, n: Expression) returns (s: Tree)
    requires Shape(t) && n in Inner(t)
    ensures Shape(s) && s.node == n && Size(s) < Size(t)
  {
    if n in Nodes(t.left) {
      s := SubtreeAt(t.left, n);
    } else {
      s := SubtreeAt(t.right, n);
    }
  }

  // No node lies below itself.
  lemma RootIsNotInner(t: Tree)
    requires Shape(t)
    ensures t.node !in Inner(t)
  {
    if t.node in Inner(t) {
      var s := SmallerAt(t, t.node);
      NodeFixesTree(s, t);
    }
  }

  lemma {:induction false} OperandsAreNodes(t: Tree, n: Expression)
    requires Shape(t) && n in Nodes(t)
    ensures n.left != null ==> n.left in Nodes(t)
    ensures n.right != null ==> n.right in Nodes(t)
    decreases t
  {
    if n == t.node {
    } else if n in Nodes(t.left) {
      OperandsAreNodes(t.left, n);
    } else {
      OperandsAreNodes(t.right, n);
    }
  }

  // ---- Building ----

  // A node below the root is held, within the tree, by its parent.
  lemma {:induction false} HeldByParent(t: Tree, n: Expression)
    requires Rep(t) && n in Inner(t)
    ensures n.parent != null && n.parent in Nodes(t)
    ensures n.parent.left == n || n.parent.right == n
    ensures n.parent in Inner(t) || n.parent == t.node
    decreases t
  {
    if n == t.left.node || n == t.right.node {
    } else if n in Inner(t.left) {
      HeldByParent(t.left, n);
    } else {
      HeldByParent(t.right, n);
    }
  }

  // The parent pointers at some moment.
  type Links = map<Expression, Expression?>

  ghost function LinksOf(s: set<Expression>): Links
    reads s
  {
    map n | n in s :: n.parent
  }

  ghost predicate Linked(t: Tree, ps: Links) {
    match t
    case Leaf(_) => true
    case Bin(e, l, r) =>
      && l.node in ps && ps[l.node] == e && r.node in ps && ps[r.node] == e && Linked(l, ps) && Linked(r, ps)
  }

  lemma {:induction false} LinkedIsParentsOk(t: Tree, ps: Links)
    requires forall n :: n in Inner(t) ==> n in ps && ps[n] == n.parent
    ensures Linked(t, ps) <==> ParentsOk(t)
    decreases t
  {
    match t
    case Leaf(_) =>
    case Bin(_, l, r) =>
      LinkedIsParentsOk(l, ps);
      LinkedIsParentsOk(r, ps);
  }

  lemma {:induction false} LinkLeadsInside(t: Tree, ps: Links, n: Expression)
    requires Linked(t, ps) && n in Inner(t)
    ensures n in ps && ps[n] != null && ps[n] in Nodes(t)
    decreases t
  {
    if n == t.left.node || n == t.right.node {
    } else if n in Inner(t.left) {
      LinkLeadsInside(t.left, ps, n);
    } else {
      LinkLeadsInside(t.right, ps, n);
    }
  }

  lemma {:induction false} SameLinks(t: Tree, before: Links, after: Links)
    requires Linked(t, before)
    requires forall n :: n in Inner(t) ==> n in before && n in after && after[n] == before[n]
    ensures Linked(t, after)
    decreases t
  {
    match t
    case Leaf(_) =>
    case Bin(_, l, r) =>
      SameLinks(l, before, after);
      SameLinks(r, before, after);
  }

  // A tree survives the making of a node outside it exactly when neither operand is below its root.
  lemma LinkedIffUntouched(t: Tree, before: Links, after: Links, left: Expression, right: Expression, e: Expression)
    requires Linked(t, before) && e !in Nodes(t)
    requires left in after && right in after && after[left] == e && after[right] == e
    requires forall n :: n in Inner(t) ==> n in before && n in after && (n != left && n != right ==> after[n] == before[n])
    ensures Linked(t, after) <==> left !in Inner(t) && right !in Inner(t)
  {
    if left !in Inner(t) && right !in Inner(t) {
      SameLinks(t, before, after);
    }
    if Linked(t, after) {
      if left in Inner(t) {
        LinkLeadsInside(t, after, left);
      }
      if right in Inner(t) {
        LinkLeadsInside(t, after, right);
      }
    }
  }

  lemma {:induction false} NodesExist(t: Tree)
    ensures forall n: Expression :: n in Nodes(t) ==> allocated(n)
    decreases t
  {
    match t
    case Leaf(_) =>
    case Bin(_, l, r) =>
      NodesExist(l);
      NodesExist(r);
  }

  // ---- Age ----

  // When each expression was made; the next one will be made at `now`.
  datatype Births = Births(at: map<Expression, nat>, now: nat)

  ghost predicate InOrder(b: Births, ps: Links) {
    && (forall n :: n in b.at ==> b.at[n] < b.now && n in ps)
    && (forall n :: n in b.at && ps[n] != null ==> ps[n] in b.at && b.at[n] < b.at[ps[n]])
  }

  // Every parent is younger than its child, whether or not it still holds it.
  ghost predicate ParentsAreYounger(b: Births)
    reads b.at.Keys
  {
    InOrder(b, LinksOf(b.at.Keys))
  }

  function Born(b: Births, e: Expression): Births {
    Births(b.at[e := b.now], b.now + 1)
  }

  lemma BirthKeepsOrder(b: Births, before: Links, after: Links, left: Expression, right: Expression, e: Expression)
    requires InOrder(b, before) && e !in b.at && left in b.at && right in b.at
    requires e in after && after[e] == null
    requires forall n :: n in b.at ==> n in after && after[n] == if n == left || n == right then e else before[n]
    ensures InOrder(Born(b, e), after)
  {
  }

  // ---- Making nodes ----

  // Makes a node and then makes it the parent of both operands; `known` are the expressions one cares about.
  method Reparent(kind: Kind, left: Expression, right: Expression, ghost known: set<Expression>) returns (e: Expression)
    requires IsBinary(kind)
    modifies left, right
    ensures fresh(e) && e !in known && e.kind == kind && e.left == left && e.right == right && e.parent == null
    ensures left.parent == e && right.parent == e
    ensures forall n :: n in known ==> n.parent == if n == left || n == right then e else old(n.parent)
  {
    e := new Expression.Binary(kind, left, right);
    left.SetParent(e);
    right.SetParent(e);
  }

  // A new leaf is in order beside all there is.
  method MakeLeaf(kind: Kind, ghost b: Births) returns (e: Expression)
    requires !IsBinary(kind) && ParentsAreYounger(b)
    ensures fresh(e) && e.kind == kind && e.left == null && e.right == null && e.parent == null
    ensures ParentsAreYounger(Born(b, e)) && Rep(Tree.Leaf(e))
  {
    e := new Expression.Leaf(kind);
    assert e !in b.at.Keys;
  }

  // What And, Or, Equals, Substring, Not and Child do: make the node, then make it the parent of both operands.
  // The new tree is in order exactly when neither operand was taken from the inside of the other, and any
  // other tree `o` stays in order exactly when neither operand was taken from its inside. Whatever is overwritten,
  // parents stay younger than their children.
  method Compose(kind: Kind, left: Expression, right: Expression, ghost tl: Tree, ghost tr: Tree, ghost o: Tree, ghost b: Births)
    returns (e: Expression)
    requires IsBinary(kind)
    requires Rep(tl) && tl.node == left && Rep(tr) && tr.node == right && Rep(o)
    requires ParentsAreYounger(b) && left in b.at && right in b.at
    modifies left, right
    ensures fresh(e) && e.kind == kind && e.left == left && e.right == right && e.parent == null
    ensures left.parent == e && right.parent == e
    ensures Rep(Bin(e, tl, tr)) <==> left !in Inner(tr) && right !in Inner(tl)
    ensures Rep(o) <==> left !in Inner(o) && right !in Inner(o)
    ensures e !in b.at && ParentsAreYounger(Born(b, e))
  {
    ghost var nodes := Nodes(tl) + Nodes(tr) + Nodes(o);
    NodesExist(tl);
    NodesExist(tr);
    NodesExist(o);
    ghost var before := LinksOf(nodes);
    ghost var links := LinksOf(b.at.Keys);
    AllLinked(tl, tr, o, before);
    e := Reparent(kind, left, right, nodes + b.at.Keys);
    ghost var after := LinksOf(nodes);
    StillRep(tl, before, after, left, right, e);
    StillRep(tr, before, after, left, right, e);
    StillRep(o, before, after, left, right, e);
    JoinedRep(e, tl, tr);
    BirthKeepsOrder(b, links, LinksOf(Born(b, e).at.Keys), left, right, e);
  }

  lemma AllLinked(tl: Tree, tr: Tree, o: Tree, ps: Links)
    requires Rep(tl) && Rep(tr) && Rep(o)
    requires forall n :: n in Nodes(tl) + Nodes(tr) + Nodes(o) ==> n in ps && ps[n] == n.parent
    ensures Linked(tl, ps) && Linked(tr, ps) && Linked(o, ps)
  {
    LinkedIsParentsOk(tl, ps);
    LinkedIsParentsOk(tr, ps);
    LinkedIsParentsOk(o, ps);
  }

  lemma JoinedRep(e: Expression, tl: Tree, tr: Tree)
    requires Shape(tl) && Shape(tr) && IsBinary(e.kind) && e.left == tl.node && e.right == tr.node
    requires tl.node.parent == e && tr.node.parent == e
    requires Rep(tl) <==> tl.node !in Inner(tl) && tr.node !in Inner(tl)
    requires Rep(tr) <==> tl.node !in Inner(tr) && tr.node !in Inner(tr)
    ensures Rep(Bin(e, tl, tr)) <==> tl.node !in Inner(tr) && tr.node !in Inner(tl)
  {
    RootIsNotInner(tl);
    RootIsNotInner(tr);
  }

  lemma StillRep(t: Tree, before: Links, after: Links, left: Expression, right: Expression, e: Expression)
    requires Shape(t) && Linked(t, before) && e !in Nodes(t)
    requires left in after && right in after && after[left] == e && after[right] == e
    requires forall n :: n in Nodes(t) ==>
               n in before && n in after && after[n] == n.parent && (n != left && n != right ==> after[n] == before[n])
    ensures Rep(t) <==> left !in Inner(t) && right !in Inner(t)
  {
    LinkedIsParentsOk(t, after);
    LinkedIffUntouched(t, before, after, left, right, e);
  }

  // An expression without a parent is inside no tree, so composing parentless expressions is always in order.
  lemma ParentlessIsNotInner(t: Tree, n: Expression)
    requires Rep(t) && n.parent == null
    ensures n !in Inner(t)
  {
    if n in Inner(t) {
      HeldByParent(t, n);
    }
  }

  // Two trees that are both roots share a node only if they are the same tree.
  lemma RootsShareNothing(t: Tree, u: Tree, n: Expression)
    requires Rep(t) && Rep(u) && t.node.parent == null && u.node.parent == null
    requires n in Nodes(t) && n in Nodes(u)
    ensures t == u
  {
    SharedUpToRoot(t, u, n);
    NodeFixesTree(t, u);
  }

  lemma {:induction false} SharedUpToRoot(t: Tree, u: Tree, n: Expression)
    requires Rep(t) && Rep(u) && t.node.parent == null && u.node.parent == null
    requires n in Nodes(t) && n in Nodes(u)
    ensures t.node == u.node
    decreases |Ancestors(t, n)|
  {
    RootIsNotInner(t);
    RootIsNotInner(u);
    if n != t.node {
      HeldByParent(t, n);
      NextAncestor(t, n);
      if n != u.node {
        HeldByParent(u, n);
      }
      SharedUpToRoot(t, u, n.parent);
    } else if n != u.node {
      HeldByParent(u, n);
    }
  }

  // ---- Walking up ----

  // From the holder of `n` up to the root, found from the root downwards.
  ghost function Ancestors(t: Tree, n: Expression): seq<Expression>
    requires n in Nodes(t)
    decreases t
  {
    if n == t.node then []
    else if n in Nodes(t.left) then Ancestors(t.left, n) + [t.node]
    else Ancestors(t.right, n) + [t.node]
  }

  lemma {:induction false} NextAncestor(t: Tree, n: Expression)
    requires Rep(t) && n in Nodes(t) && n != t.node
    ensures n.parent != null && n.parent in Nodes(t)
    ensures Ancestors(t, n) == [n.parent] + Ancestors(t, n.parent)
    decreases t
  {
    HeldByParent(t, n);
    RootIsNotInner(t);
    var s := if n in Nodes(t.left) then t.left else t.right;
    if n == s.node {
      assert n.parent == t.node;
    } else {
      NextAncestor(s, n);
      HeldByParent(s, n);
      if n !in Nodes(t.left) && n.parent in Nodes(t.left) {
        OperandsAreNodes(t.left, n.parent);
      }
      assert Ancestors(t, n.parent) == Ancestors(s, n.parent) + [t.node];
    }
  }

  // ---- What a visitor sees ----

  // A visitor decides from all the calls made to it so far, the current one last.
  type Visitor = seq<Expression> -> bool

  // `calls` is the shortest part of `all`, from its start, that ends in a rejection, or all of it.
  ghost predicate StopsAtFirst(calls: seq<Expression>, all: seq<Expression>, f: Visitor) {
    && calls <= all
    && (forall k :: 0 < k < |calls| ==> f(calls[..k]))
    && (calls == all || (calls != [] && !f(calls)))
  }

  lemma StopsAtOnePlace(a: seq<Expression>, b: seq<Expression>, all: seq<Expression>, f: Visitor)
    requires StopsAtFirst(a, all, f) && StopsAtFirst(b, all, f)
    ensures a == b
  {
    assert |a| <= |b| ==> a == b[..|a|];
    assert |b| <= |a| ==> b == a[..|b|];
  }

  // What Parent() yields, seen in the tree.
  lemma ParentInTree(t: Tree, e: Expression)
    requires Rep(t) && t.node.parent == null && e in Nodes(t)
    ensures e.parent == null <==> e == t.node
    ensures e.parent != null ==> e.parent in Nodes(t) && Ancestors(t, e) == [e.parent] + Ancestors(t, e.parent)
  {
    if e != t.node {
      NextAncestor(t, e);
    }
  }

  ghost function Nth(all: seq<Expression>, i: nat): Expression? {
    if i < |all| then all[i] else null
  }

  // Following the parents from `e` runs through its ancestors and ends with nil.
  lemma {:induction false} ParentsRunThroughAncestors(t: Tree, e: Expression)
    requires Rep(t) && t.node.parent == null && e in Nodes(t)
    ensures e.parent == Nth(Ancestors(t, e), 0)
    ensures forall k :: 0 <= k < |Ancestors(t, e)| ==> Ancestors(t, e)[k].parent == Nth(Ancestors(t, e), k + 1)
    decreases |Ancestors(t, e)|
  {
    ParentInTree(t, e);
    if e.parent != null {
      ParentsRunThroughAncestors(t, e.parent);
    }
  }

  // The chain of parents from `e` on, on any heap: it ends, since each parent is younger.
  ghost function Chain(b: Births, e: Expression): seq<Expression>
    requires ParentsAreYounger(b) && e in b.at
    reads b.at.Keys
    decreases b.now - b.at[e]
  {
    if e.parent == null then [] else [e.parent] + Chain(b, e.parent)
  }

  // In a tree whose root has no parent the chain is that of the ancestors.
  lemma {:induction false} ChainIsAncestors(t: Tree, b: Births, e: Expression)
    requires Rep(t) && t.node.parent == null && e in Nodes(t) && ParentsAreYounger(b) && e in b.at
    ensures Chain(b, e) == Ancestors(t, e)
    decreases |Ancestors(t, e)|
  {
    ParentInTree(t, e);
    if e.parent != null {
      ChainIsAncestors(t, b, e.parent);
    }
  }

  // An operand that was taken from somewhere leads to its new holder from then on.
  lemma TakenLeadsToHolder(b: Births, n: Expression, e: Expression)
    requires ParentsAreYounger(b) && n in b.at && n.parent == e && e.parent == null
    ensures Chain(b, n) == [e]
  {
    assert e in b.at;
    var none: seq<Expression> := [];
    assert Chain(b, e) == none;
  }

  // What is still to be visited when the walk has come to `e`.
  ghost function Ahead(b: Births, e: Expression?): seq<Expression>
    requires ParentsAreYounger(b) && (e != null ==> e in b.at)
    reads b.at.Keys
  {
    if e == null then [] else [e] + Chain(b, e)
  }

  lemma OneAhead(b: Births, e: Expression)
    requires ParentsAreYounger(b) && e in b.at
    ensures e.parent != null ==> e.parent in b.at && b.at[e] < b.at[e.parent] < b.now
    ensures Ahead(b, e.parent) == Chain(b, e)
  {
  }

  ghost predicate Accepted(calls: seq<Expression>, f: Visitor) {
    forall k :: 0 < k <= |calls| ==> f(calls[..k])
  }

  lemma AcceptedMore(calls: seq<Expression>, e: Expression, f: Visitor)
    requires Accepted(calls, f)
    ensures Accepted(calls + [e], f) <==> f(calls + [e])
  {
    var more := calls + [e];
    assert more[..|more|] == more;
    assert forall k :: 0 < k <= |calls| ==> more[..k] == calls[..k];
  }

  lemma RejectedStops(calls: seq<Expression>, e: Expression, rest: seq<Expression>, f: Visitor)
    requires Accepted(calls, f) && !f(calls + [e])
    ensures StopsAtFirst(calls + [e], calls + ([e] + rest), f)
  {
    var more := calls + [e];
    assert calls + ([e] + rest) == more + rest;
    assert forall k :: 0 < k < |more| ==> more[..k] == calls[..k];
  }

  // Visits the chain of parents, nearest first, until the visitor rejects one.
  method IterateParents(exp: Expression?, f: Visitor, ghost b: Births) returns (calls: seq<Expression>)
    requires ParentsAreYounger(b) && (exp != null ==> exp in b.at)
    ensures StopsAtFirst(calls, if exp == null then [] else Chain(b, exp), f)
  {
    calls := [];
    var e := exp;
    if e != null {
      OneAhead(b, e);
      e := e.parent;
    }
    ghost var all := Ahead(b, e);
    assert calls + Ahead(b, e) == all;
    while e != null
      invariant e != null ==> e in b.at
      invariant calls + Ahead(b, e) == all
      invariant Accepted(calls, f)
      decreases if e == null then 0 else b.now - b.at[e] + 1
    {
      OneAhead(b, e);
      if !f(calls + [e]) {
        RejectedStops(calls, e, Chain(b, e), f);
        return calls + [e];
      }
      AcceptedMore(calls, e, f);
      assert calls + ([e] + Chain(b, e)) == (calls + [e]) + Chain(b, e);
      calls := calls + [e];
      e := e.parent;
    }
  }

  // ---- Post-order ----

  ghost function PostOrder(t: Tree): seq<Expression> {
    match t
    case Leaf(e) => [e]
    case Bin(e, l, r) => PostOrder(l) + PostOrder(r) + [e]
  }

  // The recursion through Accept: the calls made so far, and whether to go on.
  function Accept(e: Expression, calls: seq<Expression>, f: Visitor, ghost t: Tree): (seq<Expression>, bool)
    requires Shape(t) && t.node == e
    decreases t
  {
    if IsBinary(e.kind) then
      var (c1, ok1) := Accept(e.left, calls, f, t.left);
      if !ok1 then (c1, false)
      else
        var (c2, ok2) := Accept(e.right, c1, f, t.right);
        if !ok2 then (c2, false) else (c2 + [e], f(c2 + [e]))
    else (calls + [e], f(calls + [e]))
  }

  function IteratePostOrder(e: Expression, f: Visitor, ghost t: Tree): seq<Expression>
    requires Shape(t) && t.node == e
  {
    Accept(e, [], f, t).0
  }

  // One call after the other along a list.
  ghost function Walk(calls: seq<Expression>, todo: seq<Expression>, f: Visitor): (seq<Expression>, bool)
    decreases |todo|
  {
    if todo == [] then (calls, true)
    else if !f(calls + [todo[0]]) then (calls + [todo[0]], false)
    else Walk(calls + [todo[0]], todo[1..], f)
  }

  lemma {:induction false} WalkOn(calls: seq<Expression>, a: seq<Expression>, b: seq<Expression>, f: Visitor)
    ensures Walk(calls, a + b, f) == (var (c, ok) := Walk(calls, a, f); if ok then Walk(c, b, f) else (c, false))
    decreases |a|
  {
    if a == [] {
      assert a + b == b;
    } else {
      assert (a + b)[1..] == a[1..] + b;
      WalkOn(calls + [a[0]], a[1..], b, f);
    }
  }

  lemma {:induction false} AcceptIsWalk(t: Tree, calls: seq<Expression>, f: Visitor)
    requires Shape(t)
    ensures Accept(t.node, calls, f, t) == Walk(calls, PostOrder(t), f)
    decreases t
  {
    match t
    case Leaf(e) =>
      assert [e][1..] == [];
    case Bin(e, l, r) =>
      AcceptIsWalk(l, calls, f);
      var (c1, ok1) := Walk(calls, PostOrder(l), f);
      WalkOn(calls, PostOrder(l), PostOrder(r), f);
      if ok1 {
        AcceptIsWalk(r, c1, f);
      }
      WalkOn(calls, PostOrder(l) + PostOrder(r), [e], f);
      assert [e][1..] == [];
  }

  lemma {:induction false} WalkStopsAtFirst(calls: seq<Expression>, todo: seq<Expression>, f: Visitor)
    requires forall k :: 0 < k <= |calls| ==> f(calls[..k])
    ensures StopsAtFirst(Walk(calls, todo, f).0, calls + todo, f)
    decreases |todo|
  {
    if todo == [] {
      assert calls + todo == calls;
    } else {
      var c := calls + [todo[0]];
      assert calls + todo == c + todo[1..];
      assert forall k :: 0 < k < |c| ==> c[..k] == calls[..k];
      assert c[..|c|] == c;
      if f(c) {
        WalkStopsAtFirst(c, todo[1..], f);
      }
    }
  }

  // The visitor is called on exactly the nodes of the left-to-right post-order, up to and including the first
  // one it rejects.
  lemma PostOrderStopsAtFirst(t: Tree, f: Visitor)
    requires Shape(t)
    ensures StopsAtFirst(IteratePostOrder(t.node, f, t), PostOrder(t), f)
  {
    AcceptIsWalk(t, [], f);
    WalkStopsAtFirst([], PostOrder(t), f);
    assert [] + PostOrder(t) == PostOrder(t);
  }

  // The post-order lists the nodes of the tree, one entry for each place in it, and the root last.
  lemma {:induction false} PostOrderListsNodes(t: Tree, n: Expression)
    requires Shape(t)
    ensures n in PostOrder(t) <==> n in Nodes(t)
    ensures |PostOrder(t)| == Size(t)
    ensures PostOrder(t)[|PostOrder(t)| - 1] == t.node
    decreases t
  {
    match t
    case Leaf(_) =>
    case Bin(_, l, r) =>
      PostOrderListsNodes(l, n);
      PostOrderListsNodes(r, n);
  }

  ghost predicate Within(s: Tree, t: Tree) {
    s == t || (t.Bin? && (Within(s, t.left) || Within(s, t.right)))
  }

  // At place `k` stands the node of `s`, right before it its right operand, and right before all of that its left one.
  ghost predicate PlacedAt(all: seq<Expression>, s: Tree, k: int)
    requires s.Bin?
  {
    && 1 + Size(s.right) <= k < |all|
    && all[k] == s.node && all[k - 1] == s.node.right && all[k - 1 - Size(s.right)] == s.node.left
  }

  lemma PlacedInPart(front: seq<Expression>, part: seq<Expression>, back: seq<Expression>, s: Tree, k: int)
    requires s.Bin? && PlacedAt(part, s, k)
    ensures PlacedAt(front + part + back, s, |front| + k)
  {
    assert forall i :: 0 <= i < |part| ==> (front + part + back)[|front| + i] == part[i];
  }

  lemma PlacedAtEnd(t: Tree)
    requires Shape(t) && t.Bin?
    ensures PlacedAt(PostOrder(t), t, |PostOrder(t)| - 1)
  {
    var l, r := PostOrder(t.left), PostOrder(t.right);
    PostOrderListsNodes(t.left, t.left.node);
    PostOrderListsNodes(t.right, t.right.node);
    var all := PostOrder(t);
    assert all == l + r + [t.node];
    assert all[|all| - 2] == r[|r| - 1] && all[|l| - 1] == l[|l| - 1];
  }

  // Wherever an operation stands in a tree, both its operands are visited before it, the left one first.
  lemma {:induction false} OperandsComeFirst(t: Tree, s: Tree) returns (k: int)
    requires Shape(t) && Within(s, t) && s.Bin?
    ensures PlacedAt(PostOrder(t), s, k)
    decreases t
  {
    if s == t {
      PlacedAtEnd(t);
      k := |PostOrder(t)| - 1;
    } else {
      var l, r := PostOrder(t.left), PostOrder(t.right);
      assert PostOrder(t) == [] + l + (r + [t.node]) && PostOrder(t) == l + r + [t.node];
      if Within(s, t.left) {
        k := OperandsComeFirst(t.left, s);
        PlacedInPart([], l, r + [t.node], s, k);
      } else {
        k := OperandsComeFirst(t.right, s);
        PlacedInPart(l, r, [t.node], s, k);
        k := |l| + k;
      }
    }
  }
}
