/**
 The heap form of csh's variable tree (bin/csh/sh.set.c): nodes with left, right and parent
 links and a balance factor, hanging off the left link of a header node.

 A ghost value of type VTree describes what a set of nodes holds; Rep says that the nodes
 match it. The rotations and `balance` are shown to change nodes and value alike.
 */
module CshVarHeap {
  import opened CshAvl

  class VarEnt {
    var name: string
    var vec: seq<string>
    var bal: int
    var left: VarEnt?
    var right: VarEnt?
    var parent: VarEnt?

    constructor (name: string, parent: VarEnt?)
      ensures this.name == name && vec == [] && bal == 0
      ensures left == null && right == null && this.parent == parent
    {
      this.name, vec, bal := name, [], 0;
      left, right, this.parent := null, null, parent;
    }
  }

  type VTree = Tree<VarEnt>
  type VCtx = Ctx<VarEnt>

  ghost function Root(t: VTree): VarEnt? {
    if t.Nil? then null else t.e
  }

  ghost function Ents(t: VTree): set<VarEnt> {
    if t.Nil? then {} else Ents(t.l) + {t.e} + Ents(t.r)
  }

  /** The nodes of t hold its items, balance factors and links, each node once. */
  ghost predicate Rep(t: VTree, parent: VarEnt?)
    reads Ents(t)
  {
    t.Nil? ||
    (&& t.e.parent == parent
     && Holds(t.e, t.item, t.bal)
     && t.e.left == Root(t.l) && t.e.right == Root(t.r)
     && t.e !in Ents(t.l) && t.e !in Ents(t.r) && Ents(t.l) !! Ents(t.r)
     && Rep(t.l, t.e) && Rep(t.r, t.e))
  }

  ghost predicate Holds(e: VarEnt, item: Item, bal: int)
    reads e
  {
    e.name == item.name && e.vec == item.vec && e.bal == bal
  }

  lemma Allocated(t: VTree)
    ensures forall o <- Ents(t) :: allocated(o)
  {
    if t.Node? {
      Allocated(t.l);
      Allocated(t.r);
    }
  }

  // ---------------------------------------------------------------- rotations in place

  ghost predicate SameEnts(t: VTree, u: VTree) {
    Ents(t) == Ents(u)
  }

  /** A node matches t when it has t's data and links and the nodes below match its subtrees. */
  lemma Parts(t: VTree, parent: VarEnt?)
    requires t.Node? && Rep(t, parent)
    ensures t.e.parent == parent && Holds(t.e, t.item, t.bal) && t.e.left == Root(t.l) && t.e.right == Root(t.r)
    ensures t.e !in Ents(t.l) && t.e !in Ents(t.r) && Ents(t.l) !! Ents(t.r) && Ents(t) == Ents(t.l) + {t.e} + Ents(t.r)
    ensures Rep(t.l, t.e) && Rep(t.r, t.e)
  {
  }

  lemma Assembled(t: VTree, parent: VarEnt?)
    requires t.Node? && t.e.parent == parent && Holds(t.e, t.item, t.bal) && t.e.left == Root(t.l) && t.e.right == Root(t.r)
    requires t.e !in Ents(t.l) && t.e !in Ents(t.r) && Ents(t.l) !! Ents(t.r) && Rep(t.l, t.e) && Rep(t.r, t.e)
    ensures Rep(t, parent) && Ents(t) == Ents(t.l) + {t.e} + Ents(t.r)
  {
  }

  lemma Empty(t: VTree)
    ensures if t.Nil? then Ents(t) == {} else t.e in Ents(t)
  {
  }

  /** The conditional assignment to the parent of a moved subtree. */
  method SetParent(x: VarEnt?, p: VarEnt, ghost t: VTree, ghost was: VarEnt?)
    requires Rep(t, was) && x == Root(t)
    modifies (if x == null then {} else {x})`parent
    ensures Rep(t, p)
    ensures x != null ==> x.left == old(x.left) && x.right == old(x.right)
  {
    assert t.Node? ==> Rep(t.l, t.e) && Rep(t.r, t.e);
    if x != null {
      x.parent := p;
    }
  }

  /** The macro rleft(p), up to the assignment of its result. */
  method RotateLeft(p: VarEnt, ghost t: VTree, ghost par: VarEnt?) returns (q: VarEnt)
    requires Rep(t, par) && t.Node? && t.e == p && t.r.Node? && par !in Ents(t)
    modifies Ents(t)`left, Ents(t)`right, Ents(t)`parent, Ents(t)`bal
    ensures Rep(RotLeft(t), par) && SameEnts(RotLeft(t), t) && q == Root(RotLeft(t)) == t.r.e
  {
    hide Items, Height, Rep, Ents;
    ghost var m := t.r.l;
    Parts(t, par);
    Parts(t.r, p);
    Empty(m);
    Allocated(t);
    q := p.right;
    q.parent := p.parent;
    p.right := q.left;
    SetParent(q.left, p, m, q);
    q.left := p;
    p.parent := q;
    Assembled(t.(r := m), q);
    Assembled(RotLeft(t), par);
  }

  /** The macro rright(p), up to the assignment of its result. */
  method RotateRight(p: VarEnt, ghost t: VTree, ghost par: VarEnt?) returns (q: VarEnt)
    requires Rep(t, par) && t.Node? && t.e == p && t.l.Node? && par !in Ents(t)
    modifies Ents(t)`left, Ents(t)`right, Ents(t)`parent, Ents(t)`bal
    ensures Rep(RotRight(t), par) && SameEnts(RotRight(t), t) && q == Root(RotRight(t)) == t.l.e
  {
    hide Items, Height, Rep, Ents;
    ghost var m := t.l.r;
    Parts(t, par);
    Parts(t.l, p);
    Empty(m);
    Allocated(t);
    q := p.left;
    q.parent := p.parent;
    p.left := q.right;
    SetParent(q.right, p, m, q);
    q.right := p;
    p.parent := q;
    Assembled(t.(l := m), q);
    Assembled(RotRight(t), par);
  }

  /** Set the three balance factors after a rotation. */
  method StoreBals(q: VarEnt, bl: int, b: int, br: int, ghost t: VTree, ghost par: VarEnt?)
    requires Rep(t, par) && t.Node? && t.l.Node? && t.r.Node? && t.e == q
    modifies Ents(t)`left, Ents(t)`right, Ents(t)`parent, Ents(t)`bal
    ensures Rep(SetBals(t, bl, b, br), par) && SameEnts(SetBals(t, bl, b, br), t)
  {
    hide Items, Height;
    q.left.bal := bl;
    q.right.bal := br;
    q.bal := b;
    assert Rep(SetBal(t.l, bl), q);
    assert Rep(SetBal(t.r, br), q);
  }

  /** rright(p->v_right) */
  method RotateRightChild(p: VarEnt, ghost t: VTree, ghost par: VarEnt?)
    requires Rep(t, par) && t.Node? && t.e == p && t.r.Node? && t.r.l.Node?
    modifies Ents(t)`left, Ents(t)`right, Ents(t)`parent, Ents(t)`bal
    ensures Rep(t.(r := RotRight(t.r)), par) && SameEnts(t.(r := RotRight(t.r)), t)
  {
    hide Items, Height, RotRight;
    assert Rep(t.l, p) && Rep(t.r, p);
    Allocated(t.l);
    var c := RotateRight(p.right, t.r, p);
    ghost var r := RotRight(t.r);
    assert Rep(t.l, p) && Ents(r) == Ents(t.r);
    p.right := c;
    assert Rep(t.l, p) && Rep(r, p);
  }

  /** rleft(p->v_left) */
  method RotateLeftChild(p: VarEnt, ghost t: VTree, ghost par: VarEnt?)
    requires Rep(t, par) && t.Node? && t.e == p && t.l.Node? && t.l.r.Node?
    modifies Ents(t)`left, Ents(t)`right, Ents(t)`parent, Ents(t)`bal
    ensures Rep(t.(l := RotLeft(t.l)), par) && SameEnts(t.(l := RotLeft(t.l)), t)
  {
    hide Items, Height, RotLeft;
    assert Rep(t.l, p) && Rep(t.r, p);
    Allocated(t.r);
    var c := RotateLeft(p.left, t.l, p);
    ghost var l := RotLeft(t.l);
    assert Rep(t.r, p) && Ents(l) == Ents(t.l);
    p.left := c;
    assert Rep(t.r, p) && Rep(l, p);
  }

  /** The "right heavy" switch of balance on the node p. */
  method MakeRightHeavy(p: VarEnt, ghost t: VTree, ghost par: VarEnt?) returns (q: VarEnt)
    requires Rep(t, par) && Heavy(t, 1) && t.e == p && par !in Ents(t)
    requires t.bal == 1 ==> t.r.Node? && (t.r.bal == -1 ==> t.r.l.Node?)
    modifies Ents(t)`left, Ents(t)`right, Ents(t)`parent, Ents(t)`bal
    ensures Rep(RightHeavy(t), par) && SameEnts(RightHeavy(t), t) && q == RightHeavy(t).e
  {
    hide Items, Height, Avl;
    q := p;
    if p.bal == -1 {
      p.bal := 0;
    } else if p.bal == 0 {
      p.bal := 1;
    } else if p.right.bal == 1 {
      q := RotateLeft(p, t, par);
      ghost var u := RotLeft(t);
      StoreTwo(q, 0, 0, true, u, par);
    } else if p.right.bal == 0 {
      q := RotateLeft(p, t, par);
      ghost var u := RotLeft(t);
      StoreTwo(q, 1, -1, true, u, par);
    } else if p.right.bal == -1 {
      RotateRightChild(p, t, par);
      ghost var t' := t.(r := RotRight(t.r));
      q := RotateLeft(p, t', par);
      ghost var u := RotLeft(t');
      StoreBals(q, if q.bal < 1 then 0 else -1, 0, if q.bal > -1 then 0 else 1, u, par);
    }
  }

  /** Set the balance factor of the root and of one child after a single rotation. */
  method StoreTwo(q: VarEnt, bc: int, b: int, onLeft: bool, ghost t: VTree, ghost par: VarEnt?)
    requires Rep(t, par) && t.Node? && t.e == q && (if onLeft then t.l.Node? else t.r.Node?)
    modifies Ents(t)`left, Ents(t)`right, Ents(t)`parent, Ents(t)`bal
    ensures var u := if onLeft then t.(l := SetBal(t.l, bc), bal := b) else t.(r := SetBal(t.r, bc), bal := b);
            Rep(u, par) && SameEnts(u, t)
  {
    hide Items, Height;
    if onLeft {
      q.left.bal := bc;
      q.bal := b;
      assert Rep(SetBal(t.l, bc), q);
    } else {
      q.right.bal := bc;
      q.bal := b;
      assert Rep(SetBal(t.r, bc), q);
    }
  }

  /** The "left heavy" switch of balance on the node p. */
  method MakeLeftHeavy(p: VarEnt, ghost t: VTree, ghost par: VarEnt?) returns (q: VarEnt)
    requires Rep(t, par) && Heavy(t, -1) && t.e == p && par !in Ents(t)
    requires t.bal == -1 ==> t.l.Node? && (t.l.bal == 1 ==> t.l.r.Node?)
    modifies Ents(t)`left, Ents(t)`right, Ents(t)`parent, Ents(t)`bal
    ensures Rep(LeftHeavy(t), par) && SameEnts(LeftHeavy(t), t) && q == LeftHeavy(t).e
  {
    hide Items, Height, Avl;
    q := p;
    if p.bal == 1 {
      p.bal := 0;
    } else if p.bal == 0 {
      p.bal := -1;
    } else if p.left.bal == -1 {
      q := RotateRight(p, t, par);
      ghost var u := RotRight(t);
      StoreTwo(q, 0, 0, false, u, par);
    } else if p.left.bal == 0 {
      q := RotateRight(p, t, par);
      ghost var u := RotRight(t);
      StoreTwo(q, -1, 1, false, u, par);
    } else if p.left.bal == 1 {
      RotateLeftChild(p, t, par);
      ghost var t' := t.(l := RotLeft(t.l));
      q := RotateRight(p, t', par);
      ghost var u := RotRight(t');
      StoreBals(q, if q.bal < 1 then 0 else -1, 0, if q.bal > -1 then 0 else 1, u, par);
    }
  }

  // ---------------------------------------------------------------- contexts

  ghost function CtxEnts(c: VCtx): set<VarEnt> {
    match c
    case Top => {}
    case InLeft(up, e, _, _, r) => CtxEnts(up) + {e} + Ents(r)
    case InRight(up, l, e, _, _) => CtxEnts(up) + {e} + Ents(l)
  }

  /** The node the hole hangs off: at the top, the header. */
  ghost function CtxParent(c: VCtx, header: VarEnt): VarEnt {
    if c.Top? then header else c.e
  }

  /** Which link of its parent the hole is. */
  ghost function Side(c: VCtx): int {
    if c.InRight? then 1 else 0
  }

  ghost predicate CtxRep(c: VCtx, header: VarEnt, child: VarEnt?)
    reads CtxEnts(c) + {header}
  {
    match c
    case Top => header.parent == null && header.right == null && header.left == child
    case InLeft(up, e, item, bal, r) =>
      && Holds(e, item, bal)
      && e.left == child && e.right == Root(r) && e.parent == CtxParent(up, header)
      && e !in CtxEnts(up) && e !in Ents(r) && Ents(r) !! CtxEnts(up)
      && header != e && header !in Ents(r)
      && Rep(r, e) && CtxRep(up, header, e)
    case InRight(up, l, e, item, bal) =>
      && Holds(e, item, bal)
      && e.right == child && e.left == Root(l) && e.parent == CtxParent(up, header)
      && e !in CtxEnts(up) && e !in Ents(l) && Ents(l) !! CtxEnts(up)
      && header != e && header !in Ents(l)
      && Rep(l, e) && CtxRep(up, header, e)
  }

  /** The whole tree, seen as the subtree t in the context c below the header. */
  ghost predicate State(c: VCtx, t: VTree, header: VarEnt)
    reads CtxEnts(c) + Ents(t) + {header}
  {
    && Rep(t, CtxParent(c, header)) && CtxRep(c, header, Root(t))
    && Ents(t) !! CtxEnts(c) && header !in Ents(t)
  }

  /** The subtree one level up, and its context. */
  ghost function Above(c: VCtx, t: VTree): VTree
    requires !c.Top?
  {
    if c.InLeft? then Node(t, c.e, c.item, c.bal, c.r) else Node(c.l, c.e, c.item, c.bal, t)
  }

  lemma MoveUp(c: VCtx, t: VTree, header: VarEnt)
    requires State(c, t, header) && !c.Top?
    ensures State(c.up, Above(c, t), header)
    ensures CtxEnts(c.up) + Ents(Above(c, t)) == CtxEnts(c) + Ents(t)
  {
  }

  lemma MoveLeft(c: VCtx, t: VTree, header: VarEnt)
    requires State(c, t, header) && t.Node?
    ensures var d := InLeft(c, t.e, t.item, t.bal, t.r);
            State(d, t.l, header) && CtxEnts(d) + Ents(t.l) == CtxEnts(c) + Ents(t)
  {
  }

  lemma MoveRight(c: VCtx, t: VTree, header: VarEnt)
    requires State(c, t, header) && t.Node?
    ensures var d := InRight(c, t.l, t.e, t.item, t.bal);
            State(d, t.r, header) && CtxEnts(d) + Ents(t.r) == CtxEnts(c) + Ents(t)
  {
  }

  lemma {:induction false} MoveToTop(c: VCtx, t: VTree, header: VarEnt)
    requires State(c, t, header)
    ensures State(Top, Plug(c, t), header)
    ensures Ents(Plug(c, t)) == CtxEnts(c) + Ents(t)
  {
    if !c.Top? {
      MoveUp(c, t, header);
      MoveToTop(c.up, Above(c, t), header);
    }
  }

  lemma {:induction false} CtxAllocated(c: VCtx)
    ensures forall o <- CtxEnts(c) :: allocated(o)
  {
    match c
    case Top =>
    case InLeft(up, e, item, bal, r) =>
      CtxAllocated(up);
      Allocated(r);
    case InRight(up, l, e, item, bal) =>
      CtxAllocated(up);
      Allocated(l);
  }

  /** pp->v_link[f] = x */
  method SetLink(pp: VarEnt, f: int, x: VarEnt?, ghost c: VCtx, header: VarEnt, ghost was: VarEnt?)
    requires CtxRep(c, header, was) && pp == CtxParent(c, header) && f == Side(c)
    modifies pp`left, pp`right
    ensures CtxRep(c, header, x)
  {
    assert !c.Top? ==> CtxRep(c.up, header, c.e);
    if f == 0 {
      pp.left := x;
    } else {
      pp.right := x;
    }
    assert !c.Top? ==> CtxRep(c.up, header, c.e);
  }

  /** ff = pp->v_right == p */
  lemma SideFound(c: VCtx, t: VTree, header: VarEnt)
    requires State(c, t, header) && t.Node?
    ensures (CtxParent(c, header).right == t.e) == (Side(c) == 1)
  {
    assert t.e in Ents(t);
  }

  /** What one round of balance does to the tree t, one too heavy on the side s. */
  ghost predicate Repaired(t: VTree, s: int, u: VTree) {
    && t.Node? && u.Node? && Avl(u) && Items(u) == Items(t) && SameEnts(u, t)
    && Height(u) == OldHeight(t, s, 0) + (if u.bal == 0 then 0 else 1)
    && Height(u) == OldHeight(t, s, 1) - (if u.bal == 0 then 1 else 0)
  }

  /** One round of balance at p, which is one too heavy on one side. */
  method Repair(p: VarEnt, pp: VarEnt, ff: int, right: bool, ghost up: VCtx, ghost t: VTree, header: VarEnt)
    returns (q: VarEnt, ghost u: VTree)
    requires State(up, t, header) && Heavy(t, if right then 1 else -1) && t.e == p
    requires pp == CtxParent(up, header) && ff == Side(up)
    modifies Ents(t)`left, Ents(t)`right, Ents(t)`parent, Ents(t)`bal, pp`left, pp`right
    ensures Repaired(t, if right then 1 else -1, u) && u.e == q && q.bal == u.bal
    ensures State(up, u, header)
  {
    CtxAllocated(up);
    assert pp !in Ents(t);
    q, u := Rebuild(p, right, t, pp);
    assert Rep(u, pp) && CtxRep(up, header, p);
    Allocated(u);
    assert Ents(u) == Ents(t);
    hide Rep, CtxRep, Repaired;
    SetLink(pp, ff, q, up, header, p);
  }

  method Rebuild(p: VarEnt, right: bool, ghost t: VTree, ghost pp: VarEnt)
    returns (q: VarEnt, ghost u: VTree)
    requires Rep(t, pp) && Heavy(t, if right then 1 else -1) && t.e == p && pp !in Ents(t)
    modifies Ents(t)`left, Ents(t)`right, Ents(t)`parent, Ents(t)`bal
    ensures Repaired(t, if right then 1 else -1, u) && u.e == q && q.bal == u.bal && Rep(u, pp)
  {
    if right {
      RightHeavyRepairs(t);
      u := RightHeavy(t);
      q := MakeRightHeavy(p, t, pp);
      hide RightHeavy, Avl, Height, Items;
    } else {
      LeftHeavyRepairs(t);
      u := LeftHeavy(t);
      q := MakeLeftHeavy(p, t, pp);
      hide LeftHeavy, Avl, Height, Items;
    }
  }

  /** The height the context of a grown (d == 0) or shrunk (d == 1) subtree was built for. */
  ghost function WasHeight(s: VTree, d: int): int {
    if d == 0 then Height(s) - 1 else Height(s) + 1
  }

  lemma UpHeavy(c: VCtx, s: VTree, d: int)
    requires !c.Top? && Avl(s) && CtxAvl(c, WasHeight(s, d)) && 0 <= d <= 1
    ensures var t := Above(c, s);
            var h := if Side(c) != d then 1 else -1;
            Heavy(t, h) && CtxAvl(c.up, OldHeight(t, h, d))
  {
    hide Height, Avl, Items, Ents;
  }

  /** Rebalance from the node p upwards after the subtree s, hanging off link f of p, has
      grown by an insertion (d == 0) or shrunk by a deletion (d == 1). */
  method Balance(start: VarEnt, side: int, d: int, header: VarEnt, ghost hole: VCtx, ghost sub: VTree)
    returns (ghost tree: VTree)
    requires State(hole, sub, header) && start == CtxParent(hole, header) && side == Side(hole)
    requires 0 <= d <= 1 && Avl(sub) && CtxAvl(hole, WasHeight(sub, d))
    modifies CtxEnts(hole)`left, CtxEnts(hole)`right, CtxEnts(hole)`parent, CtxEnts(hole)`bal
    modifies Ents(sub)`left, Ents(sub)`right, Ents(sub)`parent, Ents(sub)`bal, header`left, header`right
    ensures State(Top, tree, header) && Avl(tree)
    ensures Items(tree) == Before(hole) + Items(sub) + After(hole)
    ensures Ents(tree) == CtxEnts(hole) + Ents(sub)
  {
    hide Rep, Avl, Height, Items, CtxAvl, WasHeight, OldHeight, Heavy;
    ghost var c, s := hole, sub;
    var p, f := start, side;
    PlugItems(c, s);
    while p.parent != null
      invariant State(c, s, header) && p == CtxParent(c, header) && f == Side(c)
      invariant Avl(s) && CtxAvl(c, WasHeight(s, d))
      invariant Items(Plug(c, s)) == Items(Plug(hole, sub))
      invariant CtxEnts(c) + Ents(s) == CtxEnts(hole) + Ents(sub)
      decreases c
    {
      MoveUp(c, s, header);
      UpHeavy(c, s, d);
      ghost var up, t := c.up, Above(c, s);
      var pp := p.parent;
      SideFound(up, t, header);
      var ff := if pp.right == p then 1 else 0;
      ghost var u;
      p, u := Repair(p, pp, ff, f != d, up, t, header);
      RepairedFits(up, t, u, if f != d then 1 else -1, d);
      if (p.bal == 0) != (d == 1) {
        MoveToTop(up, u, header);
        return Plug(up, u);
      }
      c, s := up, u;
      p, f := pp, ff;
    }
    tree := s;
  }

  /** After one round, either the whole tree is balanced or the round moves one level up. */
  lemma RepairedFits(up: VCtx, t: VTree, u: VTree, h: int, d: int)
    requires Repaired(t, h, u) && CtxAvl(up, OldHeight(t, h, d)) && 0 <= d <= 1
    ensures Avl(u) && Ents(u) == Ents(t)
    ensures Items(Plug(up, u)) == Items(Plug(up, t))
    ensures if (u.bal == 0) != (d == 1) then Avl(Plug(up, u)) else CtxAvl(up, WasHeight(u, d))
  {
    hide OldHeight, Avl, Items, CtxAvl;
    PlugItems(up, t);
    PlugItems(up, u);
    PlugAvl(up, u);
  }

  // ---------------------------------------------------------------- finding a place

  /** Where a node of the tree is. */
  ghost function Locate(c: VCtx, t: VTree, e: VarEnt): (r: (VCtx, VTree))
    requires e in Ents(t)
    ensures r.1.Node? && r.1.e == e && Plug(r.0, r.1) == Plug(c, t)
    decreases t
  {
    if t.e == e then (c, t)
    else if e in Ents(t.l) then Locate(InLeft(c, t.e, t.item, t.bal, t.r), t.l, e)
    else Locate(InRight(c, t.l, t.e, t.item, t.bal), t.r, e)
  }

  lemma {:induction false} LocateState(c: VCtx, t: VTree, e: VarEnt, header: VarEnt)
    requires e in Ents(t) && State(c, t, header)
    ensures State(Locate(c, t, e).0, Locate(c, t, e).1, header)
    ensures CtxEnts(Locate(c, t, e).0) + Ents(Locate(c, t, e).1) == CtxEnts(c) + Ents(t)
    decreases t
  {
    Empty(t);
    hide State, CtxEnts, Plug;
    if t.e == e {
    } else if e in Ents(t.l) {
      MoveLeft(c, t, header);
      LocateState(InLeft(c, t.e, t.item, t.bal, t.r), t.l, e, header);
    } else {
      MoveRight(c, t, header);
      LocateState(InRight(c, t.l, t.e, t.item, t.bal), t.r, e, header);
    }
  }

  lemma {:induction false} RightmostState(c: VCtx, t: VTree, header: VarEnt)
    requires t.Node? && State(c, t, header)
    ensures State(Rightmost(c, t).0, Rightmost(c, t).1, header)
    ensures CtxEnts(Rightmost(c, t).0) + Ents(Rightmost(c, t).1) == CtxEnts(c) + Ents(t)
    decreases t
  {
    hide State, CtxEnts, Plug, Ents;
    if t.r.Node? {
      MoveRight(c, t, header);
      RightmostState(InRight(c, t.l, t.e, t.item, t.bal), t.r, header);
    }
  }
}
