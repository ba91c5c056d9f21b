/**
 csh's variable and alias tables (bin/csh/sh.set.c): setq, unsetv1, adrof1, madrof, unset1
 and plist on the tree of CshVarHeap, stated as operations on a map from names to values.
 */
module CshVars {
  import Machine
  import opened CshAvl
  import opened CshVarHeap
  import opened CshGlob

  /** trim: the loops over the words and their characters clear every quote bit. */
  method Trim(vec: seq<string>) returns (r: seq<string>)
    ensures |r| == |vec| && forall i :: 0 <= i < |vec| ==> |r[i]| == |vec[i]|
    ensures forall i, j :: 0 <= i < |vec| && 0 <= j < |vec[i]| ==> r[i][j] as int == vec[i][j] as int % 128
  {
    r := vec;
    var t := 0;
    while t < |vec|
      invariant t <= |r| == |vec| && (forall i :: 0 <= i < t ==> |r[i]| == |vec[i]|) && forall i :: t <= i < |vec| ==> r[i] == vec[i]
      invariant forall i, j :: 0 <= i < t && 0 <= j < |vec[i]| ==> r[i][j] as int == vec[i][j] as int % 128
    {
      var w := TrimWord(vec[t]);
      r := r[t := w];
      t := t + 1;
    }
  }

  method TrimWord(w: string) returns (r: string)
    ensures |r| == |w| && forall j :: 0 <= j < |w| ==> r[j] as int == w[j] as int % 128
  {
    r := w;
    var p := 0;
    while p < |w|
      invariant p <= |r| == |w|
      invariant forall j :: 0 <= j < p ==> r[j] as int == w[j] as int % 128
      invariant forall j :: p <= j < |w| ==> r[j] == w[j]
    {
      r := r[p := (r[p] as int % TRIM) as char];
      p := p + 1;
    }
  }

  class VarTable {
    const header: VarEnt
    ghost var tree: VTree

    ghost predicate Valid()
      reads this, header, Ents(tree)
    {
      State(Top, tree, header) && Avl(tree) && Sorted(Items(tree))
    }

    /** The variables and their values. */
    ghost function Vars(): map<string, seq<string>>
      reads this
    {
      Bindings(Items(tree))
    }

    constructor ()
      ensures Valid() && Vars() == map[] && fresh(header) && Ents(tree) == {}
    {
      header := new VarEnt("", null);
      tree := Nil;
    }

    /** A search for name has come down to the subtree t in the context c. */
    ghost predicate Seeking(c: VCtx, t: VTree, name: string)
      reads this, header, CtxEnts(c), Ents(t)
    {
      State(c, t, header) && Plug(c, t) == tree && Fits(c, name)
    }

    lemma SeekStart(name: string)
      requires Valid()
      ensures Seeking(Top, tree, name) && header.left == Root(tree)
    {
    }

    /** One step of a search. */
    lemma SeekDown(c: VCtx, t: VTree, name: string)
      requires Seeking(c, t, name) && t.Node? && Sorted(Items(tree))
      ensures t.e.name == t.item.name && t.e.vec == t.item.vec
      ensures t.e.left == Root(t.l) && t.e.right == Root(t.r)
      ensures Less(name, t.e.name) ==> Seeking(InLeft(c, t.e, t.item, t.bal, t.r), t.l, name)
      ensures Less(t.e.name, name) ==> Seeking(InRight(c, t.l, t.e, t.item, t.bal), t.r, name)
      ensures CtxEnts(c) + Ents(t) == CtxEnts(InLeft(c, t.e, t.item, t.bal, t.r)) + Ents(t.l)
      ensures CtxEnts(c) + Ents(t) == CtxEnts(InRight(c, t.l, t.e, t.item, t.bal)) + Ents(t.r)
      ensures Height(t) > Height(t.l) && Height(t) > Height(t.r)
    {
      SortedSubtree(c, t);
      MoveLeft(c, t, header);
      MoveRight(c, t, header);
      if Less(name, t.e.name) {
        FitsLeft(c, t, name);
      }
      if Less(t.e.name, name) {
        FitsRight(c, t, name);
      }
    }

    /** A search ends at the node of the name, or where the name would hang. */
    lemma SeekEnd(c: VCtx, t: VTree, name: string)
      requires Seeking(c, t, name) && Sorted(Items(tree))
      requires t.Node? ==> t.item.name == name
      ensures name in Vars() <==> t.Node?
      ensures t.Node? ==> Vars()[name] == t.item.vec
    {
      PlugItems(c, t);
      if t.Nil? {
        assert Items(tree) == Before(c) + After(c);
        BindingsConcat(Before(c), After(c));
        NotBound(Before(c), After(c), name);
      } else {
        NodeItems(c, t);
        SortedNode(c, t);
        NotBound(Before(c) + Items(t.l), Items(t.r) + After(c), name);
        BindingsSplit(Before(c) + Items(t.l), t.item, Items(t.r) + After(c));
      }
    }

    /** How many nodes a search for the name passes. */
    static ghost function Steps(t: VTree, name: string): nat {
      if t.Nil? || t.item.name == name then 0
      else 1 + Steps(if Less(name, t.item.name) then t.l else t.r, name)
    }

    /** adrof1: the node of a name, found in at most as many steps as the tree is high. */
    method Adrof(name: string) returns (v: VarEnt?, ghost depth: nat)
      requires Valid()
      ensures v == null <==> name !in Vars()
      ensures v != null ==> v in Ents(tree) && v.name == name && v.vec == Vars()[name]
      ensures depth == Steps(tree, name) <= Height(tree)
      ensures Fib(depth + 2) - 1 <= |Items(tree)| && Machine.Pow2((depth + 1) / 2) <= |Items(tree)| + 1
    {
      hide Rep, CtxRep, Avl, Height, Sorted, Bindings, Items, Fib, Before, After;
      ghost var c: VCtx, t: VTree := Top, tree;
      v, depth := header.left, 0;
      SeekStart(name);
      while v != null && Compare(name, v.name) != 0
        invariant Seeking(c, t, name) && v == Root(t)
        invariant CtxEnts(c) + Ents(t) == Ents(tree)
        invariant depth + Height(t) <= Height(tree) && depth + Steps(t, name) == Steps(tree, name)
        decreases t
      {
        SeekDown(c, t, name);
        StrCmpFlips(v.name, name);
        if Compare(name, v.name) < 0 {
          c, t := InLeft(c, t.e, t.item, t.bal, t.r), t.l;
          v := v.left;
        } else {
          c, t := InRight(c, t.l, t.e, t.item, t.bal), t.r;
          v := v.right;
        }
        depth := depth + 1;
      }
      if v != null {
        SeekDown(c, t, name);
      }
      SeekEnd(c, t, name);
      AvlSize(tree);
      FibMonotone(depth + 2, Height(tree) + 2);
      FibGrows(depth);
    }

    /** setq: bind a name, in place or by a new node and a rebalancing. */
    method Setq(name: string, vec: seq<string>)
      requires Valid()
      modifies this`tree, header, Ents(tree)
      ensures Valid()
      ensures name in Vars() && |Vars()[name]| == |vec| && forall i :: 0 <= i < |vec| ==> |Vars()[name][i]| == |vec[i]|
      ensures forall i, j :: 0 <= i < |vec| && 0 <= j < |vec[i]| ==> Vars()[name][i][j] as int == vec[i][j] as int % 128
      ensures (forall i, j :: 0 <= i < |vec| && 0 <= j < |vec[i]| ==> vec[i][j] as int < 128) ==> Vars()[name] == vec
      ensures Vars().Keys == old(Vars()).Keys + {name} && forall k <- old(Vars()) :: k != name ==> Vars()[k] == old(Vars())[k]
      ensures fresh(Ents(tree) - old(Ents(tree)))
    {
      hide Rep, CtxRep, Avl, Height, Sorted, Bindings, Items, Before, After;
      ghost var c: VCtx, t: VTree := Top, tree;
      var p, f := header, 0;
      var v := header.left;
      SeekStart(name);
      Allocated(tree);
      while v != null && Compare(name, v.name) != 0
        invariant Valid()
        invariant Seeking(c, t, name) && v == Root(t) && p == CtxParent(c, header) && f == Side(c)
        invariant CtxEnts(c) + Ents(t) == Ents(tree)
        modifies {}
        decreases t
      {
        SeekDown(c, t, name);
        StrCmpFlips(v.name, name);
        p := v;
        if Compare(name, v.name) > 0 {
          c, t := InRight(c, t.l, t.e, t.item, t.bal), t.r;
          v, f := v.right, 1;
        } else {
          c, t := InLeft(c, t.e, t.item, t.bal, t.r), t.l;
          v, f := v.left, 0;
        }
      }
      if v == null {
        v := Insert(name, p, f, c, t);
      } else {
        SeekDown(c, t, name);
      }
      var words := Trim(vec);
      Untouched(vec, words);
      StoreVec(v, words);
    }

    /** The new node of setq. */
    method Insert(name: string, p: VarEnt, f: int, ghost c: VCtx, ghost t: VTree) returns (v: VarEnt)
      requires Valid() && Seeking(c, t, name) && t.Nil? && CtxEnts(c) + Ents(t) == Ents(tree)
      requires p == CtxParent(c, header) && f == Side(c)
      modifies this`tree, header, Ents(tree)
      ensures Valid()
      ensures Vars() == old(Vars())[name := []]
      ensures v in Ents(tree) && v.name == name && fresh(v) && Ents(tree) == old(Ents(tree)) + {v}
    {
      hide Rep, CtxRep, Avl, Sorted, Bindings, Items, Before, After;
      PlugItems(c, t);
      PlugAvl(c, t);
      NilEnts();
      CtxAllocated(c);
      assert Before(c) + [] + After(c) == Before(c) + After(c) == Items(tree);
      v := new VarEnt(name, p);
      ghost var leaf: VTree := LeafOf(v);
      LeafFacts(v);
      SetBetween(Before(c), [], After(c), leaf.item);
      SetLink(p, f, v, c, header, null);
      LeafState(c, v, header);
      tree := Balance(p, f, 0, header, c, leaf);
    }

    /** Words without quote bits stay as they are. */
    static lemma Untouched(vec: seq<string>, words: seq<string>)
      requires |words| == |vec| && forall i :: 0 <= i < |vec| ==> |words[i]| == |vec[i]|
      requires forall i, j :: 0 <= i < |vec| && 0 <= j < |vec[i]| ==> words[i][j] as int == vec[i][j] as int % 128
      ensures (forall i, j :: 0 <= i < |vec| && 0 <= j < |vec[i]| ==> vec[i][j] as int < 128) ==> words == vec
    {
      if forall i, j :: 0 <= i < |vec| && 0 <= j < |vec[i]| ==> vec[i][j] as int < 128 {
        forall i | 0 <= i < |vec|
          ensures words[i] == vec[i]
        {
          assert forall j :: 0 <= j < |vec[i]| ==> words[i][j] == vec[i][j];
        }
      }
    }

    /** c->vec = vec */
    method StoreVec(v: VarEnt, vec: seq<string>)
      requires Valid() && v in Ents(tree)
      modifies this`tree, v`name, v`vec
      ensures v.name == old(v.name)
      ensures Valid() && Vars() == old(Vars())[v.name := vec] && Ents(tree) == old(Ents(tree))
    {
      hide Avl, Sorted, Bindings, Items, Height, Before, After;
      ghost var at := Locate(Top, tree, v);
      LocateState(Top, tree, v, header);
      ghost var c, t := at.0, at.1;
      ghost var t' := t.(item := Item(v.name, vec));
      assert t.item.name == v.name;
      SetItemFacts(c, t, t'.item);
      StoreItem(v, v.name, vec, c, t);
      tree := Plug(c, t');
    }

    /** Overwrite the name and the value of a node. */
    method StoreItem(v: VarEnt, name: string, vec: seq<string>, ghost c: VCtx, ghost t: VTree)
      requires State(c, t, header) && t.Node? && t.e == v
      modifies v`name, v`vec
      ensures v.name == name && v.vec == vec
      ensures State(c, t.(item := Item(name, vec)), header)
      ensures State(Top, Plug(c, t.(item := Item(name, vec))), header)
      ensures Ents(Plug(c, t.(item := Item(name, vec)))) == CtxEnts(c) + Ents(t)
    {
      hide CtxRep;
      assert Rep(t.l, t.e) && Rep(t.r, t.e);
      v.name, v.vec := name, vec;
      ghost var t' := t.(item := Item(name, vec));
      assert Rep(t', CtxParent(c, header));
      MoveToTop(c, t', header);
    }

    /** unsetv1: remove a node of the tree, or the one before it in order when it has two
        children, and rebalance. Exactly the name of the given node is unbound. */
    method Unsetv(p: VarEnt)
      requires Valid() && p in Ents(tree)
      modifies this`tree, header, Ents(tree)
      ensures Valid()
      ensures Vars() == old(Vars()) - {old(p.name)} && old(p.name) in old(Vars())
      ensures |Items(tree)| == |old(Items(tree))| - 1
      ensures Ents(tree) < old(Ents(tree))
    {
      hide Avl, Sorted, Bindings, Items, Height, Before, After, CtxRep;
      ghost var at := Locate(Top, tree, p);
      LocateState(Top, tree, p, header);
      ghost var c, t := at.0, at.1;
      DropFacts(c, t);
      assert Rep(t.l, p) && Rep(t.r, p);
      assert t.item.name == p.name;
      if p.right == null {
        Remove(p, p.left, c, t, t.l);
      } else if p.left == null {
        Remove(p, p.right, c, t, t.r);
      } else {
        RemovePredecessor(p, c, t);
      }
    }

    /** A tree from which the item of t has gone. */
    ghost predicate Without(c: VCtx, t: VTree, tree: VTree)
      reads header, Ents(tree)
    {
      && t.Node? && State(Top, tree, header) && Avl(tree)
      && Items(tree) == (Before(c) + Items(t.l)) + (Items(t.r) + After(c))
    }

    /** The links around a node with at most one child. */
    lemma Neighbours(c: VCtx, t: VTree, sub: VTree)
      requires State(c, t, header) && t.Node? && ((t.r.Nil? && sub == t.l) || (t.l.Nil? && sub == t.r))
      ensures var pp := CtxParent(c, header);
              && t.e.parent == pp && (pp.right == t.e <==> Side(c) == 1) && Side(c) in {0, 1} && t.e in Ents(t)
              && (pp == header || pp in CtxEnts(c)) && CtxEnts(c) + Ents(sub) == CtxEnts(c) + Ents(t) - {t.e} && Ents(sub) <= Ents(t)
      ensures sub.Node? ==> sub.e in Ents(t)
    {
      SideFound(c, t, header);
    }

    /** Move the only child of p, if any, into where p is. */
    method Remove(p: VarEnt, child: VarEnt?, ghost c: VCtx, ghost t: VTree, ghost sub: VTree)
      requires State(c, t, header) && t.Node? && t.e == p && Avl(Plug(c, t))
      requires (t.r.Nil? && sub == t.l) || (t.l.Nil? && sub == t.r)
      requires child == Root(sub)
      modifies this`tree, header, CtxEnts(c), Ents(t)
      ensures Without(c, t, tree)
      ensures Ents(tree) == CtxEnts(c) + Ents(t) - {p}
    {
      RemoveFacts(c, t, sub);
      Neighbours(c, t, sub);
      hide State, Rep, Ents, CtxEnts, Before, After, Avl, Items, Height, CtxAvl;
      var pp := p.parent;
      var f := if pp.right == p then 1 else 0;
      Splice(p, child, pp, f, c, t, sub);
      tree := Balance(pp, f, 1, header, c, sub);
    }

    /** pp->v_link[f] = c, and c->v_parent = pp if there is a c. */
    method Splice(p: VarEnt, child: VarEnt?, pp: VarEnt, f: int, ghost c: VCtx, ghost t: VTree, ghost sub: VTree)
      requires State(c, t, header) && t.Node? && t.e == p
      requires sub == t.l || sub == t.r
      requires child == Root(sub) && pp == CtxParent(c, header) && f == Side(c)
      modifies pp`left, pp`right, (if child == null then {} else {child})`parent
      ensures State(c, sub, header)
    {
      assert Rep(sub, p) && Ents(sub) <= Ents(t);
      CtxAllocated(c);
      Allocated(sub);
      assert child != null ==> child in Ents(sub);
      assert pp !in Ents(sub);
      assert CtxRep(c, header, p);
      hide Rep, CtxRep, Items;
      SetLink(pp, f, child, c, header, p);
      SetParent(child, pp, sub, p);
    }

    /** p has two children: copy the item before it into p and remove that item's node,
        which has no right child. */
    method RemovePredecessor(p: VarEnt, ghost c: VCtx, ghost t: VTree)
      requires State(c, t, header) && t.Node? && t.e == p && t.l.Node? && Avl(Plug(c, t))
      modifies this`tree, header, CtxEnts(c), Ents(t)
      ensures Without(c, t, tree)
      ensures Ents(tree) < CtxEnts(c) + Ents(t)
    {
      hide Sorted, Bindings, Before, After, Items, Height, Avl, CtxRep;
      var q;
      ghost var last;
      CtxAllocated(c);
      Allocated(t);
      q, last := Predecessor(p, c, t);
      ghost var t1 := t.(item := last.item);
      StoreItem(p, q.name, q.vec, c, t);
      MoveLeft(c, t1, header);
      ghost var c1 := InLeft(c, p, last.item, t.bal, t.r);
      ghost var c2 := Rightmost(c1, t.l).0;
      RightmostState(c1, t.l, header);
      PredecessorFacts(c, t, last);
      assert Rep(last, CtxParent(c2, header));
      Remove(q, q.left, c2, last, last.l);
    }

    method Predecessor(p: VarEnt, ghost c: VCtx, ghost t: VTree) returns (q: VarEnt, ghost last: VTree)
      requires State(c, t, header) && t.Node? && t.e == p && t.l.Node?
      ensures last == Rightmost(InLeft(c, p, t.item, t.bal, t.r), t.l).1 && q == last.e
      ensures q.name == last.item.name && q.vec == last.item.vec && q.left == Root(last.l)
      ensures q in Ents(t.l) && last.r.Nil?
    {
      hide CtxRep, Items;
      MoveLeft(c, t, header);
      ghost var cc: VCtx := InLeft(c, p, t.item, t.bal, t.r);
      last := t.l;
      q := p.left;
      while q.right != null
        invariant State(cc, last, header) && last.Node? && q == last.e && q in Ents(t.l)
        invariant Ents(last) <= Ents(t.l)
        invariant Rightmost(cc, last) == Rightmost(InLeft(c, p, t.item, t.bal, t.r), t.l)
        decreases last
      {
        MoveRight(cc, last, header);
        cc, last := InRight(cc, last.l, last.e, last.item, last.bal), last.r;
        q := q.right;
      }
    }

    // -------------------------------------------------------------- listing

    /** plist has put out everything before the hole of c. */
    ghost predicate Listing(c: VCtx, t: VTree, out: seq<Item>)
      reads this, header, CtxEnts(c), Ents(t)
    {
      State(c, t, header) && Plug(c, t) == tree && out == Before(c)
    }

    /** plist stands at the node of t, with everything before that node put out. */
    ghost predicate Standing(p: VarEnt, c: VCtx, t: VTree, out: seq<Item>)
      reads this, header, CtxEnts(c), Ents(t)
    {
      if p == header then out == Items(tree)
      else
        && t.Node? && t.e == p && State(c, t, header) && Plug(c, t) == tree
        && out == Before(c) + Items(t.l)
    }

    /** plist: every item once, in ascending order, by following links only. */
    method Plist() returns (out: seq<Item>)
      requires Valid()
      ensures out == Items(tree)
    {
      hide Rep, CtxRep, Avl, Sorted, Items, Before, After, State;
      out := [];
      var p := header;
      ghost var c: VCtx, t: VTree := Top, tree;
      ListTop();
      if p.left != null {
        p, c, t := Leftmost(p.left, c, t, out);
      }
      while p.parent != null
        invariant Standing(p, c, t, out)
        decreases |Items(tree)| - |out|
      {
        ListNode(c, t, out);
        out := out + [Item(p.name, p.vec)];
        if p.right != null {
          p, c, t := Leftmost(p.right, InRight(c, t.l, t.e, t.item, t.bal), t.r, out);
        } else {
          p, c, t := Climb(p, c, t, out);
        }
      }
      ListEnd(p, c, t, out);
    }

    lemma ListTop()
      requires Valid()
      ensures header.parent == null && header.left == Root(tree)
      ensures Listing(Top, tree, []) && (tree.Nil? ==> Items(tree) == [])
    {
    }

    lemma ListEnd(p: VarEnt, c: VCtx, t: VTree, out: seq<Item>)
      requires Standing(p, c, t, out) && p.parent == null
      ensures out == Items(tree)
    {
    }

    lemma ListNode(c: VCtx, t: VTree, out: seq<Item>)
      requires t.Node? && State(c, t, header) && Plug(c, t) == tree && out == Before(c) + Items(t.l)
      ensures t.e.name == t.item.name && t.e.vec == t.item.vec && t.e.right == Root(t.r)
      ensures Listing(InRight(c, t.l, t.e, t.item, t.bal), t.r, out + [t.item])
      ensures t.r.Nil? ==> out + [t.item] == Before(c) + Items(t)
      ensures |out| < |Items(tree)|
    {
      MoveRight(c, t, header);
      NodeItems(c, t);
    }

    /** Down the left links to the first node of a subtree. */
    method Leftmost(start: VarEnt, ghost c0: VCtx, ghost t0: VTree, ghost out: seq<Item>)
      returns (p: VarEnt, ghost c: VCtx, ghost t: VTree)
      requires Listing(c0, t0, out) && t0.Node? && t0.e == start
      ensures Standing(p, c, t, out) && p != header
    {
      p, c, t := start, c0, t0;
      while p.left != null
        invariant Listing(c, t, out) && t.Node? && t.e == p
        decreases t
      {
        MoveLeft(c, t, header);
        p, c, t := p.left, InLeft(c, t.e, t.item, t.bal, t.r), t.l;
      }
      assert t.l.Nil?;
      assert p in Ents(t);
    }

    /** Up the parent links until the node is not a right child: the next node in order. */
    method Climb(start: VarEnt, ghost c0: VCtx, ghost t0: VTree, ghost out: seq<Item>)
      returns (p: VarEnt, ghost c: VCtx, ghost t: VTree)
      requires State(c0, t0, header) && Plug(c0, t0) == tree && t0.Node? && t0.e == start
      requires out == Before(c0) + Items(t0)
      ensures Standing(p, c, t, out)
    {
      hide Rep, CtxRep, Items;
      var x := start;
      c, t := c0, t0;
      ParentLink(c, t);
      p := start.parent;
      while p.right == x
        invariant State(c, t, header) && Plug(c, t) == tree && t.Node? && t.e == x
        invariant p == CtxParent(c, header) && out == Before(c) + Items(t)
        decreases c
      {
        SideFound(c, t, header);
        MoveUp(c, t, header);
        ClimbItems(c, t);
        x := p;
        c, t := c.up, Above(c, t);
        ParentLink(c, t);
        p := p.parent;
      }
      SideFound(c, t, header);
      PlugItems(c, t);
      if !c.Top? {
        MoveUp(c, t, header);
        NotHeader(c);
        c, t := c.up, Above(c, t);
      } else {
        assert Before(c) == [] && After(c) == [];
      }
    }

    lemma ParentLink(c: VCtx, t: VTree)
      requires State(c, t, header) && t.Node?
      ensures t.e.parent == CtxParent(c, header)
    {
    }

    lemma NotHeader(c: VCtx)
      requires !c.Top? && exists x :: CtxRep(c, header, x)
      ensures c.e != header
    {
    }

    // -------------------------------------------------------------- unset with patterns

    /** madrof: the first node in order whose name matches. */
    method Madrof(pat: string, start: VarEnt?, ghost t: VTree, ghost par: VarEnt?) returns (v: VarEnt?, bad: bool)
      requires Rep(t, par) && start == Root(t)
      ensures bad <==> Search(t, pat).Bad?
      ensures !bad ==> Search(t, pat) == if v == null then Miss else Hit(v)
      decreases t
    {
      ghost var rest, above := t, par;
      v, bad := start, false;
      while v != null
        invariant Rep(rest, above) && v == Root(rest) && !bad
        invariant Search(rest, pat) == Search(t, pat)
        invariant rest == t || rest < t
        decreases rest
      {
        assert Rep(rest.r, v);
        Allocated(rest);
        Allocated(rest.r);
        if v.left != null {
          var w;
          w, bad := Madrof(pat, v.left, rest.l, v);
          if bad || w != null {
            return w, bad;
          }
        }
        var verdict := Gmatch(v.name, pat);
        if verdict == Yes {
          return;
        }
        if verdict != No {
          return null, true;
        }
        above := v;
        v, rest := v.right, rest.r;
      }
    }

    /** The bindings that survive unsetting a pattern. */
    static ghost function Kept(vars: map<string, seq<string>>, pat: string): map<string, seq<string>> {
      map k | k in vars && Glob(k, pat) == No :: vars[k]
    }

    static lemma OneLess(m: map<string, seq<string>>, k: string)
      requires k in m
      ensures |m - {k}| == |m| - 1
    {
      assert (m - {k}).Keys == m.Keys - {k};
      assert |m.Keys| == |m.Keys - {k}| + 1;
    }

    /** The inner loop of unset1: unbind exactly the names the pattern matches. An error in
        the pattern, met at some name, ends it early. */
    method UnsetPattern(pat: string) returns (ok: bool, cnt: nat)
      requires Valid()
      modifies this`tree, header, Ents(tree)
      ensures Valid() && Ents(tree) <= old(Ents(tree))
      ensures ok ==> Vars() == Kept(old(Vars()), pat)
      ensures (forall k <- old(Vars()) :: Glob(k, pat) in {Yes, No}) ==> ok
      ensures ok ==> (cnt == 0 <==> forall k <- old(Vars()) :: Glob(k, pat) == No)
      ensures cnt + |Vars()| == |old(Vars())|
    {
      hide Rep, Avl, Sorted, Bindings, Items, Glob;
      cnt := 0;
      ghost var was := Vars();
      while true
        invariant Valid() && Ents(tree) <= old(Ents(tree))
        invariant Vars().Keys <= was.Keys && forall k <- Vars() :: Vars()[k] == was[k]
        invariant forall k <- was :: k !in Vars() ==> Glob(k, pat) == Yes
        invariant cnt == 0 <==> Vars() == was
        invariant cnt + |Vars()| == |was|
        decreases |Items(tree)|
      {
        Allocated(tree);
        var v, bad := First(pat);
        if bad {
          return false, cnt;
        }
        if v == null {
          break;
        }
        OneLess(Vars(), v.name);
        Unsetv(v);
        cnt := cnt + 1;
      }
      ok := true;
    }

    /** unset1: a list of patterns. */
    method Unset1(pats: seq<string>) returns (ok: bool)
      requires Valid()
      modifies this`tree, header, Ents(tree)
      ensures Valid()
      ensures ok ==> Vars() == KeptAll(old(Vars()), pats)
      ensures (forall k <- old(Vars()), pat <- pats :: Glob(k, pat) in {Yes, No}) ==> ok
    {
      hide Rep, CtxRep, Avl, Sorted, Items, Bindings, Glob;
      var i := 0;
      while i < |pats|
        invariant 0 <= i <= |pats| && Valid() && Ents(tree) <= old(Ents(tree))
        invariant Vars() == KeptAll(old(Vars()), pats[..i])
      {
        var cnt;
        ok, cnt := UnsetPattern(pats[i]);
        if !ok {
          return;
        }
        KeptNext(old(Vars()), pats, i);
        i := i + 1;
      }
      assert pats[..i] == pats;
      ok := true;
    }

    static ghost function KeptAll(vars: map<string, seq<string>>, pats: seq<string>): map<string, seq<string>> {
      map k | k in vars && forall pat <- pats :: Glob(k, pat) == No :: vars[k]
    }

    static lemma KeptNext(vars: map<string, seq<string>>, pats: seq<string>, i: nat)
      requires i < |pats|
      ensures Kept(KeptAll(vars, pats[..i]), pats[i]) == KeptAll(vars, pats[..i + 1])
    {
      assert pats[..i + 1] == pats[..i] + [pats[i]];
    }

    method First(pat: string) returns (v: VarEnt?, bad: bool)
      requires Valid()
      ensures bad ==> exists k <- Vars() :: Glob(k, pat) !in {Yes, No}
      ensures !bad && v == null ==> forall k <- Vars() :: Glob(k, pat) == No
      ensures !bad && v != null ==> v in Ents(tree) && v.name in Vars() && Glob(v.name, pat) == Yes
    {
      Allocated(tree);
      v, bad := Madrof(pat, header.left, tree, header);
      hide Rep, Glob, Items, Bindings, Search;
      SearchFacts(tree, pat, header);
      forall k | k in Vars()
        ensures exists x <- Items(tree) :: x.name == k
      {
        BindingsKeys(Items(tree), k);
      }
      forall x | x in Items(tree)
        ensures x.name in Vars()
      {
        BindingsKeys(Items(tree), x.name);
      }
    }
  }

  datatype Found = Hit(v: VarEnt) | Miss | Bad

  ghost function Search(t: VTree, pat: string): Found {
    if t.Nil? then Miss
    else
      var l := Search(t.l, pat);
      if l != Miss then l
      else
        match Glob(t.item.name, pat)
        case Yes => Hit(t.e)
        case No => Search(t.r, pat)
        case _ => Bad
  }

  /** The search finds a matching node, or there is none, or the pattern is in error. */
  lemma {:induction false} SearchFacts(t: VTree, pat: string, par: VarEnt?)
    requires Rep(t, par)
    ensures match Search(t, pat)
            case Hit(v) => v in Ents(t) && Glob(v.name, pat) == Yes && exists x <- Items(t) :: x.name == v.name
            case Miss => forall x <- Items(t) :: Glob(x.name, pat) == No
            case Bad => exists x <- Items(t) :: Glob(x.name, pat) !in {Yes, No}
  {
    if t.Node? {
      SearchFacts(t.l, pat, t.e);
      SearchFacts(t.r, pat, t.e);
      hide Glob;
      assert t.item in Items(t);
      assert forall x <- Items(t.l) :: x in Items(t);
      assert forall x <- Items(t.r) :: x in Items(t);
    }
  }

  /** With a well-formed pattern that does not end in two stars, and plain names, unsetting
      never fails and removes exactly the names in the language of the pattern. */
  lemma UnsetMeaning(vars: map<string, seq<string>>, p: Pattern)
    requires WellFormed(p) && !EndsTwoStars(p) && forall k <- vars :: Text(k)
    ensures forall k <- vars :: Glob(k, Print(p)) in {Yes, No}
    ensures VarTable.Kept(vars, Print(p)) == map k | k in vars && !Matches(p, k) :: vars[k]
  {
    forall k | k in vars
      ensures Glob(k, Print(p)) == if Matches(p, k) then Yes else No
    {
      GlobMeaning(p, k);
      AcceptsIsMatches(p, k);
    }
  }

  lemma ClimbItems(c: VCtx, t: VTree)
    requires c.InRight?
    ensures Before(c.up) + Items(Above(c, t)) == Before(c) + Items(t)
  {
    assert Before(c.up) + (Items(c.l) + [c.item] + Items(t)) == Before(c.up) + Items(c.l) + [c.item] + Items(t);
  }

  /** The tree with the preceding item copied into t is still balanced, and what is left
      around the copied node is what is left around t. */
  lemma PredecessorFacts(c: VCtx, t: VTree, last: VTree)
    requires t.Node? && t.l.Node? && Avl(Plug(c, t))
    requires last == Rightmost(InLeft(c, t.e, t.item, t.bal, t.r), t.l).1
    ensures var (c2, u) := Rightmost(InLeft(c, t.e, last.item, t.bal, t.r), t.l);
            && u == last && Avl(Plug(c2, last))
            && (Before(c2) + Items(last.l)) + (Items(last.r) + After(c2))
               == (Before(c) + Items(t.l)) + (Items(t.r) + After(c))
  {
    var c0: VCtx := InLeft(c, t.e, t.item, t.bal, t.r);
    var c1: VCtx := InLeft(c, t.e, last.item, t.bal, t.r);
    CopyKeepsAvl(c, t, last.item);
    assert Plug(c1, t.l) == Plug(c, t.(item := last.item));
    assert After(c1) == [last.item] + Items(t.r) + After(c) && Before(c1) == Before(c) == Before(c0);
    RightmostItems(c0, t.l, c1);
    var c2 := Rightmost(c1, t.l).0;
    NilEnts();
    hide Avl, Height, Items, Before, After, Rightmost, Plug;
    CopyRegroup(Before(c2) + Items(last.l), last.item, Before(c) + Items(t.l), Items(t.r), After(c), After(c2));
  }

  lemma CopyKeepsAvl(c: VCtx, t: VTree, x: Item)
    requires t.Node? && Avl(Plug(c, t))
    ensures Avl(Plug(c, t.(item := x)))
  {
    var t1 := t.(item := x);
    PlugAvl(c, t);
    PlugAvl(c, t1);
    assert Avl(t1) && Height(t1) == Height(t);
  }

  lemma RemoveFacts(c: VCtx, t: VTree, sub: VTree)
    requires t.Node? && Avl(Plug(c, t))
    requires (t.r.Nil? && sub == t.l) || (t.l.Nil? && sub == t.r)
    ensures Avl(sub) && CtxAvl(c, WasHeight(sub, 1))
    ensures Before(c) + Items(sub) + After(c) == (Before(c) + Items(t.l)) + (Items(t.r) + After(c))
  {
    PlugAvl(c, t);
    NilEnts();
    hide CtxAvl, Items, Before, After, Plug;
    DropNil(Before(c), Items(t.l), Items(t.r), Items(sub), After(c));
  }

  lemma DropNil(a: seq<Item>, l: seq<Item>, r: seq<Item>, sub: seq<Item>, b: seq<Item>)
    requires (r == [] && sub == l) || (l == [] && sub == r)
    ensures a + sub + b == (a + l) + (r + b)
  {
    if r == [] {
      assert r + b == b;
    } else {
      assert a + l == a;
    }
  }

  lemma CopyRegroup(a: seq<Item>, x: Item, b: seq<Item>, d: seq<Item>, e: seq<Item>, f: seq<Item>)
    requires a + [x] == b && f == [x] + d + e
    ensures a + ([] + f) == b + (d + e)
  {
    assert [] + f == [x] + (d + e);
  }

  /** Replacing the item of a node changes the binding of its name only. */
  lemma SetItemFacts(c: VCtx, t: VTree, x: Item)
    requires t.Node? && x.name == t.item.name
    requires Avl(Plug(c, t)) && Sorted(Items(Plug(c, t)))
    ensures var u := Plug(c, t.(item := x));
            && Avl(u) && Sorted(Items(u))
            && Bindings(Items(u)) == Bindings(Items(Plug(c, t)))[x.name := x.vec]
  {
    hide Sorted, Bindings, Before, After;
    var t' := t.(item := x);
    PlugAvl(c, t);
    PlugAvl(c, t');
    assert Height(t') == Height(t);
    NodeItems(c, t);
    NodeItems(c, t');
    SortedNode(c, t);
    hide Items, Avl, CtxAvl;
    SetBetween(Before(c) + Items(t.l), [t.item], Items(t.r) + After(c), x);
  }

  /** Taking an item out unbinds exactly its name. */
  lemma DropFacts(c: VCtx, t: VTree)
    requires t.Node? && Sorted(Items(Plug(c, t)))
    ensures var rest := (Before(c) + Items(t.l)) + (Items(t.r) + After(c));
            && Sorted(rest)
            && |rest| == |Items(Plug(c, t))| - 1
            && Bindings(rest) == Bindings(Items(Plug(c, t))) - {t.item.name}
            && t.item.name in Bindings(Items(Plug(c, t)))
  {
    NodeItems(c, t);
    hide Sorted, Bindings, Items, Before, After;
    DropBetween(Before(c) + Items(t.l), t.item, Items(t.r) + After(c));
    BindingsSplit(Before(c) + Items(t.l), t.item, Items(t.r) + After(c));
  }

  /** A leaf for a new node whose value is not set yet. */
  ghost function LeafOf(v: VarEnt): (t: VTree)
    reads v
  {
    Node(Nil, v, Item(v.name, []), 0, Nil)
  }

  lemma LeafFacts(v: VarEnt)
    ensures Avl(LeafOf(v)) && Items(LeafOf(v)) == [Item(v.name, [])] && Ents(LeafOf(v)) == {v}
    ensures WasHeight(LeafOf(v), 0) == 0 == Height<VarEnt>(Nil)
  {
  }

  lemma NilEnts()
    ensures Ents(Nil) == {} && Items<VarEnt>(Nil) == []
  {
  }

  lemma LeafState(c: VCtx, v: VarEnt, header: VarEnt)
    requires CtxRep(c, header, v) && v != header && v !in CtxEnts(c)
    requires v.parent == CtxParent(c, header) && v.left == null == v.right && v.bal == 0 && v.vec == []
    ensures State(c, LeafOf(v), header)
  {
  }
}
