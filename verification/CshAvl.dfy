/**
 The shape of csh's variable tree (bin/csh/sh.set.c) as a value: balanced trees whose nodes
 carry an item, contexts (a tree with a hole), and the rotations of `balance`.
 N is the type of the node identities.
 */
module CshAvl {
  import Machine

  datatype Item = Item(name: string, vec: seq<string>)

  datatype Tree<N> = Nil | Node(l: Tree<N>, e: N, item: Item, bal: int, r: Tree<N>)

  /** A tree with a hole, seen from the hole upwards. */
  datatype Ctx<N> =
    | Top
    | InLeft(up: Ctx<N>, e: N, item: Item, bal: int, r: Tree<N>)
    | InRight(up: Ctx<N>, l: Tree<N>, e: N, item: Item, bal: int)

  // ---------------------------------------------------------------- name order

  /** The sign of strcmp. */
  function StrCmp(a: string, b: string): (f: int)
    ensures f == 0 <==> a == b
  {
    if a == [] then (if b == [] then 0 else -1)
    else if b == [] then 1
    else if a[0] != b[0] then a[0] as int - b[0] as int
    else StrCmp(a[1..], b[1..])
  }

  predicate Less(a: string, b: string) { StrCmp(a, b) < 0 }

  lemma {:induction false} StrCmpFlips(a: string, b: string)
    ensures Less(a, b) <==> StrCmp(b, a) > 0
  {
    if a != [] && b != [] && a[0] == b[0] {
      StrCmpFlips(a[1..], b[1..]);
    }
  }

  lemma {:induction false} LessTransitive(a: string, b: string, c: string)
    requires Less(a, b) && Less(b, c)
    ensures Less(a, c)
  {
    if a != [] && a[0] == b[0] == c[0] {
      LessTransitive(a[1..], b[1..], c[1..]);
    }
  }

  // ---------------------------------------------------------------- trees

  function Height<N>(t: Tree<N>): nat {
    if t.Nil? then 0 else 1 + Max(Height(t.l), Height(t.r))
  }

  function Max(a: int, b: int): int { if a < b then b else a }

  /** Every balance factor is right height minus left height and in {-1, 0, 1}. */
  ghost predicate Avl<N>(t: Tree<N>) {
    t.Nil? || (-1 <= t.bal <= 1 && t.bal == Height(t.r) - Height(t.l) && Avl(t.l) && Avl(t.r))
  }

  function Items<N>(t: Tree<N>): seq<Item> {
    if t.Nil? then [] else Items(t.l) + [t.item] + Items(t.r)
  }

  ghost predicate Sorted(s: seq<Item>) {
    forall i, j :: 0 <= i < j < |s| ==> Less(s[i].name, s[j].name)
  }

  /** The bindings of a list of items. */
  ghost function Bindings(s: seq<Item>): map<string, seq<string>> {
    if s == [] then map[] else Bindings(s[1..])[s[0].name := s[0].vec]
  }

  function Fib(n: nat): nat {
    if n < 2 then n else Fib(n - 1) + Fib(n - 2)
  }

  /** A balanced tree of height h holds at least Fib(h+2)-1 items. */
  lemma {:induction false} AvlSize<N>(t: Tree<N>)
    requires Avl(t)
    ensures |Items(t)| >= Fib(Height(t) + 2) - 1
  {
    if t.Node? {
      NodeFacts(t);
      hide Fib, Height, Items, Avl;
      AvlSize(t.l);
      AvlSize(t.r);
      var a, b := Height(t.l), Height(t.r);
      FibSum(a, b);
      assert Height(t) + 2 == 1 + Max(a, b) + 2;
    }
  }

  lemma NodeFacts<N>(t: Tree<N>)
    requires t.Node? && Avl(t)
    ensures Avl(t.l) && Avl(t.r) && -1 <= Height(t.r) - Height(t.l) <= 1
    ensures Height(t) == 1 + Max(Height(t.l), Height(t.r)) && |Items(t)| == |Items(t.l)| + 1 + |Items(t.r)|
  {
  }

  lemma FibSum(a: nat, b: nat)
    requires -1 <= a - b <= 1
    ensures Fib(a + 2) + Fib(b + 2) >= Fib(1 + Max(a, b) + 2)
  {
    FibMonotone(Max(a, b) + 1, a + 2);
    FibMonotone(Max(a, b) + 1, b + 2);
  }

  lemma AvlPow<N>(t: Tree<N>)
    requires Avl(t)
    ensures |Items(t)| + 1 >= Machine.Pow2((Height(t) + 1) / 2)
  {
    hide Fib, Height, Items, Avl;
    AvlSize(t);
    FibGrows(Height(t));
  }

  /** These numbers double at least every two steps. */
  lemma {:induction false} FibGrows(n: nat)
    ensures Fib(n + 2) >= Machine.Pow2((n + 1) / 2)
  {
    if n >= 2 {
      FibGrows(n - 2);
      FibMonotone(n, n + 1);
    }
  }

  lemma FibMonotone(m: nat, n: nat)
    ensures m <= n ==> Fib(m) <= Fib(n)
    decreases n
  {
    if m < n && n >= 2 {
      FibMonotone(m, n - 1);
    }
  }

  // ---------------------------------------------------------------- rotations

  function RotLeft<N>(t: Tree<N>): (u: Tree<N>)
    requires t.Node? && t.r.Node?
    ensures Items(u) == Items(t)
  {
    var u := Node(t.(r := t.r.l), t.r.e, t.r.item, t.r.bal, t.r.r);
    assert Items(t) == Items(t.l) + [t.item] + (Items(t.r.l) + [t.r.item] + Items(t.r.r));
    u
  }

  function RotRight<N>(t: Tree<N>): (u: Tree<N>)
    requires t.Node? && t.l.Node?
    ensures Items(u) == Items(t)
  {
    var u := Node(t.l.l, t.l.e, t.l.item, t.l.bal, t.(l := t.l.r));
    assert Items(u) == Items(t.l.l) + [t.l.item] + (Items(t.l.r) + [t.item] + Items(t.r));
    u
  }

  function SetBal<N>(t: Tree<N>, bal: int): (u: Tree<N>)
    requires t.Node?
    ensures Items(u) == Items(t) && Height(u) == Height(t) && u.Node?
  {
    t.(bal := bal)
  }

  /** Set the balance factors of a root and its two children, as after a double rotation. */
  function SetBals<N>(t: Tree<N>, bl: int, b: int, br: int): (u: Tree<N>)
    requires t.Node? && t.l.Node? && t.r.Node?
    ensures Items(u) == Items(t) && Height(u) == Height(t) && u.Node?
  {
    t.(l := SetBal(t.l, bl), bal := b, r := SetBal(t.r, br))
  }

  /** The "right heavy" half of balance. */
  function RightHeavy<N>(t: Tree<N>): (u: Tree<N>)
    requires t.Node? && (t.bal == 1 ==> t.r.Node? && (t.r.bal == -1 ==> t.r.l.Node?))
    ensures Items(u) == Items(t) && u.Node?
  {
    if t.bal == -1 then SetBal(t, 0)
    else if t.bal == 0 then SetBal(t, 1)
    else if t.bal == 1 then
      if t.r.bal == 1 then
        var q := RotLeft(t); q.(l := SetBal(q.l, 0), bal := 0)
      else if t.r.bal == 0 then
        var q := RotLeft(t); q.(l := SetBal(q.l, 1), bal := -1)
      else if t.r.bal == -1 then
        var q := RotLeft(t.(r := RotRight(t.r)));
        SetBals(q, if q.bal < 1 then 0 else -1, 0, if q.bal > -1 then 0 else 1)
      else t
    else t
  }

  /** The "left heavy" half of balance. */
  function LeftHeavy<N>(t: Tree<N>): (u: Tree<N>)
    requires t.Node? && (t.bal == -1 ==> t.l.Node? && (t.l.bal == 1 ==> t.l.r.Node?))
    ensures Items(u) == Items(t) && u.Node?
  {
    if t.bal == 1 then SetBal(t, 0)
    else if t.bal == 0 then SetBal(t, -1)
    else if t.bal == -1 then
      if t.l.bal == -1 then
        var q := RotRight(t); q.(r := SetBal(q.r, 0), bal := 0)
      else if t.l.bal == 0 then
        var q := RotRight(t); q.(r := SetBal(q.r, -1), bal := 1)
      else if t.l.bal == 1 then
        var q := RotRight(t.(l := RotLeft(t.l)));
        SetBals(q, if q.bal < 1 then 0 else -1, 0, if q.bal > -1 then 0 else 1)
      else t
    else t
  }

  /** The node is one too heavy on the side s (1 right, -1 left): its balance factor is stale. */
  ghost predicate Heavy<N>(t: Tree<N>, s: int) {
    && t.Node? && Avl(t.l) && Avl(t.r) && -1 <= t.bal <= 1
    && Height(t.r) - Height(t.l) == t.bal + s
  }

  /** The height the node had when its balance factor was right: its child on side s has
      grown (d == 0), or its child on the other side has shrunk (d == 1). */
  function OldHeight<N>(t: Tree<N>, s: int, d: int): int
    requires t.Node?
  {
    if d == 0 then
      1 + (if s == 1 then Max(Height(t.l), Height(t.r) - 1) else Max(Height(t.l) - 1, Height(t.r)))
    else
      1 + (if s == 1 then Max(Height(t.l) + 1, Height(t.r)) else Max(Height(t.l), Height(t.r) + 1))
  }

  /** One step repairs the node, and its new balance factor tells whether its height changed:
      0 after an insertion or non-0 after a deletion means it did not. */
  lemma RightHeavyRepairs<N>(t: Tree<N>)
    requires Heavy(t, 1)
    ensures t.bal == 1 ==> t.r.Node? && (t.r.bal == -1 ==> t.r.l.Node?)
    ensures var u := RightHeavy(t);
            && Avl(u)
            && Height(u) == OldHeight(t, 1, 0) + (if u.bal == 0 then 0 else 1)
            && Height(u) == OldHeight(t, 1, 1) - (if u.bal == 0 then 1 else 0)
  {
    hide Items;
    if t.bal == 1 && t.r.bal == -1 {
      assert Avl(t.r.l) && t.r.l.Node?;
      var q := RotLeft(t.(r := RotRight(t.r)));
      assert q.l == t.(r := t.r.l.l) && q.r == t.r.(l := t.r.l.r) && q.bal == t.r.l.bal;
      assert Avl(RightHeavy(t).l) && Avl(RightHeavy(t).r);
    }
  }

  lemma LeftHeavyRepairs<N>(t: Tree<N>)
    requires Heavy(t, -1)
    ensures t.bal == -1 ==> t.l.Node? && (t.l.bal == 1 ==> t.l.r.Node?)
    ensures var u := LeftHeavy(t);
            && Avl(u)
            && Height(u) == OldHeight(t, -1, 0) + (if u.bal == 0 then 0 else 1)
            && Height(u) == OldHeight(t, -1, 1) - (if u.bal == 0 then 1 else 0)
  {
    hide Items;
    if t.bal == -1 && t.l.bal == 1 {
      assert Avl(t.l.r) && t.l.r.Node?;
      var q := RotRight(t.(l := RotLeft(t.l)));
      assert q.r == t.(l := t.l.r.r) && q.l == t.l.(r := t.l.r.l) && q.bal == t.l.r.bal;
      assert Avl(LeftHeavy(t).l) && Avl(LeftHeavy(t).r);
    }
  }

  // ---------------------------------------------------------------- contexts

  function Plug<N>(c: Ctx<N>, t: Tree<N>): Tree<N> {
    match c
    case Top => t
    case InLeft(up, e, item, bal, r) => Plug(up, Node(t, e, item, bal, r))
    case InRight(up, l, e, item, bal) => Plug(up, Node(l, e, item, bal, t))
  }

  function Before<N>(c: Ctx<N>): seq<Item> {
    match c
    case Top => []
    case InLeft(up, _, _, _, _) => Before(up)
    case InRight(up, l, _, item, _) => Before(up) + Items(l) + [item]
  }

  function After<N>(c: Ctx<N>): seq<Item> {
    match c
    case Top => []
    case InLeft(up, _, item, _, r) => [item] + Items(r) + After(up)
    case InRight(up, _, _, _, _) => After(up)
  }

  lemma Regroup<T>(a: seq<T>, b: seq<T>, c: seq<T>, d: seq<T>, e: seq<T>)
    ensures a + (b + c + d) + e == a + b + (c + d + e)
    ensures a + (b + c + d) + e == a + b + c + d + e
    ensures a + (b + c + d) + e == (a + b) + c + (d + e)
  {
  }

  lemma {:induction false} PlugItems<N>(c: Ctx<N>, t: Tree<N>)
    ensures Items(Plug(c, t)) == Before(c) + Items(t) + After(c)
  {
    match c
    case Top =>
    case InLeft(up, e, item, bal, r) =>
      PlugItems(up, Node(t, e, item, bal, r));
      Regroup(Before(up), Items(t), [item], Items(r), After(up));
    case InRight(up, l, e, item, bal) =>
      PlugItems(up, Node(l, e, item, bal, t));
      Regroup(Before(up), Items(l), [item], Items(t), After(up));
  }

  /** The context is balanced around a tree of height h. */
  ghost predicate CtxAvl<N>(c: Ctx<N>, h: int) {
    match c
    case Top => true
    case InLeft(up, _, _, bal, r) =>
      -1 <= bal <= 1 && bal == Height(r) - h && Avl(r) && CtxAvl(up, 1 + Max(h, Height(r)))
    case InRight(up, l, _, _, bal) =>
      -1 <= bal <= 1 && bal == h - Height(l) && Avl(l) && CtxAvl(up, 1 + Max(Height(l), h))
  }

  lemma {:induction false} PlugAvl<N>(c: Ctx<N>, t: Tree<N>)
    ensures Avl(Plug(c, t)) <==> Avl(t) && CtxAvl(c, Height(t))
  {
    match c
    case Top =>
    case InLeft(up, e, item, bal, r) => PlugAvl(up, Node(t, e, item, bal, r));
    case InRight(up, l, e, item, bal) => PlugAvl(up, Node(l, e, item, bal, t));
  }

  // ---------------------------------------------------------------- bindings

  lemma {:induction false} BindingsKeys(s: seq<Item>, name: string)
    ensures name in Bindings(s) <==> exists i :: 0 <= i < |s| && s[i].name == name
  {
    if s != [] {
      BindingsKeys(s[1..], name);
      assert forall i :: 0 <= i < |s| - 1 ==> s[1..][i] == s[i + 1];
      if i :| 0 <= i < |s| && s[i].name == name && i > 0 {
        assert s[1..][i - 1].name == name;
      }
    }
  }

  lemma {:induction false} BindingsConcat(a: seq<Item>, b: seq<Item>)
    ensures Bindings(a + b) == Bindings(b) + Bindings(a)
  {
    if a == [] {
      assert a + b == b;
    } else {
      BindingsConcat(a[1..], b);
      assert (a + b)[1..] == a[1..] + b;
    }
  }

  lemma MapAssoc<K, V>(b: map<K, V>, x: map<K, V>, a: map<K, V>)
    ensures b + (x + a) == b + x + a
  {
  }

  lemma MapPut<K, V>(a: map<K, V>, k: K, v: V, b: map<K, V>)
    requires k !in a
    ensures b + map[k := v] + a == (b + a)[k := v]
  {
  }

  lemma MapPutTwice<K, V>(m: map<K, V>, k: K, v: V, w: V)
    ensures m[k := v][k := w] == m[k := w]
  {
  }

  lemma MapDrop<K, V>(a: map<K, V>, k: K, v: V, b: map<K, V>)
    requires k !in a && k !in b
    ensures b + map[k := v] + a - {k} == b + a
  {
  }

  lemma BindingsSplit(a: seq<Item>, x: Item, b: seq<Item>)
    ensures Bindings(a + [x] + b) == Bindings(b) + map[x.name := x.vec] + Bindings(a)
    ensures Bindings(a + b) == Bindings(b) + Bindings(a)
  {
    BindingsConcat(a + [x], b);
    BindingsConcat(a, [x]);
    BindingsConcat(a, b);
    assert Bindings([x]) == map[x.name := x.vec];
    hide Bindings;
    MapAssoc(Bindings(b), Bindings([x]), Bindings(a));
  }

  /** Names strictly below (above) every name of a list. */
  ghost predicate AllBelow(s: seq<Item>, name: string) {
    forall i :: 0 <= i < |s| ==> Less(s[i].name, name)
  }

  ghost predicate AllAbove(s: seq<Item>, name: string) {
    forall i :: 0 <= i < |s| ==> Less(name, s[i].name)
  }

  lemma SortedConcat(a: seq<Item>, b: seq<Item>)
    ensures Sorted(a + b) ==> Sorted(a) && Sorted(b)
    ensures Sorted(a + b) ==> forall i :: 0 <= i < |b| ==> AllBelow(a, b[i].name)
    ensures Sorted(a + b) ==> forall i :: 0 <= i < |a| ==> AllAbove(b, a[i].name)
  {
    var s := a + b;
    if Sorted(s) {
      assert forall i :: 0 <= i < |a| ==> s[i] == a[i];
      assert forall i :: 0 <= i < |b| ==> s[|a| + i] == b[i];
    }
  }

  lemma SortedJoin(a: seq<Item>, x: Item, b: seq<Item>)
    requires Sorted(a) && Sorted(b) && AllBelow(a, x.name) && AllAbove(b, x.name)
    ensures Sorted(a + [x] + b)
  {
    var s := a + [x] + b;
    forall i, j | 0 <= i < j < |s|
      ensures Less(s[i].name, s[j].name)
    {
      if i < |a| && j > |a| {
        LessTransitive(a[i].name, x.name, b[j - |a| - 1].name);
      }
    }
  }

  /** Setting a name between its neighbours, whether or not it was bound there. */
  lemma SetBetween(a: seq<Item>, mid: seq<Item>, b: seq<Item>, x: Item)
    requires Sorted(a + mid + b) && AllBelow(a, x.name) && AllAbove(b, x.name)
    requires mid == [] || (|mid| == 1 && mid[0].name == x.name)
    ensures Sorted(a + [x] + b)
    ensures Bindings(a + [x] + b) == Bindings(a + mid + b)[x.name := x.vec]
  {
    hide Bindings;
    SortedConcat(a + mid, b);
    SortedConcat(a, mid);
    SortedJoin(a, x, b);
    RebindBetween(a, mid, b, x);
  }

  lemma Inserted(a: seq<Item>, x: Item, b: seq<Item>)
    requires x.name !in Bindings(a)
    ensures Bindings(a + [x] + b) == (Bindings(b) + Bindings(a))[x.name := x.vec]
  {
    hide Bindings;
    BindingsSplit(a, x, b);
    MapPut(Bindings(a), x.name, x.vec, Bindings(b));
  }

  lemma RebindBetween(a: seq<Item>, mid: seq<Item>, b: seq<Item>, x: Item)
    requires AllBelow(a, x.name) && AllAbove(b, x.name)
    requires mid == [] || (|mid| == 1 && mid[0].name == x.name)
    ensures Bindings(a + [x] + b) == Bindings(a + mid + b)[x.name := x.vec]
  {
    NotBound(a, b, x.name);
    hide Bindings, AllBelow, AllAbove;
    Inserted(a, x, b);
    if mid == [] {
      BindingsSplit(a, x, b);
      assert a + mid == a;
    } else {
      var y := mid[0];
      assert mid == [y];
      Inserted(a, y, b);
      MapPutTwice(Bindings(b) + Bindings(a), x.name, y.vec, x.vec);
    }
  }

  lemma NotBound(a: seq<Item>, b: seq<Item>, name: string)
    requires AllBelow(a, name) && AllAbove(b, name)
    ensures name !in Bindings(a) && name !in Bindings(b)
  {
    BindingsKeys(a, name);
    BindingsKeys(b, name);
  }

  /** Dropping one item of a sorted list unbinds exactly its name. */
  lemma DropBetween(a: seq<Item>, x: Item, b: seq<Item>)
    requires Sorted(a + [x] + b)
    ensures Sorted(a + b)
    ensures Bindings(a + b) == Bindings(a + [x] + b) - {x.name}
  {
    var s := a + [x] + b;
    assert forall i :: 0 <= i < |a + b| ==> (a + b)[i] == s[if i < |a| then i else i + 1];
    SortedConcat(a + [x], b);
    SortedConcat(a, [x]);
    assert (a + [x])[|a|] == x;
    NotBound(a, b, x.name);
    BindingsSplit(a, x, b);
    MapDrop(Bindings(a), x.name, x.vec, Bindings(b));
  }

  // ---------------------------------------------------------------- searching

  /** *name - *v_name, and strcmp only when that is 0. */
  function Compare(a: string, b: string): (f: int)
    ensures f < 0 <==> Less(a, b)
    ensures f == 0 <==> a == b
  {
    var d := First(a) - First(b);
    if d != 0 then d else StrCmp(a, b)
  }

  function First(s: string): int {
    if s == [] then 0 else s[0] as int
  }

  /** The name belongs in the hole of the context, if anywhere. */
  ghost predicate Fits<N>(c: Ctx<N>, name: string) {
    AllBelow(Before(c), name) && AllAbove(After(c), name)
  }

  lemma FitsLeft<N>(c: Ctx<N>, t: Tree<N>, name: string)
    requires Fits(c, name) && t.Node? && Less(name, t.item.name) && Sorted(Items(t))
    ensures Fits(InLeft(c, t.e, t.item, t.bal, t.r), name)
  {
    SortedConcat(Items(t.l) + [t.item], Items(t.r));
    var s := Items(t.l) + [t.item];
    assert s[|s| - 1] == t.item;
    assert AllAbove(Items(t.r), t.item.name);
    AboveTransitive(Items(t.r), t.item.name, name);
  }

  lemma FitsRight<N>(c: Ctx<N>, t: Tree<N>, name: string)
    requires Fits(c, name) && t.Node? && Less(t.item.name, name) && Sorted(Items(t))
    ensures Fits(InRight(c, t.l, t.e, t.item, t.bal), name)
  {
    assert Items(t) == Items(t.l) + ([t.item] + Items(t.r));
    SortedConcat(Items(t.l), [t.item] + Items(t.r));
    assert ([t.item] + Items(t.r))[0] == t.item;
    BelowTransitive(Items(t.l), t.item.name, name);
  }

  lemma AboveTransitive(s: seq<Item>, hi: string, lo: string)
    requires AllAbove(s, hi) && Less(lo, hi)
    ensures AllAbove(s, lo)
  {
    forall i | 0 <= i < |s|
      ensures Less(lo, s[i].name)
    {
      LessTransitive(lo, hi, s[i].name);
    }
  }

  lemma BelowTransitive(s: seq<Item>, lo: string, hi: string)
    requires AllBelow(s, lo) && Less(lo, hi)
    ensures AllBelow(s, hi)
  {
    forall i | 0 <= i < |s|
      ensures Less(s[i].name, hi)
    {
      LessTransitive(s[i].name, lo, hi);
    }
  }

  lemma SortedAround(a: seq<Item>, x: Item, b: seq<Item>)
    requires Sorted(a + [x] + b)
    ensures Sorted(a) && Sorted(b) && AllBelow(a, x.name) && AllAbove(b, x.name)
  {
    var s := a + [x] + b;
    assert forall i :: 0 <= i < |a| ==> a[i] == s[i];
    assert forall i :: 0 <= i < |b| ==> b[i] == s[|a| + 1 + i];
    assert s[|a|] == x;
  }

  lemma SortedSubtree<N>(c: Ctx<N>, t: Tree<N>)
    requires Sorted(Items(Plug(c, t)))
    ensures Sorted(Items(t))
  {
    PlugItems(c, t);
    hide Items, Before, After;
    SortedConcat(Before(c) + Items(t), After(c));
    SortedConcat(Before(c), Items(t));
  }

  /** The items around a node, in a form for SetBetween and DropBetween. */
  lemma NodeItems<N>(c: Ctx<N>, t: Tree<N>)
    requires t.Node?
    ensures Items(Plug(c, t)) == (Before(c) + Items(t.l)) + [t.item] + (Items(t.r) + After(c))
  {
    PlugItems(c, t);
    Regroup(Before(c), Items(t.l), [t.item], Items(t.r), After(c));
  }

  lemma SortedNode<N>(c: Ctx<N>, t: Tree<N>)
    requires t.Node? && Sorted(Items(Plug(c, t)))
    ensures AllBelow(Before(c) + Items(t.l), t.item.name)
    ensures AllAbove(Items(t.r) + After(c), t.item.name)
  {
    NodeItems(c, t);
    hide Items, Before, After;
    SortedAround(Before(c) + Items(t.l), t.item, Items(t.r) + After(c));
  }

  /** The rightmost node of a subtree, and its context. */
  function Rightmost<N>(c: Ctx<N>, t: Tree<N>): (r: (Ctx<N>, Tree<N>))
    requires t.Node?
    ensures r.1.Node? && r.1.r.Nil?
    ensures Plug(r.0, r.1) == Plug(c, t)
    decreases t
  {
    if t.r.Nil? then (c, t) else Rightmost(InRight(c, t.l, t.e, t.item, t.bal), t.r)
  }

  /** The rightmost node does not depend on the items above the subtree. */
  lemma {:induction false} RightmostItems<N>(c: Ctx<N>, t: Tree<N>, c': Ctx<N>)
    requires t.Node? && Before(c) == Before(c')
    ensures var (d, u) := Rightmost(c, t);
            && After(d) == After(c)
            && Before(d) + Items(u.l) + [u.item] == Before(c) + Items(t)
            && Rightmost(c', t).1 == u
            && After(Rightmost(c', t).0) == After(c')
            && Before(Rightmost(c', t).0) == Before(d)
    decreases t
  {
    hide Plug;
    if t.r.Nil? {
      FourParts(Before(c), Items(t.l), [t.item], []);
    } else {
      var d, d' := InRight(c, t.l, t.e, t.item, t.bal), InRight(c', t.l, t.e, t.item, t.bal);
      FourParts(Before(c), Items(t.l), [t.item], Items(t.r));
      assert Items(t) == Items(t.l) + [t.item] + Items(t.r);
      assert Before(d) == Before(c) + Items(t.l) + [t.item] && Before(d') == Before(d) && After(d) == After(c) && After(d') == After(c');
      assert Rightmost(c, t) == Rightmost(d, t.r) && Rightmost(c', t) == Rightmost(d', t.r);
      hide Items, Before, After, Rightmost;
      RightmostItems(d, t.r, d');
    }
  }

  lemma FourParts<T>(a: seq<T>, b: seq<T>, c: seq<T>, d: seq<T>)
    ensures a + b + c + d == a + (b + c + d) && b + c + [] == b + c
  {
  }
}
