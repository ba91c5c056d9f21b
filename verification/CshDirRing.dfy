/**
 The directory stack of csh (bin/csh/sh.dir.c): a ring through di_next and di_prev that holds the
 head dhead and the directories of the stack. Following di_prev from dhead gives the sequence
 ring, so ring[0] is dhead.
 */
module CshDirRing {
  import opened CshDirectory

  datatype Link = Link(next: Directory?, prev: Directory?)

  type Links = map<Directory, Link>

  function After(i: nat, n: nat): (j: nat)
    requires i < n
    ensures j < n
  {
    if i + 1 == n then 0 else i + 1
  }

  ghost predicate Distinct(ring: seq<Directory>) {
    forall i, j :: 0 <= i < j < |ring| ==> ring[i] != ring[j]
  }

  /** Both links of every member agree with the sequence. */
  ghost predicate Ring(ring: seq<Directory>, links: Links) {
    && Distinct(ring)
    && (forall d <- ring :: d in links)
    && (forall i :: 0 <= i < |ring| ==> Coupled(ring, links, i))
  }

  /** The link between member i and the member after it, from both sides. */
  ghost predicate Coupled(ring: seq<Directory>, links: Links, i: nat)
    requires i < |ring| && forall d <- ring :: d in links
  {
    var j := After(i, |ring|);
    links[ring[i]].prev == ring[j] && links[ring[j]].next == ring[i]
  }

  lemma NextIs(ring: seq<Directory>, links: Links, i: nat)
    requires Ring(ring, links) && i < |ring|
    ensures links[ring[i]].next == ring[if i == 0 then |ring| - 1 else i - 1]
    ensures links[ring[i]].prev == ring[After(i, |ring|)]
  {
    assert Coupled(ring, links, i);
    assert Coupled(ring, links, if i == 0 then |ring| - 1 else i - 1);
  }

  lemma Different(ring: seq<Directory>, links: Links, i: nat, j: nat)
    requires Ring(ring, links) && i < |ring| && j < |ring| && i != j
    ensures ring[i] != ring[j]
  {
  }

  lemma TwoRing(h: Directory, d: Directory, links: Links)
    requires h != d && h in links && d in links && links[h] == Link(d, d) && links[d] == Link(h, h)
    ensures Ring([h, d], links)
  {
  }

  lemma SameRing(ring: seq<Directory>, links: Links, links': Links)
    requires Ring(ring, links) && forall d <- ring :: d in links' && links'[d] == links[d]
    ensures Ring(ring, links')
  {
    forall i: nat | i < |ring|
      ensures Coupled(ring, links', i)
    {
      assert Coupled(ring, links, i);
    }
  }

  // ---------------------------------------------------------------- taking a member out

  /** prev->next = next; next->prev = prev. */
  function Bypass(links: Links, prev: Directory, next: Directory): Links
    requires prev in links && next in links
  {
    var l := links[prev := links[prev].(next := next)];
    l[next := l[next].(prev := prev)]
  }

  ghost function Without(ring: seq<Directory>, i: nat): seq<Directory>
    requires i < |ring|
  {
    ring[..i] + ring[i + 1..]
  }

  lemma InWithout(ring: seq<Directory>, i: nat)
    requires i < |ring|
    ensures forall d <- ring :: d != ring[i] ==> d in Without(ring, i)
    ensures forall d <- Without(ring, i) :: d in ring
    ensures |Without(ring, i)| == |ring| - 1 && (0 < i ==> Without(ring, i)[0] == ring[0])
  {
    forall d | d in ring && d != ring[i]
      ensures d in Without(ring, i)
    {
      var k :| 0 <= k < |ring| && ring[k] == d;
      assert d == Without(ring, i)[if k < i then k else k - 1];
    }
  }

  lemma GoneFrom(ring: seq<Directory>, links: Links, i: nat, x: Directory)
    requires Ring(ring, links) && i < |ring|
    ensures ring[i] !in Without(ring, i)
    ensures x != ring[i] ==> ring[i] !in ring[i := x]
  {
  }

  lemma UnlinkRing(ring: seq<Directory>, links: Links, i: nat)
    requires Ring(ring, links) && 0 < i < |ring| && |ring| >= 2
    ensures var d := ring[i];
            links[d].prev != null && links[d].next != null && links[d].prev in links && links[d].next in links &&
            Ring(Without(ring, i), Bypass(links, links[d].prev, links[d].next))
  {
    NextIs(ring, links, i);
    InWithout(ring, i);
    WithoutDistinct(ring, i);
    var r, l := Without(ring, i), Bypass(links, links[ring[i]].prev, links[ring[i]].next);
    hide Without, Distinct;
    forall k: nat | k < |r|
      ensures Coupled(r, l, k)
    {
      UnlinkedAt(ring, links, i, k);
    }
  }

  lemma WithoutDistinct(ring: seq<Directory>, i: nat)
    requires Distinct(ring) && i < |ring|
    ensures Distinct(Without(ring, i))
  {
  }

  lemma UnlinkedAt(ring: seq<Directory>, links: Links, i: nat, k: nat)
    requires Ring(ring, links) && 0 < i < |ring| && k < |Without(ring, i)|
    requires links[ring[i]].next == ring[i - 1] && links[ring[i]].prev == ring[After(i, |ring|)]
    requires var l := Bypass(links, ring[After(i, |ring|)], ring[i - 1]); forall x <- Without(ring, i) :: x in l
    ensures Coupled(Without(ring, i), Bypass(links, ring[After(i, |ring|)], ring[i - 1]), k)
  {
    NextIs(ring, links, if k < i then k else k + 1);
    var k' := After(k, |ring| - 1);
    NextIs(ring, links, if k' < i then k' else k' + 1);
  }

  // ---------------------------------------------------------------- putting a member in

  /** d goes between at and at's next: d->prev = at; d->next = at->next; at->next = d; d->next->prev = d. */
  function Insert(links: Links, d: Directory, at: Directory, next: Directory): Links
    requires at in links && next in links && d != at && d != next
  {
    var l := links[d := Link(next, at)];
    var m := l[at := l[at].(next := d)];
    m[next := m[next].(prev := d)]
  }

  ghost function With(ring: seq<Directory>, i: nat, d: Directory): seq<Directory>
    requires i <= |ring|
  {
    ring[..i] + [d] + ring[i..]
  }

  lemma InWith(ring: seq<Directory>, i: nat, x: Directory)
    requires i <= |ring|
    ensures forall d <- With(ring, i, x) :: d in ring || d == x
    ensures x in With(ring, i, x) && forall d <- ring :: d in With(ring, i, x)
    ensures |With(ring, i, x)| == |ring| + 1 && (0 < i ==> With(ring, i, x)[0] == ring[0])
  {
    assert ring == ring[..i] + ring[i..];
    assert x in With(ring, i, x);
  }

  lemma InsertRing(ring: seq<Directory>, links: Links, i: nat, d: Directory)
    requires Ring(ring, links) && 0 < i < |ring| && d !in ring
    ensures links[ring[i]].next == ring[i - 1]
    ensures Ring(With(ring, i, d), Insert(links, d, ring[i], ring[i - 1]))
  {
    NextIs(ring, links, i);
    InWith(ring, i, d);
    var r, l := With(ring, i, d), Insert(links, d, ring[i], ring[i - 1]);
    WithDistinct(ring, i, d);
    hide With, Distinct;
    forall k: nat | k < |r|
      ensures Coupled(r, l, k)
    {
      InsertedAt(ring, links, i, d, k);
    }
  }

  lemma WithDistinct(ring: seq<Directory>, i: nat, d: Directory)
    requires Distinct(ring) && i <= |ring| && d !in ring
    ensures Distinct(With(ring, i, d))
  {
  }

  lemma InsertedAt(ring: seq<Directory>, links: Links, i: nat, d: Directory, k: nat)
    requires Ring(ring, links) && 0 < i < |ring| && d !in ring && k < |With(ring, i, d)|
    requires var l := Insert(links, d, ring[i], ring[i - 1]); forall x <- With(ring, i, d) :: x in l
    ensures Coupled(With(ring, i, d), Insert(links, d, ring[i], ring[i - 1]), k)
  {
    if k != i {
      NextIs(ring, links, if k < i then k else k - 1);
    }
    var k' := After(k, |ring| + 1);
    if k' != i {
      NextIs(ring, links, if k' < i then k' else k' - 1);
    }
  }

  // ---------------------------------------------------------------- putting a member in the place of another

  /** d takes the links of old, and its neighbours point to it. */
  function Replace(links: Links, d: Directory, next: Directory, prev: Directory): Links
    requires next in links && prev in links && d != next && d != prev
  {
    var l := links[d := Link(next, prev)];
    var m := l[prev := l[prev].(next := d)];
    m[next := m[next].(prev := d)]
  }

  lemma InReplaced(ring: seq<Directory>, i: nat, x: Directory)
    requires i < |ring|
    ensures x in ring[i := x] && forall d <- ring[i := x] :: d in ring || d == x
    ensures forall d <- ring :: d == ring[i] || d in ring[i := x]
  {
    assert ring[i := x][i] == x;
    forall d <- ring | d != ring[i]
      ensures d in ring[i := x]
    {
      var k :| 0 <= k < |ring| && ring[k] == d;
      assert ring[i := x][k] == d;
    }
  }

  lemma ReplaceRing(ring: seq<Directory>, links: Links, i: nat, d: Directory)
    requires Ring(ring, links) && 0 < i < |ring| && d !in ring
    ensures links[ring[i]].next == ring[i - 1] && links[ring[i]].prev == ring[After(i, |ring|)]
    ensures Ring(ring[i := d], Replace(links, d, ring[i - 1], ring[After(i, |ring|)]))
  {
    NextIs(ring, links, i);
    var r, l := ring[i := d], Replace(links, d, ring[i - 1], ring[After(i, |ring|)]);
    forall k: nat | k < |r|
      ensures Coupled(r, l, k)
    {
      NextIs(ring, links, k);
      NextIs(ring, links, After(k, |r|));
    }
  }

  // ---------------------------------------------------------------- all the directories

  /** The ring is well formed, and a directory off the ring, except x, has no links. */
  ghost predicate ShapeIs(ring: seq<Directory>, links: Links, head: Directory, x: Directory?) {
    && Ring(ring, links)
    && |ring| > 0 && ring[0] == head
    && (forall d <- links :: d !in ring && d != x ==> links[d] == Link(null, null))
  }

  lemma UnlinkShape(ring: seq<Directory>, links: Links, head: Directory, i: nat)
    requires ShapeIs(ring, links, head, null) && 0 < i < |ring|
    ensures var d := ring[i];
            && links[d].prev != null && links[d].next != null && links[d].prev in links && links[d].next in links
            && ShapeIs(Without(ring, i), Bypass(links, links[d].prev, links[d].next), head, d) && d !in Without(ring, i)
  {
    hide Ring, Without;
    UnlinkRing(ring, links, i);
    NextIs(ring, links, i);
    InWithout(ring, i);
    GoneFrom(ring, links, i, ring[i]);
  }

  lemma InsertShape(ring: seq<Directory>, links: Links, head: Directory, i: nat, d: Directory)
    requires ShapeIs(ring, links, head, d) && 0 < i < |ring| && d !in ring
    ensures ring[i] in links && ring[i - 1] in links && links[ring[i]].next == ring[i - 1]
    ensures ShapeIs(With(ring, i, d), Insert(links, d, ring[i], ring[i - 1]), head, null)
  {
    hide Ring, With;
    InsertRing(ring, links, i, d);
    InWith(ring, i, d);
    Members(ring, links, i);
    Members(ring, links, i - 1);
  }

  lemma ReplaceShape(ring: seq<Directory>, links: Links, head: Directory, i: nat, d: Directory)
    requires ShapeIs(ring, links, head, d) && 0 < i < |ring| && d !in ring
    ensures var next, prev := ring[i - 1], ring[After(i, |ring|)];
            && ring[i] in links && next in links && prev in links && links[ring[i]] == Link(next, prev)
            && ShapeIs(ring[i := d], Replace(links, d, next, prev), head, ring[i]) && ring[i] !in ring[i := d]
  {
    hide Ring;
    ReplaceRing(ring, links, i, d);
    InReplaced(ring, i, d);
    GoneFrom(ring, links, i, d);
    Members(ring, links, i);
    Members(ring, links, i - 1);
    Members(ring, links, After(i, |ring|));
    var next, prev := ring[i - 1], ring[After(i, |ring|)];
    assert next in ring && prev in ring && d in ring[i := d];
    Different(ring, links, i, i - 1);
    if After(i, |ring|) != i {
      Different(ring, links, i, After(i, |ring|));
    }
    var links' := Replace(links, d, next, prev);
    forall x <- links' | x !in ring[i := d] && x != ring[i]
      ensures links'[x] == Link(null, null)
    {
      assert x !in ring;
    }
  }

  lemma Members(ring: seq<Directory>, links: Links, i: nat)
    requires Ring(ring, links) && i < |ring|
    ensures ring[i] in links
  {
  }

  /** Off the ring, x loses its links or is forgotten; a new x comes without any. */
  lemma SettleShape(ring: seq<Directory>, links: Links, links': Links, head: Directory, x: Directory)
    requires ShapeIs(ring, links, head, x) && x !in ring
    requires links' == links[x := Link(null, null)] || links' == links - {x}
    ensures ShapeIs(ring, links', head, null)
  {
    hide Ring;
    assert forall d <- ring :: d in links by { AllMembers(ring, links); }
    SameRing(ring, links, links');
  }

  lemma NewShape(ring: seq<Directory>, links: Links, links': Links, head: Directory, x: Directory)
    requires ShapeIs(ring, links, head, null) && x !in links && x in links' && links' == links[x := links'[x]]
    ensures ShapeIs(ring, links', head, x) && x !in ring
  {
    hide Ring;
    AllMembers(ring, links);
    SameRing(ring, links, links');
  }

  lemma AllMembers(ring: seq<Directory>, links: Links)
    requires Ring(ring, links)
    ensures forall d <- ring :: d in links
  {
  }

  // ---------------------------------------------------------------- the stack

  /** The stack as dirs prints it: from the current directory along di_prev, without dhead. */
  ghost function Stack(ring: seq<Directory>, at: nat): (s: seq<Directory>)
    requires 0 < at < |ring|
    ensures |s| == |ring| - 1 && s[0] == ring[at]
  {
    ring[at..] + ring[1..at]
  }

  /** Where entry j of the stack is on the ring. */
  function Index(at: nat, n: nat, j: nat): (k: nat)
    requires 0 < at < n && j < n - 1
    ensures 0 < k < n
  {
    if at + j < n then at + j else at + j - n + 1
  }

  lemma StackAt(ring: seq<Directory>, at: nat, j: nat)
    requires 0 < at < |ring| && j < |ring| - 1
    ensures Stack(ring, at)[j] == ring[Index(at, |ring|, j)]
  {
  }

  /** The stack without entry j; where the current directory is then, unless it was entry 0. */
  lemma StackWithout(ring: seq<Directory>, at: nat, j: nat)
    requires 0 < at < |ring| && 0 < j < |ring| - 1
    ensures var k := Index(at, |ring|, j);
            var at' := if k < at then at - 1 else at;
            Stack(Without(ring, k), at') == Stack(ring, at)[..j] + Stack(ring, at)[j + 1..]
  {
    var k := Index(at, |ring|, j);
    var at' := if k < at then at - 1 else at;
    var s, s' := Stack(Without(ring, k), at'), Stack(ring, at)[..j] + Stack(ring, at)[j + 1..];
    assert |s| == |s'|;
    forall i: nat | i < |s|
      ensures s[i] == s'[i]
    {
      StackAt(ring, at, if i < j then i else i + 1);
      StackAt(Without(ring, k), at', i);
    }
  }

  /** Entry j becomes current after the old current directory is taken out. */
  lemma StackPop(ring: seq<Directory>, at: nat, j: nat)
    requires 0 < at < |ring| && 0 < j < |ring| - 1
    ensures var k := Index(at, |ring|, j);
            var at' := if k < at then k else k - 1;
            Stack(Without(ring, at), at') == Stack(ring, at)[j..] + Stack(ring, at)[1..j]
  {
    var k := Index(at, |ring|, j);
    var at' := if k < at then k else k - 1;
    var s, s' := Stack(Without(ring, at), at'), Stack(ring, at)[j..] + Stack(ring, at)[1..j];
    assert |s| == |s'|;
    forall i: nat | i < |s|
      ensures s[i] == s'[i]
    {
      StackAt(ring, at, if j + i < |ring| - 1 then j + i else j + i - (|ring| - 1) + 1);
      StackAt(Without(ring, at), at', i);
    }
  }

  lemma StackRotate(ring: seq<Directory>, at: nat, j: nat)
    requires 0 < at < |ring| && j < |ring| - 1
    ensures Stack(ring, Index(at, |ring|, j)) == Stack(ring, at)[j..] + Stack(ring, at)[..j]
  {
    var k := Index(at, |ring|, j);
    var s, s' := Stack(ring, k), Stack(ring, at)[j..] + Stack(ring, at)[..j];
    forall i: nat | i < |s|
      ensures s[i] == s'[i]
    {
      StackAt(ring, at, if j + i < |ring| - 1 then j + i else j + i - (|ring| - 1));
      StackAt(ring, k, i);
    }
  }

  lemma StackPush(ring: seq<Directory>, at: nat, d: Directory)
    requires 0 < at < |ring|
    ensures Stack(With(ring, at, d), at) == [d] + Stack(ring, at)
  {
  }

  /** Where the members are after one is taken out or put in. */
  lemma WithoutAt(ring: seq<Directory>, i: nat, k: nat)
    requires i < |ring| && k < |ring| && i != k
    ensures |Without(ring, i)| == |ring| - 1 && Without(ring, i)[if i < k then k - 1 else k] == ring[k]
  {
  }

  lemma PushAt(ring: seq<Directory>, i: nat, d: Directory)
    requires i <= |ring|
    ensures |With(ring, i, d)| == |ring| + 1 && With(ring, i, d)[i] == d
  {
  }

  lemma StackReplace(ring: seq<Directory>, at: nat, d: Directory)
    requires 0 < at < |ring|
    ensures Stack(ring[at := d], at) == [d] + Stack(ring, at)[1..]
  {
  }
}
