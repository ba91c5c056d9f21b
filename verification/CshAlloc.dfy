/**
 The storage allocator of csh (bin/csh/alloc.c). A block of bucket b is a four-byte header and
 the data after it. The header of a block in use holds the byte MAGIC and the bucket; the
 header of a free block is the link to the next free block, little-endian, so that its low byte
 lies where MAGIC would be.
 */
module CshAlloc {
  import opened Bytes
  import opened Machine

  const MAGIC: Byte := 0xef
  const NBUCKETS := 30
  const HEADER := 4

  // ---------------------------------------------------------------- sizes

  /** 2^(b+3), the block size of bucket b. */
  function Size(b: nat): (s: nat)
    ensures s >= 8 && s % 8 == 0
  {
    if b == 0 then 8 else 2 * Size(b - 1)
  }

  lemma {:induction false} SizeMonotone(a: nat, b: nat)
    requires a < b
    ensures 2 * Size(a) <= Size(b)
    decreases b
  {
    if a < b - 1 {
      SizeMonotone(a, b - 1);
    }
  }

  /** A larger size is a multiple of a smaller one. */
  lemma {:induction false} SizeDivides(a: nat, b: nat) returns (k: nat)
    requires a <= b
    ensures Size(b) == k * Size(a) && k >= 1
    decreases b
  {
    if a == b {
      k := 1;
    } else {
      var j := SizeDivides(a, b - 1);
      k := 2 * j;
      assert 2 * (j * Size(a)) == k * Size(a);
    }
  }

  /** What a block of bucket b takes of the break: a page more from the page size on. */
  function Span(b: nat, pagesz: nat): (s: nat)
    ensures s >= 8
  {
    if Size(b) < pagesz then Size(b) else Size(b) + pagesz
  }

  /** The data bytes of a block. */
  function Capacity(b: nat, pagesz: nat): (s: nat)
    ensures s >= 4
  {
    Span(b, pagesz) - HEADER
  }

  /** The buckets are in order of capacity. */
  lemma CapacityMonotone(a: nat, b: nat, pagesz: nat)
    requires a < b
    ensures Capacity(a, pagesz) < Capacity(b, pagesz)
  {
    SizeMonotone(a, b);
  }

  /** b is the smallest bucket with room for nbytes. */
  ghost predicate Least(b: nat, nbytes: nat, pagesz: nat) {
    && nbytes <= Capacity(b, pagesz)
    && (b > 0 ==> Capacity(b - 1, pagesz) < nbytes)
  }

  lemma LeastUnique(a: nat, b: nat, nbytes: nat, pagesz: nat)
    requires Least(a, nbytes, pagesz) && Least(b, nbytes, pagesz)
    ensures a == b
  {
    if a < b - 1 {
      CapacityMonotone(a, b - 1, pagesz);
    } else if b < a - 1 {
      CapacityMonotone(b, a - 1, pagesz);
    }
  }

  // ---------------------------------------------------------------- memory

  type Memory = seq<Byte>

  function Word(b0: int, b1: int, b2: int, b3: int): int {
    b0 + 0x100 * b1 + 0x1_0000 * b2 + 0x100_0000 * b3
  }

  /** The four bytes at a as a little-endian number. */
  function WordAt(m: Memory, a: nat): (w: nat)
    requires a + HEADER <= |m|
    ensures w < TWO32
    ensures w % 4 == 0 ==> m[a] != MAGIC
  {
    Word(m[a], m[a + 1], m[a + 2], m[a + 3])
  }

  lemma WordOfDigits(w: nat)
    requires w < TWO32
    ensures w / 0x100_0000 < 0x100
    ensures Word(w % 0x100, w / 0x100 % 0x100, w / 0x1_0000 % 0x100, w / 0x100_0000) == w
  {
    assert w / 0x1_0000 == w / 0x100 / 0x100 && w / 0x100_0000 == w / 0x100 / 0x100 / 0x100;
  }

  function PutWord(m: Memory, a: nat, w: nat): (r: Memory)
    requires a + HEADER <= |m| && w < TWO32
    ensures |r| == |m| && WordAt(r, a) == w
    ensures forall i :: 0 <= i < |m| && (i < a || i >= a + HEADER) ==> r[i] == m[i]
  {
    WordOfDigits(w);
    m[a := w % 0x100][a + 1 := w / 0x100 % 0x100][a + 2 := w / 0x1_0000 % 0x100][a + 3 := w / 0x100_0000]
  }

  lemma SameWord(m: Memory, m': Memory, a: nat)
    requires a + HEADER <= |m| && a + HEADER <= |m'|
    requires forall i :: a <= i < a + HEADER ==> m[i] == m'[i]
    ensures WordAt(m, a) == WordAt(m', a)
  {
  }

  // ---------------------------------------------------------------- the state and what it stands for

  /** The allocator's variables and the memory below the break. */
  datatype Image = Image(mem: Memory, nextf: seq<nat>, nmalloc: seq<nat>)

  /** What the variables stand for: the bucket of every block carved so far, by the address of
      its header, and the free blocks of every bucket in list order. */
  datatype Book = Book(at: map<nat, nat>, lists: seq<seq<nat>>)

  /** No two of the addresses are equal. */
  ghost predicate Distinct(l: seq<nat>) {
    forall i, j :: 0 <= i < j < |l| ==> l[i] != l[j]
  }

  /** Blocks lie inside the memory, aligned, and pairwise disjoint. */
  ghost predicate Laid(at: map<nat, nat>, top: nat, pagesz: nat) {
    && (forall a <- at :: 0 < a && a % 4 == 0 && at[a] < NBUCKETS && Size(at[a]) < TWO31 && a + Span(at[a], pagesz) <= top)
    && (forall a <- at, b <- at :: a < b ==> a + Span(at[a], pagesz) <= b)
  }

  ghost function After(l: seq<nat>, i: nat): nat
    requires i < |l|
  {
    if i + 1 < |l| then l[i + 1] else 0
  }

  /** The list of bucket b, from its head through the links. */
  ghost predicate Linked(m: Memory, head: nat, l: seq<nat>) {
    && head == (if l == [] then 0 else l[0])
    && (forall i :: 0 <= i < |l| ==> l[i] + HEADER <= |m|)
    && (forall i :: 0 <= i < |l| ==> WordAt(m, l[i]) == After(l, i))
  }

  /** A list holds blocks of its own bucket, each once. */
  ghost predicate Listed(at: map<nat, nat>, b: nat, l: seq<nat>) {
    && Distinct(l)
    && (forall a <- l :: a in at && at[a] == b)
  }

  ghost predicate InUse(bk: Book, a: nat)
    requires |bk.lists| == NBUCKETS
  {
    a in bk.at && bk.at[a] < NBUCKETS && a !in bk.lists[bk.at[a]]
  }

  /** The header of a block in use. */
  ghost predicate Marked(m: Memory, bk: Book)
    requires |bk.lists| == NBUCKETS
  {
    forall a <- bk.at :: InUse(bk, a) ==> a + HEADER <= |m| && m[a] == MAGIC && m[a + 1] == bk.at[a]
  }

  ghost function Carved(at: map<nat, nat>, b: nat): set<nat> {
    set a | a in at && at[a] == b
  }

  /** The counters: blocks handed out and blocks on the list are all the blocks carved. */
  ghost predicate Counted(im: Image, bk: Book)
    requires |bk.lists| == |im.nmalloc| == NBUCKETS
  {
    forall b :: 0 <= b < NBUCKETS ==> im.nmalloc[b] + |bk.lists[b]| == |Carved(bk.at, b)|
  }

  ghost predicate Shaped(im: Image, bk: Book) {
    && |im.nextf| == |im.nmalloc| == |bk.lists| == NBUCKETS
    && 0 < |im.mem| <= TWO32 && |im.mem| % 4 == 0
  }

  ghost predicate Good(im: Image, bk: Book, pagesz: nat) {
    && Shaped(im, bk)
    && Laid(bk.at, |im.mem|, pagesz)
    && (forall b :: 0 <= b < NBUCKETS ==> Linked(im.mem, im.nextf[b], bk.lists[b]))
    && (forall b :: 0 <= b < NBUCKETS ==> Listed(bk.at, b, bk.lists[b]))
    && Marked(im.mem, bk)
    && Counted(im, bk)
  }

  /** The data of the block with header a. */
  ghost function Data(m: Memory, at: map<nat, nat>, a: nat, pagesz: nat): (s: seq<Byte>)
    requires a in at && a + Span(at[a], pagesz) <= |m|
    ensures |s| == Capacity(at[a], pagesz)
  {
    m[a + HEADER..a + Span(at[a], pagesz)]
  }

  /** What the clients see: the contents of every block handed out, by its header address. */
  ghost function Live(im: Image, bk: Book, pagesz: nat): map<nat, seq<Byte>>
    requires Good(im, bk, pagesz)
  {
    map a | a in bk.at && InUse(bk, a) :: Data(im.mem, bk.at, a, pagesz)
  }

  // ---------------------------------------------------------------- taking a block off its list

  function Popped(im: Image, b: nat): (r: Image)
    requires b < |im.nextf| && b < |im.nmalloc| && b < 256 && im.nextf[b] + HEADER <= |im.mem|
  {
    var op := im.nextf[b];
    Image(im.mem[op := MAGIC][op + 1 := b], im.nextf[b := WordAt(im.mem, op)], im.nmalloc[b := im.nmalloc[b] + 1])
  }

  ghost function PoppedBook(bk: Book, b: nat): Book
    requires b < |bk.lists| && bk.lists[b] != []
  {
    bk.(lists := bk.lists[b := bk.lists[b][1..]])
  }

  lemma LinkedTail(m: Memory, head: nat, l: seq<nat>)
    requires l != [] && Linked(m, head, l)
    ensures Linked(m, WordAt(m, l[0]), l[1..])
  {
    hide WordAt;
    var t := l[1..];
    forall i | 0 <= i < |t|
      ensures t[i] + HEADER <= |m| && WordAt(m, t[i]) == After(t, i)
    {
      assert t[i] == l[i + 1];
    }
  }

  lemma LinkedCons(m: Memory, a: nat, head: nat, l: seq<nat>)
    requires Linked(m, head, l) && a + HEADER <= |m| && WordAt(m, a) == head
    ensures Linked(m, a, [a] + l)
  {
    hide WordAt;
    var t := [a] + l;
    forall i | 0 <= i < |t|
      ensures t[i] + HEADER <= |m| && WordAt(m, t[i]) == After(t, i)
    {
      if i > 0 {
        assert t[i] == l[i - 1];
      }
    }
  }

  lemma DistinctTail(l: seq<nat>)
    requires l != [] && Distinct(l)
    ensures Distinct(l[1..]) && l[0] !in l[1..]
  {
    forall i | 0 <= i < |l[1..]|
      ensures l[1..][i] == l[i + 1] && l[i + 1] != l[0]
    {
    }
  }

  /** Links of other blocks do not change when only block op is written. */
  lemma LinkedApart(m: Memory, m': Memory, at: map<nat, nat>, head: nat, l: seq<nat>, op: nat, pagesz: nat)
    requires |m| <= |m'| && Laid(at, |m|, pagesz) && op in at && op !in l
    requires forall a <- l :: a in at
    requires Linked(m, head, l)
    requires forall i :: 0 <= i < |m| && (i < op || i >= op + Span(at[op], pagesz)) ==> m'[i] == m[i]
    ensures Linked(m', head, l)
  {
    hide Span, Size, WordAt;
    forall k | 0 <= k < |l|
      ensures WordAt(m', l[k]) == WordAt(m, l[k])
    {
      assert l[k] in l;
      SameWord(m, m', l[k]);
    }
  }

  lemma MarkedApart(m: Memory, m': Memory, bk: Book, bk': Book, op: nat, pagesz: nat)
    requires |bk.lists| == |bk'.lists| == NBUCKETS && |m| <= |m'| && bk'.at == bk.at && Laid(bk.at, |m|, pagesz) && op in bk.at
    requires Marked(m, bk)
    requires forall a <- bk.at :: a != op && InUse(bk', a) ==> InUse(bk, a)
    requires forall i :: 0 <= i < |m| && (i < op || i >= op + Span(bk.at[op], pagesz)) ==> m'[i] == m[i]
    requires InUse(bk', op) ==> m'[op] == MAGIC && m'[op + 1] == bk.at[op]
    ensures Marked(m', bk')
  {
    hide Size;
  }

  lemma PopGood(im: Image, bk: Book, b: nat, pagesz: nat)
    requires Good(im, bk, pagesz) && b < NBUCKETS && im.nextf[b] != 0
    ensures bk.lists[b] != [] && im.nextf[b] == bk.lists[b][0]
    ensures im.nextf[b] in bk.at && bk.at[im.nextf[b]] == b && im.nextf[b] + HEADER <= |im.mem|
    ensures Good(Popped(im, b), PoppedBook(bk, b), pagesz)
    ensures forall a :: InUse(PoppedBook(bk, b), a) <==> a == im.nextf[b] || InUse(bk, a)
    ensures !InUse(bk, im.nextf[b])
  {
    hide WordAt, Size, Carved, Linked, Distinct, Marked;
    assert Linked(im.mem, im.nextf[b], bk.lists[b]) && Listed(bk.at, b, bk.lists[b]);
    PopHead(im, bk, b, pagesz);
    var op, l, bk' := im.nextf[b], bk.lists[b], PoppedBook(bk, b);
    var im' := Popped(im, b);
    DistinctTail(l);
    forall c | 0 <= c < NBUCKETS
      ensures Linked(im'.mem, im'.nextf[c], bk'.lists[c]) && Listed(bk'.at, c, bk'.lists[c])
    {
      assert Linked(im.mem, im.nextf[c], bk.lists[c]) && Listed(bk.at, c, bk.lists[c]);
      if c == b {
        LinkedTail(im.mem, op, l);
        LinkedApart(im.mem, im'.mem, bk.at, im'.nextf[b], l[1..], op, pagesz);
      } else {
        LinkedApart(im.mem, im'.mem, bk.at, im.nextf[c], bk.lists[c], op, pagesz);
      }
    }
    PopInUse(bk, b);
    MarkedApart(im.mem, im'.mem, bk, bk', op, pagesz);
  }

  lemma PopHead(im: Image, bk: Book, b: nat, pagesz: nat)
    requires Good(im, bk, pagesz) && b < NBUCKETS && im.nextf[b] != 0
    ensures bk.lists[b] != [] && im.nextf[b] == bk.lists[b][0]
    ensures im.nextf[b] in bk.at && bk.at[im.nextf[b]] == b && im.nextf[b] + HEADER <= |im.mem|
  {
    hide WordAt, Size, Counted, Marked;
    assert Linked(im.mem, im.nextf[b], bk.lists[b]) && Listed(bk.at, b, bk.lists[b]);
    assert im.nextf[b] in bk.lists[b];
  }

  lemma PopInUse(bk: Book, b: nat)
    requires |bk.lists| == NBUCKETS && b < NBUCKETS && bk.lists[b] != [] && Listed(bk.at, b, bk.lists[b])
    ensures forall a :: InUse(PoppedBook(bk, b), a) <==> a == bk.lists[b][0] || InUse(bk, a)
    ensures !InUse(bk, bk.lists[b][0])
  {
    hide Distinct;
    var l := bk.lists[b];
    DistinctTail(l);
    assert l[0] in l;
    forall a
      ensures InUse(PoppedBook(bk, b), a) <==> a == l[0] || InUse(bk, a)
    {
      assert a in l <==> a == l[0] || a in l[1..];
    }
  }

  // ---------------------------------------------------------------- putting a block on its list

  function Pushed(im: Image, a: nat, b: nat): (r: Image)
    requires b < |im.nextf| && b < |im.nmalloc| && a + HEADER <= |im.mem| && im.nextf[b] < TWO32 && im.nmalloc[b] > 0
  {
    Image(PutWord(im.mem, a, im.nextf[b]), im.nextf[b := a], im.nmalloc[b := im.nmalloc[b] - 1])
  }

  ghost function PushedBook(bk: Book, a: nat, b: nat): Book
    requires b < |bk.lists|
  {
    bk.(lists := bk.lists[b := [a] + bk.lists[b]])
  }

  ghost function Elements(l: seq<nat>): set<nat> {
    set a | a in l
  }

  lemma {:induction false} DistinctCount(l: seq<nat>)
    requires Distinct(l)
    ensures |Elements(l)| == |l|
  {
    if l != [] {
      DistinctTail(l);
      DistinctCount(l[1..]);
      assert Elements(l) == Elements(l[1..]) + {l[0]};
    } else {
      assert Elements(l) == {};
    }
  }

  lemma SubsetCount(s: set<nat>, t: set<nat>)
    requires s < t
    ensures |s| < |t|
  {
    assert |t - s| > 0;
    assert t == s + (t - s);
  }

  /** A block in use is counted. */
  lemma InUseCounted(im: Image, bk: Book, a: nat, pagesz: nat)
    requires Good(im, bk, pagesz) && InUse(bk, a)
    ensures im.nmalloc[bk.at[a]] > 0
  {
    hide Size, Linked, Laid, Marked;
    var b := bk.at[a];
    var on := Elements(bk.lists[b]);
    DistinctCount(bk.lists[b]);
    assert Listed(bk.at, b, bk.lists[b]);
    assert on <= Carved(bk.at, b) && a in Carved(bk.at, b) && a !in on;
    assert im.nmalloc[b] + |bk.lists[b]| == |Carved(bk.at, b)|;
    SubsetCount(on, Carved(bk.at, b));
  }

  /** Every list head is an address, hence a multiple of 4 below 2^32. */
  lemma HeadIsAddress(im: Image, bk: Book, b: nat, pagesz: nat)
    requires Good(im, bk, pagesz) && b < NBUCKETS
    ensures im.nextf[b] < TWO32 && im.nextf[b] % 4 == 0
  {
    hide Size, Counted, Marked;
    assert Linked(im.mem, im.nextf[b], bk.lists[b]) && Listed(bk.at, b, bk.lists[b]);
    if bk.lists[b] != [] {
      assert bk.lists[b][0] in bk.lists[b];
    }
  }

  lemma PushGood(im: Image, bk: Book, a: nat, b: nat, pagesz: nat)
    requires Good(im, bk, pagesz) && InUse(bk, a) && b == bk.at[a]
    ensures a + HEADER <= |im.mem| && im.nextf[b] < TWO32 && im.nmalloc[b] > 0
    ensures Good(Pushed(im, a, b), PushedBook(bk, a, b), pagesz)
    ensures forall x :: InUse(PushedBook(bk, a, b), x) <==> x != a && InUse(bk, x)
  {
    hide WordAt, Size, Carved, Linked, Marked, PutWord;
    HeadIsAddress(im, bk, b, pagesz);
    InUseCounted(im, bk, a, pagesz);
    var im', bk', l := Pushed(im, a, b), PushedBook(bk, a, b), bk.lists[b];
    forall c | 0 <= c < NBUCKETS
      ensures Linked(im'.mem, im'.nextf[c], bk'.lists[c]) && Listed(bk'.at, c, bk'.lists[c])
    {
      assert Linked(im.mem, im.nextf[c], bk.lists[c]) && Listed(bk.at, c, bk.lists[c]);
      LinkedApart(im.mem, im'.mem, bk.at, im.nextf[c], bk.lists[c], a, pagesz);
      if c == b {
        LinkedCons(im'.mem, a, im.nextf[b], l);
      }
    }
    forall x
      ensures InUse(bk', x) <==> x != a && InUse(bk, x)
    {
      assert x in [a] + l <==> x == a || x in l;
    }
    MarkedApart(im.mem, im'.mem, bk, bk', a, pagesz);
  }

  /** The header of a free block never shows MAGIC: it is a link, and links are aligned. */
  lemma FreeShowsNoMagic(im: Image, bk: Book, a: nat, pagesz: nat)
    requires Good(im, bk, pagesz) && a in bk.at
    ensures a + HEADER <= |im.mem|
    ensures im.mem[a] == MAGIC <==> InUse(bk, a)
  {
    hide Size, Counted;
    var b := bk.at[a];
    if a in bk.lists[b] {
      var l := bk.lists[b];
      var i :| 0 <= i < |l| && l[i] == a;
      assert Linked(im.mem, im.nextf[b], l) && Listed(bk.at, b, l);
      if i + 1 < |l| {
        assert l[i + 1] in l;
      }
      assert WordAt(im.mem, l[i]) == After(l, i);
    }
  }

  // ---------------------------------------------------------------- carving new blocks

  /** The addresses l are blocks of bucket b in the new memory from low up to top. */
  ghost predicate Fresh(l: seq<nat>, low: nat, top: nat, span: nat) {
    && (forall a <- l :: low <= a && a % 4 == 0 && a + span <= top)
    && (forall i, j :: 0 <= i < j < |l| ==> l[i] + span <= l[j])
  }

  ghost function CarvedBook(bk: Book, b: nat, l: seq<nat>): (r: Book)
    requires b < |bk.lists|
    ensures forall a :: a in r.at <==> a in bk.at || a in l
    ensures forall a <- r.at :: r.at[a] == if a in l then b else bk.at[a]
    ensures r.lists == bk.lists[b := l]
  {
    Book(bk.at + map a | a in l :: b, bk.lists[b := l])
  }

  lemma CarveLaid(at: map<nat, nat>, at': map<nat, nat>, b: nat, l: seq<nat>, low: nat, top: nat, pagesz: nat)
    requires Laid(at, low, pagesz) && b < NBUCKETS && Size(b) < TWO31 && 0 < low <= top
    requires Fresh(l, low, top, Span(b, pagesz))
    requires forall a :: a in at' <==> a in at || a in l
    requires forall a <- at' :: at'[a] == if a in l then b else at[a]
    ensures Laid(at', top, pagesz) && Distinct(l)
  {
    hide Size, Span;
    forall x <- at', y <- at' | x < y
      ensures x + Span(at'[x], pagesz) <= y
    {
      if x in l && y in l {
        FreshApart(l, low, top, Span(b, pagesz), x, y);
      }
    }
  }

  lemma FreshApart(l: seq<nat>, low: nat, top: nat, span: nat, x: nat, y: nat)
    requires Fresh(l, low, top, span) && x in l && y in l && x < y
    ensures x + span <= y
  {
    var i :| 0 <= i < |l| && l[i] == x;
    var j :| 0 <= j < |l| && l[j] == y;
    if j < i {
      assert l[j] + span <= l[i];
    }
  }

  lemma CarveCounted(im: Image, bk: Book, b: nat, l: seq<nat>, im': Image)
    requires |bk.lists| == |im.nmalloc| == NBUCKETS && b < NBUCKETS && Counted(im, bk)
    requires Distinct(l) && bk.lists[b] == [] && (forall a <- l :: a !in bk.at)
    requires im'.nmalloc == im.nmalloc
    ensures Counted(im', CarvedBook(bk, b, l))
  {
    var bk' := CarvedBook(bk, b, l);
    forall c | 0 <= c < NBUCKETS
      ensures im'.nmalloc[c] + |bk'.lists[c]| == |Carved(bk'.at, c)|
    {
      if c == b {
        DistinctCount(l);
        assert Carved(bk'.at, b) == Carved(bk.at, b) + Elements(l);
      } else {
        assert Carved(bk'.at, c) == Carved(bk.at, c);
      }
    }
  }

  lemma LinkedGrows(m: Memory, m': Memory, head: nat, l: seq<nat>)
    requires Linked(m, head, l) && m <= m'
    ensures Linked(m', head, l)
  {
    hide WordAt;
    forall i | 0 <= i < |l|
      ensures l[i] + HEADER <= |m'| && WordAt(m', l[i]) == After(l, i)
    {
      SameWord(m, m', l[i]);
    }
  }

  lemma CarveGood(im: Image, bk: Book, b: nat, l: seq<nat>, m': Memory, pagesz: nat)
    requires Good(im, bk, pagesz) && b < NBUCKETS && Size(b) < TWO31 && bk.lists[b] == []
    requires im.mem <= m' && |m'| <= TWO32 && |m'| % 4 == 0
    requires l != [] && Fresh(l, |im.mem|, |m'|, Span(b, pagesz)) && Linked(m', l[0], l)
    ensures var bk' := CarvedBook(bk, b, l);
            && Good(Image(m', im.nextf[b := l[0]], im.nmalloc), bk', pagesz)
            && (forall a :: InUse(bk', a) <==> InUse(bk, a))
            && (forall a <- bk.at :: a in bk'.at && bk'.at[a] == bk.at[a])
  {
    hide Size, Span, Counted, Linked, Distinct, CarvedBook, InUse, Marked;
    var bk', im' := CarvedBook(bk, b, l), Image(m', im.nextf[b := l[0]], im.nmalloc);
    assert forall a <- l :: a !in bk.at;
    CarveLaid(bk.at, bk'.at, b, l, |im.mem|, |m'|, pagesz);
    CarveCounted(im, bk, b, l, im');
    CarveInUse(bk, bk', b, l);
    CarveMarked(im.mem, m', bk, bk');
    forall c | 0 <= c < NBUCKETS
      ensures Linked(m', im'.nextf[c], bk'.lists[c]) && Listed(bk'.at, c, bk'.lists[c])
    {
      assert Linked(im.mem, im.nextf[c], bk.lists[c]) && Listed(bk.at, c, bk.lists[c]);
      if c != b {
        LinkedGrows(im.mem, m', im.nextf[c], bk.lists[c]);
      }
    }
  }

  lemma CarveInUse(bk: Book, bk': Book, b: nat, l: seq<nat>)
    requires |bk.lists| == NBUCKETS && b < NBUCKETS && bk.lists[b] == [] && bk'.lists == bk.lists[b := l]
    requires forall a :: a in bk'.at <==> a in bk.at || a in l
    requires forall a <- bk'.at :: bk'.at[a] == if a in l then b else bk.at[a]
    requires forall a <- l :: a !in bk.at
    ensures forall a :: InUse(bk', a) <==> InUse(bk, a)
  {
  }

  lemma CarveMarked(m: Memory, m': Memory, bk: Book, bk': Book)
    requires |bk.lists| == |bk'.lists| == NBUCKETS && Marked(m, bk) && m <= m'
    requires forall a :: InUse(bk', a) <==> InUse(bk, a)
    requires forall a <- bk.at :: a in bk'.at && bk'.at[a] == bk.at[a]
    ensures Marked(m', bk')
  {
  }

  // ---------------------------------------------------------------- what the clients see of a step

  lemma SameData(m: Memory, m': Memory, at: map<nat, nat>, at': map<nat, nat>, a: nat, pagesz: nat)
    requires a in at && a in at' && at[a] == at'[a] && a + Span(at[a], pagesz) <= |m| && a + Span(at[a], pagesz) <= |m'|
    requires forall i :: a + HEADER <= i < a + Span(at[a], pagesz) ==> m[i] == m'[i]
    ensures Data(m, at, a, pagesz) == Data(m', at', a, pagesz)
  {
  }

  /** Blocks in use before and after, with the same data bytes, look the same. */
  lemma LiveSame(im: Image, bk: Book, im': Image, bk': Book, a: nat, pagesz: nat)
    requires Good(im, bk, pagesz) && Good(im', bk', pagesz) && InUse(bk, a) && InUse(bk', a) && bk.at[a] == bk'.at[a]
    requires forall i :: a + HEADER <= i < a + Span(bk.at[a], pagesz) && i < |im.mem| && i < |im'.mem| ==> im.mem[i] == im'.mem[i]
    ensures Live(im, bk, pagesz)[a] == Live(im', bk', pagesz)[a]
  {
    hide Size, Span, Linked, Listed, Counted, Marked;
    SameData(im.mem, im'.mem, bk.at, bk'.at, a, pagesz);
  }

  lemma PopLive(im: Image, bk: Book, b: nat, pagesz: nat)
    requires Good(im, bk, pagesz) && b < NBUCKETS && im.nextf[b] != 0
    requires im.nextf[b] + HEADER <= |im.mem| && bk.lists[b] != []
    requires Good(Popped(im, b), PoppedBook(bk, b), pagesz)
    requires forall a :: InUse(PoppedBook(bk, b), a) <==> a == im.nextf[b] || InUse(bk, a)
    requires im.nextf[b] in bk.at && !InUse(bk, im.nextf[b])
    ensures var h, h' := Live(im, bk, pagesz), Live(Popped(im, b), PoppedBook(bk, b), pagesz);
            var op := im.nextf[b];
            op !in h && op in h' && h' == h[op := h'[op]]
  {
    hide Size, Span, Linked, Listed, Counted, Marked, WordAt, InUse;
    var im', bk' := Popped(im, b), PoppedBook(bk, b);
    forall a <- bk.at | InUse(bk, a)
      ensures Live(im, bk, pagesz)[a] == Live(im', bk', pagesz)[a]
    {
      LiveSame(im, bk, im', bk', a, pagesz);
    }
  }

  lemma PushLive(im: Image, bk: Book, a: nat, b: nat, pagesz: nat)
    requires Good(im, bk, pagesz) && InUse(bk, a) && b == bk.at[a]
    requires a + HEADER <= |im.mem| && im.nextf[b] < TWO32 && im.nmalloc[b] > 0
    requires Good(Pushed(im, a, b), PushedBook(bk, a, b), pagesz)
    requires forall x :: InUse(PushedBook(bk, a, b), x) <==> x != a && InUse(bk, x)
    ensures Live(Pushed(im, a, b), PushedBook(bk, a, b), pagesz) == Live(im, bk, pagesz) - {a}
  {
    hide Laid, Linked, Listed, Marked, Counted, InUse, WordAt, PutWord, Live;
    HeaderInSpan(im, bk, a, pagesz);
    DropLive(im, bk, Pushed(im, a, b), PushedBook(bk, a, b), a, pagesz);
  }

  lemma HeaderInSpan(im: Image, bk: Book, a: nat, pagesz: nat)
    requires Good(im, bk, pagesz) && InUse(bk, a)
    ensures a in bk.at && bk.at[a] < NBUCKETS && HEADER <= Span(bk.at[a], pagesz)
  {
    hide Good;
  }

  lemma DropLive(im: Image, bk: Book, im': Image, bk': Book, a: nat, pagesz: nat)
    requires Good(im, bk, pagesz) && Good(im', bk', pagesz) && bk.at == bk'.at && a in bk.at && |im.mem| == |im'.mem|
    requires forall x :: InUse(bk', x) <==> x != a && InUse(bk, x)
    requires forall i :: 0 <= i < |im.mem| && (i < a || i >= a + Span(bk.at[a], pagesz)) ==> im'.mem[i] == im.mem[i]
    ensures Live(im', bk', pagesz) == Live(im, bk, pagesz) - {a}
  {
    hide Size, Span, Linked, Listed, Counted, Marked, WordAt, InUse;
    forall x <- bk.at | x != a && InUse(bk, x)
      ensures Live(im, bk, pagesz)[x] == Live(im', bk', pagesz)[x]
    {
      LiveSame(im, bk, im', bk', x, pagesz);
    }
  }

  lemma CarveLive(im: Image, bk: Book, im': Image, bk': Book, pagesz: nat)
    requires Good(im, bk, pagesz) && Good(im', bk', pagesz) && im.mem <= im'.mem
    requires forall a :: InUse(bk', a) <==> InUse(bk, a)
    requires forall a <- bk.at :: a in bk'.at && bk'.at[a] == bk.at[a]
    ensures Live(im', bk', pagesz) == Live(im, bk, pagesz)
  {
    hide Size, Span, Linked, Listed, Counted, Marked, WordAt;
    forall x <- bk.at | InUse(bk, x)
      ensures Live(im, bk, pagesz)[x] == Live(im', bk', pagesz)[x]
    {
      LiveSame(im, bk, im', bk', x, pagesz);
    }
  }

  /** Writing the data of a block in use disturbs nothing else. */
  lemma WriteGood(im: Image, bk: Book, a: nat, m': Memory, pagesz: nat)
    requires Good(im, bk, pagesz) && InUse(bk, a) && |m'| == |im.mem|
    requires forall i :: 0 <= i < |m'| && (i < a + HEADER || i >= a + Span(bk.at[a], pagesz)) ==> m'[i] == im.mem[i]
    ensures Good(im.(mem := m'), bk, pagesz)
  {
    hide Size, Span, WordAt, Carved;
    forall c | 0 <= c < NBUCKETS
      ensures Linked(m', im.nextf[c], bk.lists[c])
    {
      assert Linked(im.mem, im.nextf[c], bk.lists[c]) && Listed(bk.at, c, bk.lists[c]);
      LinkedApart(im.mem, m', bk.at, im.nextf[c], bk.lists[c], a, pagesz);
    }
    MarkedApart(im.mem, m', bk, bk, a, pagesz);
  }

  lemma WriteLive(im: Image, bk: Book, a: nat, m': Memory, pagesz: nat)
    requires Good(im, bk, pagesz) && Good(im.(mem := m'), bk, pagesz) && InUse(bk, a) && |m'| == |im.mem|
    requires forall i :: 0 <= i < |m'| && (i < a + HEADER || i >= a + Span(bk.at[a], pagesz)) ==> m'[i] == im.mem[i]
    ensures a + Span(bk.at[a], pagesz) <= |m'|
    ensures Live(im.(mem := m'), bk, pagesz) == Live(im, bk, pagesz)[a := Data(m', bk.at, a, pagesz)]
  {
    hide Size, Span, Linked, Listed, Counted, Marked, WordAt;
    forall x <- bk.at | x != a && InUse(bk, x)
      ensures Live(im, bk, pagesz)[x] == Live(im.(mem := m'), bk, pagesz)[x]
    {
      LiveSame(im, bk, im.(mem := m'), bk, x, pagesz);
    }
  }

  /** The data bytes of every block, free or not, are the same in both memories. */
  ghost predicate KeepsData(m: Memory, m': Memory, at: map<nat, nat>, pagesz: nat) {
    && |m| <= |m'|
    && (forall a <- at :: KeepsBlock(m, m', a + HEADER, a + Span(at[a], pagesz)))
  }

  ghost predicate KeepsBlock(m: Memory, m': Memory, low: nat, high: nat) {
    && high <= |m| && high <= |m'|
    && (forall i :: low <= i < high ==> m[i] == m'[i])
  }

  /** Writing one header touches no data. */
  lemma HeaderWrite(m: Memory, m': Memory, at: map<nat, nat>, op: nat, pagesz: nat)
    requires Laid(at, |m|, pagesz) && op in at && |m| <= |m'|
    requires forall i :: 0 <= i < |m| && (i < op || i >= op + HEADER) ==> m'[i] == m[i]
    ensures KeepsData(m, m', at, pagesz)
  {
    hide Size;
  }

  lemma GrowthKeeps(m: Memory, m': Memory, at: map<nat, nat>, pagesz: nat)
    requires Laid(at, |m|, pagesz) && m <= m'
    ensures KeepsData(m, m', at, pagesz)
  {
    hide Size, Span;
  }

  lemma KeepsTrans(m: Memory, m': Memory, m'': Memory, at: map<nat, nat>, at': map<nat, nat>, pagesz: nat)
    requires KeepsData(m, m', at, pagesz) && KeepsData(m', m'', at', pagesz)
    requires forall a <- at :: a in at' && at'[a] == at[a]
    ensures KeepsData(m, m'', at, pagesz)
  {
    hide Span;
    forall a <- at
      ensures KeepsBlock(m, m'', a + HEADER, a + Span(at[a], pagesz))
    {
      assert KeepsBlock(m', m'', a + HEADER, a + Span(at'[a], pagesz));
    }
  }

  // ---------------------------------------------------------------- the allocator

  class Allocator {
    var mem: Memory
    var nextf: seq<nat>
    var nmalloc: seq<nat>
    const pagesz: nat
    const pagebucket: nat
    ghost var book: Book

    ghost function Im(): Image
      reads this
    {
      Image(mem, nextf, nmalloc)
    }

    ghost predicate Valid()
      reads this
    {
      && Good(Im(), book, pagesz)
      && pagesz == Size(pagebucket) && pagebucket <= 25
    }

    /** The blocks handed out, by header address, with their contents. */
    ghost function Heap(): map<nat, seq<Byte>>
      reads this
      requires Valid()
    {
      Live(Im(), book, pagesz)
    }

    /** The first call: the page size and its bucket, with the break already aligned. */
    constructor (page: nat, start: Memory, ghost pb: nat)
      requires page == Size(pb) && pb <= 25
      requires 0 < |start| <= TWO32 && |start| % 4 == 0
      ensures Valid() && Heap() == map[] && pagesz == page
    {
      var amt, bucket := 8, 0;
      while page > amt
        invariant bucket <= pb && amt == Size(bucket)
        decreases pb - bucket
      {
        if bucket == pb - 1 {
          assert Size(pb) == 2 * amt;
        }
        amt := 2 * amt;
        bucket := bucket + 1;
      }
      if bucket < pb {
        SizeMonotone(bucket, pb);
      }
      mem := start;
      nextf := seq(NBUCKETS, _ => 0);
      nmalloc := seq(NBUCKETS, _ => 0);
      pagesz := page;
      pagebucket := bucket;
      book := Book(map[], seq(NBUCKETS, _ => []));
      new;
      assert forall b :: 0 <= b < NBUCKETS ==> Carved(book.at, b) == {};
    }

    /** The bucket search of malloc, on 32-bit unsigned numbers: the smallest bucket with room,
        or none when the size wraps to 0. */
    method ChooseBucket(nbytes: nat) returns (found: bool, bucket: nat)
      requires Valid() && nbytes < TWO32
      ensures found ==> bucket <= 28 && Least(bucket, nbytes, pagesz)
      ensures !found ==> nbytes > Capacity(28, pagesz)
    {
      hide Good, Size;
      var amt, n;
      Doubling(0, pagebucket);
      if nbytes <= pagesz - HEADER {
        amt, bucket, n := 8, 0, -HEADER;
      } else {
        amt, bucket, n := pagesz, pagebucket, pagesz - HEADER;
        if bucket > 0 {
          Doubling(bucket - 1, bucket);
        }
      }
      found := true;
      while nbytes > amt + n
        invariant amt == Size(bucket) && bucket <= 28
        invariant n == -HEADER ==> nbytes <= pagesz - HEADER && bucket <= pagebucket
        invariant n == -HEADER || (n == pagesz - HEADER && bucket >= pagebucket && nbytes > n)
        invariant bucket > 0 ==> Capacity(bucket - 1, pagesz) < nbytes
        decreases 28 - bucket
      {
        Doubling(bucket, pagebucket);
        amt := 2 * amt % TWO32;
        if amt == 0 {
          found := false;
          return;
        }
        bucket := bucket + 1;
      }
      Doubling(bucket, pagebucket);
    }

    /** sbrk, told whether the system grants the request: zeroed memory at the old break. */
    method Sbrk(amt: nat, grant: bool) returns (granted: bool, op: nat)
      requires |mem| <= TWO32
      modifies this`mem
      ensures op == old(|mem|) && granted == (grant && op + amt <= TWO32)
      ensures |mem| == op + (if granted then amt else 0) && mem[..op] == old(mem)
      ensures forall i :: op <= i < |mem| ==> mem[i] == 0
      ensures !granted ==> mem == old(mem)
    {
      op := |mem|;
      granted := grant && op + amt <= TWO32;
      if granted {
        mem := mem + seq(amt, _ => 0);
      }
    }

    /** The loop of morecore: nblks blocks of sz bytes from start on become one list, whose
        end is the zero the system left in the last header. */
    method Thread(start: nat, sz: nat, nblks0: nat) returns (ghost l: seq<nat>)
      requires 1 <= nblks0 && start + nblks0 * sz <= |mem| <= TWO32
      requires start % 4 == 0 && sz % 4 == 0 && sz >= 8
      requires forall i :: start <= i < |mem| ==> mem[i] == 0
      modifies this`mem
      ensures |mem| == old(|mem|) && mem[..start] == old(mem[..start])
      ensures |l| == nblks0 && l[0] == start && Fresh(l, start, |mem|, sz) && Linked(mem, start, l)
    {
      hide WordAt, PutWord, Threaded, Fresh, Linked;
      var op, nblks := start, nblks0;
      l := [op];
      OneFewer(nblks, sz);
      ThreadStart(mem, start, sz);
      while nblks > 1
        invariant 1 <= nblks && |l| + nblks == nblks0 + 1
        invariant op + nblks * sz <= |mem| == old(|mem|) && start <= op
        invariant Threaded(mem, l, start, op, sz)
        invariant forall i :: op <= i < |mem| ==> mem[i] == 0
        invariant mem[..start] == old(mem[..start])
        decreases nblks
      {
        OneFewer(nblks, sz);
        ThreadStep(mem, l, start, op, sz);
        nblks := nblks - 1;
        mem := PutWord(mem, op, op + sz);
        op := op + sz;
        l := l + [op];
      }
      OneFewer(nblks, sz);
      ThreadEnd(mem, l, start, op, sz);
    }

    /** morecore, called when the list of the bucket is empty. */
    method Morecore(bucket: nat, grant: bool)
      requires Valid() && bucket <= 28 && nextf[bucket] == 0
      modifies this
      ensures Valid() && Heap() == old(Heap())
      ensures nextf == old(nextf)[bucket := nextf[bucket]] && nmalloc == old(nmalloc)
      ensures forall a <- old(book.at) :: a in book.at && book.at[a] == old(book.at[a])
      ensures KeepsData(old(mem), mem, old(book.at), pagesz)
      ensures nextf[bucket] != 0 <==> Granted(bucket, grant, old(|mem|), pagesz)
    {
      hide KeepsData, Laid, Good, Size, Live, Spare;
      ghost var im, bk := Im(), book;
      Shape(im, bk, pagesz);
      GrowthKeeps(mem, mem, book.at, pagesz);
      SizeBound(bucket);
      var sz := Size(bucket);
      if sz >= TWO31 {
        return;
      }
      var amt, nblks := MoreSize(bucket);
      var granted, op := Sbrk(amt, grant);
      if !granted {
        return;
      }
      SpareIs(op, amt, sz, nblks);
      Carve(bucket, op, sz, nblks, im);
      Prefix(im.mem, mem);
      GrowthKeeps(im.mem, mem, bk.at, pagesz);
    }

    /** The new memory from op on becomes the blocks of the empty list of the bucket. */
    method Carve(bucket: nat, op: nat, sz: nat, nblks: nat, ghost im: Image)
      requires bucket < NBUCKETS && sz == Size(bucket) < TWO31 && |mem| <= TWO32 && Spare(op, |mem|, sz, nblks)
      requires Good(im, book, pagesz) && |nextf| == NBUCKETS && im.nextf == nextf && im.nmalloc == nmalloc && nextf[bucket] == 0
      requires op == |im.mem| <= |mem| && mem[..op] == im.mem
      requires forall i :: op <= i < |mem| ==> mem[i] == 0
      requires sz >= pagesz ==> nblks == 1 && |mem| == op + sz + pagesz
      modifies this`mem, this`nextf, this`book
      ensures Good(Im(), book, pagesz) && Live(Im(), book, pagesz) == Live(im, old(book), pagesz)
      ensures |mem| == old(|mem|) && mem[..op] == im.mem && nextf == old(nextf)[bucket := op]
      ensures forall a <- old(book.at) :: a in book.at && book.at[a] == old(book.at[a])
    {
      hide Good, Fresh, Linked, Size, Span, CarvedBook, InUse, Live;
      ghost var bk := book;
      EmptyList(im, bk, bucket, pagesz);
      Shape(im, bk, pagesz);
      ghost var l := Thread(op, sz, nblks);
      nextf := nextf[bucket := op];
      book := CarvedBook(bk, bucket, l);
      Prefix(im.mem, mem);
      FreshSpan(l, op, |mem|, bucket, pagesz);
      CarveGood(im, bk, bucket, l, mem, pagesz);
      CarveLive(im, bk, Im(), book, pagesz);
    }

    /** How much morecore asks for, and how many blocks that makes. */
    method MoreSize(bucket: nat) returns (amt: nat, nblks: nat)
      requires pagesz == Size(pagebucket)
      ensures 1 <= nblks && nblks * Size(bucket) <= amt
      ensures amt == (if Size(bucket) < pagesz then pagesz else Size(bucket) + pagesz) && amt % 4 == 0
      ensures Size(bucket) >= pagesz ==> nblks == 1
    {
      if Size(bucket) < pagesz {
        amt := pagesz;
        nblks := WholeBlocks(bucket);
      } else {
        amt, nblks := Size(bucket) + pagesz, 1;
      }
    }

    /** nblks = amt / sz: a page divides into whole blocks. */
    method WholeBlocks(bucket: nat) returns (nblks: nat)
      requires pagesz == Size(pagebucket) && Size(bucket) < pagesz
      ensures nblks >= 2 && nblks * Size(bucket) == pagesz
    {
      if bucket >= pagebucket {
        if bucket > pagebucket {
          SizeMonotone(pagebucket, bucket);
        }
      }
      nblks := pagesz / Size(bucket);
      ghost var k := SizeDivides(bucket, pagebucket);
      MultipleDivides(pagesz, k, Size(bucket));
    }

    /** malloc */
    method Malloc(nbytes: nat, grant: bool) returns (p: nat)
      requires Valid() && nbytes < TWO32
      modifies this
      ensures Valid()
      ensures Added(old(Heap()), Heap(), p, nbytes)
      ensures forall a <- old(book.at) :: a in book.at && book.at[a] == old(book.at[a])
      ensures KeepsData(old(mem), mem, old(book.at), pagesz)
      ensures p != 0 ==> p - HEADER in book.at && Least(book.at[p - HEADER], nbytes, pagesz)
      ensures p != 0 <==> CanGet(nbytes, old(nextf), old(|mem|), grant, pagesz)
    {
      hide KeepsData, Laid, Good, Size, InUse, WordAt, Least, CanGet, Granted;
      Shape(Im(), book, pagesz);
      GrowthKeeps(mem, mem, book.at, pagesz);
      ghost var m0, at0 := mem, book.at;
      var found, bucket := ChooseBucket(nbytes);
      if !found {
        NoBucket(nbytes, pagesz);
        return 0;
      }
      CanGetFrom(bucket, nbytes, nextf, |mem|, grant, pagesz);
      if nextf[bucket] == 0 {
        Morecore(bucket, grant);
        if nextf[bucket] == 0 {
          return 0;
        }
      }
      ghost var m1, at1 := mem, book.at;
      Room(bucket, nbytes, pagesz);
      var op := Take(bucket);
      KeepsTrans(m0, m1, mem, at0, at1, pagesz);
      return op + HEADER;
    }

    /** Remove the first block from its list and mark it. */
    method Take(bucket: nat) returns (op: nat)
      requires Valid() && bucket < NBUCKETS && |nextf| == NBUCKETS && nextf[bucket] != 0
      modifies this
      ensures Valid() && book.at == old(book.at)
      ensures op !in old(Heap()) && op in Heap() && Heap() == old(Heap())[op := Heap()[op]]
      ensures KeepsData(old(mem), mem, old(book.at), pagesz)
      ensures book.at[op] == bucket && |Heap()[op]| == Capacity(bucket, pagesz)
    {
      hide KeepsData, Laid, Good, Size, WordAt;
      op := nextf[bucket];
      ghost var im, bk := Im(), book;
      Shape(im, bk, pagesz);
      PopGood(im, bk, bucket, pagesz);
      PopLive(im, bk, bucket, pagesz);
      nextf := nextf[bucket := WordAt(mem, op)];
      mem := mem[op := MAGIC];
      mem := mem[op + 1 := bucket];
      nmalloc := nmalloc[bucket := nmalloc[bucket] + 1];
      book := PoppedBook(bk, bucket);
      assert Im() == Popped(im, bucket);
      HeapKeys(Im(), book, op, pagesz);
      HeaderWrite(im.mem, mem, bk.at, op, pagesz);
    }

    /** free: of NULL, of a block in use, or of a block already free, which changes nothing. */
    method Free(cp: nat)
      requires Valid() && (cp == 0 || (cp >= HEADER && cp - HEADER in book.at))
      modifies this
      ensures Valid()
      ensures cp != 0 && cp - HEADER in old(Heap()) ==> Heap() == old(Heap()) - {cp - HEADER} && book.at == old(book.at)
      ensures cp != 0 && cp - HEADER in old(Heap()) ==> |mem| == old(|mem|) && nextf == Freed(old(nextf), old(book.at[cp - HEADER]), cp - HEADER)
      ensures cp == 0 || cp - HEADER !in old(Heap()) ==>
                mem == old(mem) && nextf == old(nextf) && nmalloc == old(nmalloc) && book == old(book)
      ensures KeepsData(old(mem), mem, old(book.at), pagesz)
    {
      hide KeepsData, Laid, Good, WordAt, PutWord, Size, InUse, Live;
      Shape(Im(), book, pagesz);
      GrowthKeeps(mem, mem, book.at, pagesz);
      if cp == 0 {
        return;
      }
      var op := cp - HEADER;
      FreeShowsNoMagic(Im(), book, op, pagesz);
      HeapKeys(Im(), book, op, pagesz);
      if mem[op] != MAGIC {
        return;
      }
      ghost var im, bk := Im(), book;
      ShownBucket(im, bk, op, pagesz);
      var size := mem[op + 1];
      PushGood(im, bk, op, size, pagesz);
      PushLive(im, bk, op, size, pagesz);
      Give(op, size);
      HeaderWrite(im.mem, mem, bk.at, op, pagesz);
    }

    /** The four assignments that put a block on its list. */
    method Give(op: nat, size: nat)
      requires |nextf| == |nmalloc| == |book.lists| == NBUCKETS && size < NBUCKETS
      requires op + HEADER <= |mem| && nextf[size] < TWO32 && nmalloc[size] > 0
      modifies this`mem, this`nextf, this`nmalloc, this`book
      ensures Im() == Pushed(old(Im()), op, size) && book == PushedBook(old(book), op, size)
      ensures |mem| == old(|mem|) && forall i :: 0 <= i < |mem| && (i < op || i >= op + HEADER) ==> mem[i] == old(mem)[i]
    {
      mem := PutWord(mem, op, nextf[size]);
      nextf := nextf[size := op];
      nmalloc := nmalloc[size := nmalloc[size] - 1];
      book := PushedBook(book, op, size);
    }

    /** bcopy, between blocks that do not overlap. */
    method Bcopy(from: nat, to: nat, n: nat)
      requires from + n <= |mem| && to + n <= |mem| && (from + n <= to || to + n <= from)
      modifies this`mem
      ensures |mem| == old(|mem|)
      ensures forall i :: 0 <= i < |mem| && (i < to || i >= to + n) ==> mem[i] == old(mem[i])
      ensures forall i :: to <= i < to + n ==> mem[i] == old(mem)[i - to + from]
    {
      var k := 0;
      while k < n
        invariant k <= n && |mem| == old(|mem|)
        invariant forall i :: 0 <= i < |mem| && (i < to || i >= to + k) ==> mem[i] == old(mem[i])
        invariant forall i :: to <= i < to + k ==> mem[i] == old(mem)[i - to + from]
      {
        mem := mem[to + k := mem[from + k]];
        k := k + 1;
      }
    }

    /** A client stores one byte in a block it holds. */
    method Poke(p: nat, k: nat, v: Byte)
      requires Valid() && p >= HEADER && p - HEADER in Heap() && k < |Heap()[p - HEADER]|
      modifies this`mem
      ensures Valid() && Heap() == old(Heap())[p - HEADER := Stored(old(Heap()[p - HEADER]), k, v)]
    {
      hide Good, Size;
      ghost var im := Im();
      HeapKeys(im, book, p - HEADER, pagesz);
      mem := mem[p + k := v];
      WriteGood(im, book, p - HEADER, mem, pagesz);
      WriteLive(im, book, p - HEADER, mem, pagesz);
      assert Data(mem, book.at, p - HEADER, pagesz) == Stored(Data(im.mem, book.at, p - HEADER, pagesz), k, v);
    }

    /** The size test of realloc: in place exactly when malloc would choose the same bucket,
        except for 0 bytes in the first bucket. */
    method SameBucket(bucket: nat, nbytes: nat) returns (same: bool, onb: nat)
      requires bucket < 28
      ensures onb == Capacity(bucket, pagesz)
      ensures same <==> Least(bucket, nbytes, pagesz) && (bucket == 0 ==> nbytes > 0)
    {
      onb := Size(bucket);
      if onb < pagesz {
        onb := onb - HEADER;
      } else {
        onb := onb + pagesz - HEADER;
      }
      var i := bucket;
      if i != 0 {
        i := Size(bucket - 1);
        if i < pagesz {
          i := i - HEADER;
        } else {
          i := i + pagesz - HEADER;
        }
      }
      same := nbytes <= onb && nbytes > i;
    }

    /** realloc of NULL or of a block in use. A block that does not stay in place is freed before
        the new one is taken and filled from it. */
    method Realloc(cp: nat, nbytes: nat, grant: bool) returns (p: nat)
      requires Valid() && nbytes < TWO32 && (cp == 0 || (cp >= HEADER && cp - HEADER in Heap()))
      modifies this
      ensures Valid()
      ensures cp == 0 ==> Added(old(Heap()), Heap(), p, nbytes)
      ensures cp == 0 ==> (p != 0 <==> CanGet(nbytes, old(nextf), old(|mem|), grant, pagesz))
      ensures cp != 0 ==> Moved(old(Heap()), Heap(), cp, p, nbytes)
      ensures cp != 0 && p != 0 ==> p >= HEADER && p - HEADER in Heap() && nbytes <= |Heap()[p - HEADER]|
      ensures cp != 0 && p != 0 ==>
                var was, now := old(Heap())[cp - HEADER], Heap()[p - HEADER];
                forall k :: 0 <= k < nbytes && k < |was| ==> now[k] == was[k]
      ensures cp != 0 ==> (p != 0 <==> CanGet(nbytes, Freed(old(nextf), old(book.at[cp - HEADER]), cp - HEADER), old(|mem|), grant, pagesz))
      ensures cp != 0 && nbytes > 0 ==> (p == cp <==> Least(old(book.at[cp - HEADER]), nbytes, pagesz))
      ensures cp != 0 && nbytes > 0 && p == cp ==> Heap() == old(Heap())
    {
      hide Good, Least, CanGet, Freed;
      if cp == 0 {
        p := Malloc(nbytes, grant);
      } else {
        p := ReallocInUse(cp, nbytes, grant);
      }
    }

    method ReallocInUse(cp: nat, nbytes: nat, grant: bool) returns (p: nat)
      requires Valid() && nbytes < TWO32 && cp >= HEADER && cp - HEADER in Heap()
      modifies this
      ensures Valid()
      ensures Moved(old(Heap()), Heap(), cp, p, nbytes)
      ensures p != 0 <==> CanGet(nbytes, Freed(old(nextf), old(book.at[cp - HEADER]), cp - HEADER), old(|mem|), grant, pagesz)
      ensures nbytes > 0 ==> (p == cp <==> Least(old(book.at[cp - HEADER]), nbytes, pagesz))
      ensures nbytes > 0 && p == cp ==> Heap() == old(Heap())
    {
      hide KeepsData, Laid, Good, Size, Span, WordAt, Least, InUse, Moved, CanGet, Granted;
      var op := cp - HEADER;
      ghost var h := Heap();
      HeapKeys(Im(), book, op, pagesz);
      ShownBucket(Im(), book, op, pagesz);
      var i := mem[op + 1];
      SizeBound(i);
      var same, onb := SameBucket(i, nbytes);
      if same {
        Room(i, nbytes, pagesz);
        Shape(Im(), book, pagesz);
        CanGetFrom(i, nbytes, Freed(nextf, i, op), |mem|, grant, pagesz);
        assert Alike(h[op], h[op], nbytes);
        MovedIs(h, h, h, cp, cp, nbytes);
        return cp;
      }
      p := Relocate(cp, nbytes, grant, i, onb);
    }

    /** The block is freed and its bytes are copied to the one malloc returns. */
    method Relocate(cp: nat, nbytes: nat, grant: bool, i: nat, onb: nat) returns (p: nat)
      requires Valid() && nbytes < TWO32 && cp >= HEADER && cp - HEADER in Heap()
      requires i == book.at[cp - HEADER] && onb == Capacity(i, pagesz) && onb == |Heap()[cp - HEADER]|
      modifies this
      ensures Valid()
      ensures Moved(old(Heap()), Heap(), cp, p, nbytes)
      ensures p != 0 <==> CanGet(nbytes, Freed(old(nextf), i, cp - HEADER), old(|mem|), grant, pagesz)
      ensures p == cp ==> Least(i, nbytes, pagesz)
    {
      hide KeepsData, Laid, Good, Size, Span, WordAt, Least, InUse, Moved, CanGet, Granted, Freed;
      var op := cp - HEADER;
      ghost var h := Heap();
      HeapKeys(Im(), book, op, pagesz);
      ghost var m0, at0 := mem, book.at;
      Free(cp);
      ghost var m1, at1 := mem, book.at;
      p := Malloc(nbytes, grant);
      if p == 0 {
        MovedNull(h, cp, nbytes);
        return;
      }
      KeepsTrans(m0, m1, mem, at0, at1, pagesz);
      KeptBlock(m0, mem, at0, op, pagesz);
      ghost var h1 := Heap();
      var n := if nbytes < onb then nbytes else onb;
      SlicePrefix(mem, cp, op + Span(i, pagesz), h[op], n);
      Refill(cp, p, n);
      SamePrefix(h[op], Heap()[p - HEADER], n, nbytes);
      MovedIs(h, h1, Heap(), cp, p, nbytes);
    }

    /** The copy, unless malloc gave the same block again. */
    method Refill(cp: nat, p: nat, n: nat)
      requires Valid() && cp >= HEADER && p >= HEADER && p - HEADER in Heap() && cp - HEADER in book.at
      requires n <= |Heap()[p - HEADER]| && n <= Capacity(book.at[cp - HEADER], pagesz)
      modifies this`mem
      ensures Valid() && Heap() == old(Heap())[p - HEADER := Heap()[p - HEADER]] && p - HEADER in Heap()
      ensures |Heap()[p - HEADER]| == |old(Heap()[p - HEADER])|
      ensures cp + n <= old(|mem|) && Heap()[p - HEADER][..n] == old(mem)[cp..cp + n]
    {
      hide Good, Size, Span, Live, InUse;
      HeapKeys(Im(), book, p - HEADER, pagesz);
      if cp != p {
        Fill(cp, p, n);
      }
    }

    /** The copy of realloc, from a block that is already free. */
    method Fill(cp: nat, p: nat, n: nat)
      requires Valid() && cp >= HEADER && p >= HEADER && cp != p && p - HEADER in Heap() && cp - HEADER in book.at
      requires n <= |Heap()[p - HEADER]| && n <= Capacity(book.at[cp - HEADER], pagesz)
      modifies this`mem
      ensures Valid() && Heap() == old(Heap())[p - HEADER := Heap()[p - HEADER]] && p - HEADER in Heap()
      ensures |Heap()[p - HEADER]| == |old(Heap()[p - HEADER])|
      ensures cp + n <= old(|mem|) && Heap()[p - HEADER][..n] == old(mem)[cp..cp + n]
    {
      hide Good, Size, Span, Live;
      ghost var im := Im();
      ghost var a: nat := p - HEADER;
      Shape(im, book, pagesz);
      HeapKeys(im, book, a, pagesz);
      Bcopy(cp, p, n);
      WriteGood(im, book, a, mem, pagesz);
      WriteLive(im, book, a, mem, pagesz);
      Copied(im.mem, mem, cp, p, n, a + Span(book.at[a], pagesz));
    }
  }

  lemma Copied(m: Memory, m': Memory, from: nat, to: nat, n: nat, high: nat)
    requires from + n <= |m| && to + n <= high <= |m'|
    requires forall i :: to <= i < to + n ==> m'[i] == m[i - to + from]
    ensures m'[to..high][..n] == m[from..from + n]
  {
    var s := m'[to..high][..n];
    forall k | 0 <= k < n
      ensures s[k] == m[from..from + n][k]
    {
      assert s[k] == m'[to + k];
    }
  }

  lemma KeptBlock(m: Memory, m': Memory, at: map<nat, nat>, a: nat, pagesz: nat)
    requires KeepsData(m, m', at, pagesz) && a in at
    ensures a + Span(at[a], pagesz) <= |m| && a + Span(at[a], pagesz) <= |m'|
    ensures m'[a + HEADER..a + Span(at[a], pagesz)] == Data(m, at, a, pagesz)
  {
    hide Span;
    assert KeepsBlock(m, m', a + HEADER, a + Span(at[a], pagesz));
  }

  /** What malloc does to the blocks handed out: one more, with room for nbytes, or none. */
  ghost predicate Added(h: map<nat, seq<Byte>>, h': map<nat, seq<Byte>>, p: nat, nbytes: nat) {
    if p == 0 then h' == h
    else
      && p >= HEADER && p - HEADER !in h && p - HEADER in h'
      && h' == h[p - HEADER := h'[p - HEADER]]
      && nbytes <= |h'[p - HEADER]|
  }

  /** What realloc does to the blocks handed out: cp is gone, also when there is no new block;
      p is new or cp itself, with room for nbytes, and has the old contents as far as both go. */
  ghost predicate Moved(h: map<nat, seq<Byte>>, h': map<nat, seq<Byte>>, cp: nat, p: nat, nbytes: nat)
    requires cp >= HEADER && cp - HEADER in h
  {
    if p == 0 then h' == h - {cp - HEADER}
    else
      && p >= HEADER && p - HEADER in h'
      && (p != cp ==> p - HEADER !in h)
      && h' == (h - {cp - HEADER})[p - HEADER := h'[p - HEADER]]
      && nbytes <= |h'[p - HEADER]|
      && Alike(h[cp - HEADER], h'[p - HEADER], nbytes)
  }

  lemma SlicePrefix(m: Memory, low: nat, high: nat, d: seq<Byte>, n: nat)
    requires low <= high <= |m| && m[low..high] == d && n <= |d|
    ensures low + n <= |m| && m[low..low + n] == d[..n]
  {
  }

  /** The first n bytes of a block are those of the block before, as far as that goes. */
  ghost predicate Alike(was: seq<Byte>, now: seq<Byte>, n: nat) {
    n <= |now| && forall k :: 0 <= k < n && k < |was| ==> now[k] == was[k]
  }

  lemma SamePrefix(was: seq<Byte>, now: seq<Byte>, n: nat, nbytes: nat)
    requires n <= |was| && n <= nbytes <= |now| && now[..n] == was[..n] && (n == nbytes || n == |was|)
    ensures Alike(was, now, nbytes)
  {
    assert forall k :: 0 <= k < n ==> now[..n][k] == was[..n][k];
  }

  lemma MovedNull(h: map<nat, seq<Byte>>, cp: nat, nbytes: nat)
    requires cp >= HEADER && cp - HEADER in h
    ensures Moved(h, h - {cp - HEADER}, cp, 0, nbytes)
  {
  }

  lemma MovedIs(h: map<nat, seq<Byte>>, h1: map<nat, seq<Byte>>, h2: map<nat, seq<Byte>>, cp: nat, p: nat, nbytes: nat)
    requires cp >= HEADER && p >= HEADER && cp - HEADER in h
    requires p - HEADER !in h - {cp - HEADER} && p - HEADER in h1 && h1 == (h - {cp - HEADER})[p - HEADER := h1[p - HEADER]]
    requires p - HEADER in h2 && h2 == h1[p - HEADER := h2[p - HEADER]] && nbytes <= |h2[p - HEADER]|
    requires Alike(h[cp - HEADER], h2[p - HEADER], nbytes)
    ensures Moved(h, h2, cp, p, nbytes)
  {
  }

  function Stored(s: seq<Byte>, k: nat, v: Byte): seq<Byte>
    requires k < |s|
  {
    s[k := v]
  }

  lemma Room(b: nat, nbytes: nat, pagesz: nat)
    requires Least(b, nbytes, pagesz)
    ensures nbytes <= Capacity(b, pagesz)
  {
  }

  /** The list heads once op, of bucket b, is free. */
  function Freed(nextf: seq<nat>, b: nat, op: nat): seq<nat> {
    if b < |nextf| then nextf[b := op] else nextf
  }

  /** Whether malloc finds a block: one of the smallest bucket with room is free, or memory is
      granted for it. */
  ghost predicate CanGet(nbytes: nat, nextf: seq<nat>, top: nat, grant: bool, pagesz: nat) {
    && |nextf| == NBUCKETS
    && exists b :: 0 <= b <= 28 && Least(b, nbytes, pagesz) && (nextf[b] != 0 || Granted(b, grant, top, pagesz))
  }

  lemma CanGetFrom(b: nat, nbytes: nat, nextf: seq<nat>, top: nat, grant: bool, pagesz: nat)
    requires |nextf| == NBUCKETS && b <= 28 && Least(b, nbytes, pagesz)
    ensures CanGet(nbytes, nextf, top, grant, pagesz) <==> nextf[b] != 0 || Granted(b, grant, top, pagesz)
  {
    LeastAlone(b, nbytes, pagesz);
  }

  /** Whether morecore can get memory for the bucket. */
  predicate Granted(b: nat, grant: bool, top: nat, pagesz: nat) {
    && Size(b) < TWO31
    && grant
    && top + (if Size(b) < pagesz then pagesz else Size(b) + pagesz) <= TWO32
  }

  /** Room for nblks blocks of sz bytes between op and top. */
  ghost predicate Spare(op: nat, top: nat, sz: nat, nblks: nat) {
    1 <= nblks && 0 < op && op + nblks * sz <= top && sz >= 8 && op % 4 == 0 && top % 4 == 0 && sz % 4 == 0
  }

  lemma SpareIs(op: nat, amt: nat, sz: nat, nblks: nat)
    requires 1 <= nblks && 0 < op && op % 4 == 0 && amt % 4 == 0 && sz >= 8 && sz % 8 == 0 && nblks * sz <= amt
    ensures Spare(op, op + amt, sz, nblks)
  {
  }

  lemma EmptyList(im: Image, bk: Book, b: nat, pagesz: nat)
    requires Good(im, bk, pagesz) && b < NBUCKETS
    ensures im.nextf[b] == 0 <==> bk.lists[b] == []
  {
    hide Size, Counted, Marked;
    assert Linked(im.mem, im.nextf[b], bk.lists[b]) && Listed(bk.at, b, bk.lists[b]);
    if bk.lists[b] != [] {
      assert bk.lists[b][0] in bk.lists[b];
    }
  }

  lemma Shape(im: Image, bk: Book, pagesz: nat)
    requires Good(im, bk, pagesz)
    ensures Shaped(im, bk) && Laid(bk.at, |im.mem|, pagesz)
  {
  }

  lemma Prefix(m: Memory, m': Memory)
    requires |m| <= |m'| && m'[..|m|] == m
    ensures m <= m'
  {
  }

  lemma TimesPositive(n: nat, d: nat)
    requires n >= 1
    ensures n * d >= d
  {
  }

  lemma MultipleDivides(x: nat, k: nat, d: nat)
    requires d > 0 && x == k * d
    ensures x / d == k
  {
    var q := x / d;
    var r := x % d;
    assert x == q * d + r && k * d == q * d + (k - q) * d;
    if k > q {
      TimesPositive(k - q, d);
    }
  }

  lemma NoBucket(nbytes: nat, pagesz: nat)
    requires nbytes > Capacity(28, pagesz)
    ensures forall b :: 0 <= b <= 28 ==> !Least(b, nbytes, pagesz)
    ensures forall nextf, top, grant :: !CanGet(nbytes, nextf, top, grant, pagesz)
  {
    forall b | 0 <= b < 28
      ensures Capacity(b, pagesz) < nbytes
    {
      CapacityMonotone(b, 28, pagesz);
    }
  }

  lemma LeastAlone(b: nat, nbytes: nat, pagesz: nat)
    requires Least(b, nbytes, pagesz)
    ensures forall c :: Least(c, nbytes, pagesz) ==> c == b
  {
    hide Least;
    forall c: nat | Least(c, nbytes, pagesz)
      ensures c == b
    {
      LeastUnique(b, c, nbytes, pagesz);
    }
  }

  lemma HeapKeys(im: Image, bk: Book, a: nat, pagesz: nat)
    requires Good(im, bk, pagesz)
    ensures a in Live(im, bk, pagesz) <==> InUse(bk, a)
    ensures InUse(bk, a) ==> a + Span(bk.at[a], pagesz) <= |im.mem| && a > 0
    ensures InUse(bk, a) ==> Live(im, bk, pagesz)[a] == Data(im.mem, bk.at, a, pagesz)
  {
    hide Size, Span, Linked, Listed, Counted, Marked;
  }

  lemma ShownBucket(im: Image, bk: Book, a: nat, pagesz: nat)
    requires Good(im, bk, pagesz) && InUse(bk, a)
    ensures a + HEADER <= |im.mem| && im.mem[a + 1] == bk.at[a] < NBUCKETS && Size(bk.at[a]) < TWO31
    ensures |im.nextf| == |im.nmalloc| == NBUCKETS
  {
    hide Size, Span, Linked, Listed, Counted;
  }

  /** The blocks from start to op, each linked to the next. */
  ghost predicate Threaded(m: Memory, l: seq<nat>, start: nat, op: nat, sz: nat) {
    && l != [] && l[0] == start && l[|l| - 1] == op && op % 4 == 0 && sz >= 8
    && Fresh(l, start, op + sz, sz)
    && op + sz <= |m|
    && (forall i :: 0 <= i < |l| - 1 ==> l[i] + HEADER <= |m| && WordAt(m, l[i]) == After(l, i))
  }

  lemma ThreadStart(m: Memory, start: nat, sz: nat)
    requires start % 4 == 0 && sz >= 8 && start + sz <= |m|
    ensures Threaded(m, [start], start, start, sz)
  {
  }

  lemma ThreadStep(m: Memory, l: seq<nat>, start: nat, op: nat, sz: nat)
    requires Threaded(m, l, start, op, sz) && op + 2 * sz <= |m| <= TWO32 && sz % 4 == 0
    ensures Threaded(PutWord(m, op, op + sz), l + [op + sz], start, op + sz, sz)
  {
    hide WordAt, PutWord, Fresh;
    var m', l' := PutWord(m, op, op + sz), l + [op + sz];
    FreshStep(l, start, op, sz);
    forall i | 0 <= i < |l|
      ensures l'[i] + HEADER <= |m'| && WordAt(m', l'[i]) == After(l', i)
    {
      assert l'[i] == l[i];
      if i < |l| - 1 {
        FreshOrder(l, start, op, sz, i);
        SameWord(m, m', l[i]);
      }
    }
  }

  lemma FreshOrder(l: seq<nat>, start: nat, op: nat, sz: nat, i: nat)
    requires i < |l| - 1 && l[|l| - 1] == op && Fresh(l, start, op + sz, sz)
    ensures l[i] + sz <= op
  {
  }

  /** From the page size on there is one block, and it has the extra page. */
  lemma FreshSpan(l: seq<nat>, low: nat, top: nat, b: nat, pagesz: nat)
    requires Fresh(l, low, top, Size(b)) && l != [] && l[0] == low
    requires Size(b) >= pagesz ==> |l| == 1 && top == low + Size(b) + pagesz
    ensures Fresh(l, low, top, Span(b, pagesz))
  {
    hide Size;
  }

  lemma FreshStep(l: seq<nat>, start: nat, op: nat, sz: nat)
    requires l != [] && l[|l| - 1] == op && op % 4 == 0 && sz % 4 == 0 && Fresh(l, start, op + sz, sz)
    ensures Fresh(l + [op + sz], start, op + 2 * sz, sz)
  {
    var l' := l + [op + sz];
    forall i, j | 0 <= i < j < |l'|
      ensures l'[i] + sz <= l'[j]
    {
      if j == |l| && i < |l| - 1 {
        FreshOrder(l, start, op, sz, i);
      }
    }
    assert op in l;
  }

  lemma ThreadEnd(m: Memory, l: seq<nat>, start: nat, op: nat, sz: nat)
    requires Threaded(m, l, start, op, sz) && forall i :: op <= i < |m| ==> m[i] == 0
    ensures Fresh(l, start, |m|, sz) && Linked(m, start, l) && l[0] == start
  {
    hide WordAt;
    ZeroWord(m, op);
    forall i | 0 <= i < |l|
      ensures l[i] + HEADER <= |m| && WordAt(m, l[i]) == After(l, i)
    {
    }
  }

  lemma OneFewer(n: nat, sz: nat)
    requires n >= 1
    ensures n * sz == sz + (n - 1) * sz && (n >= 2 ==> (n - 1) * sz >= sz)
  {
  }

  lemma ZeroWord(m: Memory, a: nat)
    requires a + HEADER <= |m| && forall i :: a <= i < a + HEADER ==> m[i] == 0
    ensures WordAt(m, a) == 0
  {
  }

  /** One step of the bucket search, against the page size and the 32 bits. */
  lemma Doubling(b: nat, pb: nat)
    ensures Size(0) == 8 && Size(b + 1) == 2 * Size(b)
    ensures b < pb ==> 2 * Size(b) <= Size(pb)
    ensures b > pb ==> Size(b) >= 2 * Size(pb)
    ensures b < 28 ==> 2 * Size(b) <= TWO31
    ensures b == 28 ==> Size(b) == TWO31
  {
    Size28();
    if b < pb {
      SizeMonotone(b, pb);
    } else if b > pb {
      SizeMonotone(pb, b);
    }
    if b < 28 {
      SizeMonotone(b, 28);
    }
  }

  lemma Size28()
    ensures Size(28) == TWO31
  {
    assert Size(7) == 1024;
    assert Size(14) == 131072;
    assert Size(21) == 16777216;
    assert Size(28) == TWO31;
  }

  /** A size that fits 32 bits is that of a bucket up to 28. */
  lemma SizeBound(b: nat)
    ensures b <= 28 <==> Size(b) <= TWO31
    ensures b < 28 <==> Size(b) < TWO31
  {
    Size28();
    if b < 28 {
      SizeMonotone(b, 28);
    } else if b > 28 {
      SizeMonotone(28, b);
    }
  }
}
