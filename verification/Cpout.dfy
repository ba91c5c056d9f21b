/**
 The volume packer cpout (proto/cpout.c): files from a list go to a sequence of volumes; a file that
 does not fit the current volume waits in a queue for a later one.
 */
module Cpout {
  import opened Options

  const HEADERLEN := 77
  const CRITSIZE := 512
  const TRAILERLEN := 87

  /** A file, with the room it takes: header, name and contents. */
  datatype File = File(name: string, size: nat, isdir: bool)

  /** The name on a line without its newline: every leading ./ goes, also a last one that
      leaves nothing. */
  function Strip(line: string): (name: string)
    ensures |name| < 2 || name[0] != '.' || name[1] != '/'
    ensures |name| <= |line| && name == line[|line| - |name|..]
    ensures forall i :: 0 <= i < |line| - |name| ==> line[i] == if i % 2 == 0 then '.' else '/'
  {
    if |line| >= 2 && line[0] == '.' && line[1] == '/' then
      var name := Strip(line[2..]);
      assert forall i :: 2 <= i < |line| - |name| ==> line[i] == line[2..][i - 2];
      name
    else line
  }

  /** A line of the input, and what stat says of the name on it. */
  datatype Entry = Entry(line: string, bytes: nat, isdir: bool)

  /** nextfile: a directory has no contents. */
  function FileOf(e: Entry): File {
    var name := Strip(e.line);
    File(name, (if e.isdir then 0 else e.bytes) + HEADERLEN + |name|, e.isdir)
  }

  function Files(es: seq<Entry>): (fs: seq<File>)
    ensures |fs| == |es| && forall i :: 0 <= i < |es| ==> fs[i] == FileOf(es[i])
  {
    seq(|es|, i requires 0 <= i < |es| => FileOf(es[i]))
  }

  /** The room on a new volume. */
  function Fresh(target: int): int { target - TRAILERLEN }

  // ---------------------------------------------------------------- the packing as a machine

  /** cur is the file read last; at the end of the input it stays the last one. */
  datatype State = State(vols: seq<seq<File>>, remains: int, queue: seq<File>, big: seq<File>,
                         cur: Option<File>, rest: seq<File>, eof: bool)

  function NewVolume(s: State, target: int): State {
    s.(vols := s.vols + [[]], remains := Fresh(target))
  }

  /** One more file on the current volume. */
  function Place(s: State, f: File): State
    requires s.vols != []
  {
    var n := |s.vols| - 1;
    s.(vols := s.vols[n := s.vols[n] + [f]], remains := s.remains - f.size)
  }

  function NextFile(s: State): State {
    if s.rest == [] then s.(eof := true) else s.(cur := Some(s.rest[0]), rest := s.rest[1..])
  }

  /** The files not yet dealt with. */
  function Pending(s: State): seq<File> {
    if s.eof || s.cur.None? then [] else [s.cur.value] + s.rest
  }

  function Start(files: seq<File>, target: int): State {
    NextFile(State([[]], Fresh(target), [], [], None, files, false))
  }

  predicate Shaped(s: State) { s.vols != [] && (s.cur.None? ==> s.eof && s.queue == []) }

  /** One turn of the loop, None for its end. */
  function Step(s0: State, target: int): (r: Option<State>)
    requires Shaped(s0)
    ensures r.Some? ==> Shaped(r.value)
  {
    if s0.eof && s0.queue == [] then None
    else
      Some(Assigned(if s0.eof && s0.queue[0].size > s0.remains then NewVolume(s0, target) else s0, target))
  }

  function Assigned(s: State, target: int): (t: State)
    requires Shaped(s) && s.cur.Some?
    ensures Shaped(t)
  {
    var f := s.cur.value;
    if s.queue != [] && s.queue[0].size <= s.remains then Place(s.(queue := s.queue[1..]), s.queue[0])
    else if f.size <= s.remains then NextFile(Place(s, f))
    else if f.isdir || s.remains < CRITSIZE then NewVolume(s, target)
    else if f.size > target then NextFile(s.(big := s.big + [f]))
    else NextFile(s.(queue := s.queue + [f]))
  }

  /** The state after n turns, None if the loop has ended before. */
  function Run(s: State, target: int, n: nat): Option<State>
    requires Shaped(s)
    decreases n
  {
    if n == 0 then Some(s)
    else
      match Step(s, target)
      case None => None
      case Some(t) => Run(t, target, n - 1)
  }

  // ---------------------------------------------------------------- when the loop ends

  /** A file that the packer never gets rid of: it does not fit a new volume, and it is a
      directory, or not larger than the medium itself, or a new volume counts as full at once. */
  predicate Stuck(f: File, target: int) {
    f.size > Fresh(target) && (f.isdir || f.size <= target || Fresh(target) < CRITSIZE)
  }

  /** f waits: in the input or in the queue. */
  predicate Waits(s: State, f: File) { f in Pending(s) || f in s.queue }

  lemma StuckWaits(s: State, target: int, f: File)
    requires Shaped(s) && s.remains <= Fresh(target) && Stuck(f, target) && Waits(s, f)
    ensures Step(s, target).Some?
    ensures var t := Step(s, target).value; t.remains <= Fresh(target) && Waits(t, f)
  {
    var s1 := if s.eof && s.queue[0].size > s.remains then NewVolume(s, target) else s;
    assert Pending(s1) == Pending(s) && s1.queue == s.queue;
    if s1.queue != [] && s1.queue[0].size <= s1.remains {
      assert forall g <- s1.queue :: g == s1.queue[0] || g in s1.queue[1..];
    } else {
      assert !s1.eof ==> Pending(s1) == [s1.cur.value] + s1.rest && (s1.rest != [] ==> s1.rest == [s1.rest[0]] + s1.rest[1..]);
    }
  }

  lemma {:induction false} StuckForever(s: State, target: int, f: File, n: nat)
    requires Shaped(s) && s.remains <= Fresh(target) && Stuck(f, target) && Waits(s, f)
    ensures Run(s, target, n).Some?
    decreases n
  {
    if n > 0 {
      StuckWaits(s, target, f);
      StuckForever(Step(s, target).value, target, f, n - 1);
    }
  }

  // ---------------------------------------------------------------- what the packing keeps

  function Flat(vols: seq<seq<File>>): seq<File> {
    if vols == [] then [] else Flat(vols[..|vols| - 1]) + vols[|vols| - 1]
  }

  function Total(fs: seq<File>): nat {
    if fs == [] then 0 else Total(fs[..|fs| - 1]) + fs[|fs| - 1].size
  }

  /** Nothing is lost or doubled, volumes are within bounds, only oversized files are refused,
      and everything that waits would fit a new volume. */
  ghost predicate Kept(s: State, target: int, files: seq<File>) {
    && Shaped(s) && Fresh(target) >= s.remains >= 0
    && multiset(Flat(s.vols)) + multiset(s.queue) + multiset(s.big) + multiset(Pending(s)) == multiset(files)
    && (forall i :: 0 <= i < |s.vols| ==> Total(s.vols[i]) <= Fresh(target))
    && Total(s.vols[|s.vols| - 1]) + s.remains == Fresh(target)
    && (forall f <- s.queue :: f.size <= Fresh(target))
    && (forall f <- s.big :: f.size > target && !f.isdir)
    && (forall f <- Pending(s) :: !Stuck(f, target))
  }

  /** How much is left to do; a turn that only takes a new volume leaves the room of a new one. */
  function Work(s: State): nat { 2 * |Pending(s)| + |s.queue| }

  function Used(s: State, target: int): nat { if s.remains < Fresh(target) then 1 else 0 }

  lemma VolumeKept(s: State, target: int, files: seq<File>)
    requires Kept(s, target, files)
    ensures Kept(NewVolume(s, target), target, files) && Pending(NewVolume(s, target)) == Pending(s)
  {
    var t := NewVolume(s, target);
    assert t.vols[..|t.vols| - 1] == s.vols;
    assert Flat(t.vols) == Flat(s.vols);
  }

  /** A file goes from what waits to the current volume. */
  lemma PlaceKept(vols: seq<seq<File>>, f: File)
    requires vols != []
    ensures var n := |vols| - 1;
            var w := vols[n := vols[n] + [f]];
            && multiset(Flat(w)) == multiset(Flat(vols)) + multiset{f}
            && Total(w[n]) == Total(vols[n]) + f.size
            && (forall i :: 0 <= i < n ==> w[i] == vols[i])
  {
    var n := |vols| - 1;
    var w := vols[n := vols[n] + [f]];
    assert w[..n] == vols[..n];
    assert Flat(w) == Flat(vols[..n]) + (vols[n] + [f]);
    assert (vols[n] + [f])[..|vols[n]|] == vols[n];
  }

  /** Reading on takes the current file away from what waits. */
  lemma NextPending(s: State)
    requires Shaped(s) && !s.eof
    ensures var t := NextFile(s);
            && multiset(Pending(s)) == multiset{s.cur.value} + multiset(Pending(t))
            && |Pending(t)| == |Pending(s)| - 1
            && (forall f <- Pending(t) :: f in Pending(s))
            && s.cur.value in Pending(s)
  {
    var t := NextFile(s);
    assert Pending(s) == [s.cur.value] + s.rest;
    if s.rest != [] {
      assert s.rest == [s.rest[0]] + s.rest[1..];
      assert Pending(t) == s.rest;
    } else {
      assert Pending(t) == [];
    }
  }

  lemma DequeueKept(s: State, target: int, files: seq<File>)
    requires Kept(s, target, files) && s.queue != [] && s.queue[0].size <= s.remains
    ensures var t := Place(s.(queue := s.queue[1..]), s.queue[0]);
            Kept(t, target, files) && Pending(t) == Pending(s)
  {
    hide Flat, Total, Stuck, Pending;
    PlaceKept(s.vols, s.queue[0]);
    SamePending(s, Place(s.(queue := s.queue[1..]), s.queue[0]));
    HeadAndTail(s.queue);
  }

  lemma HeadAndTail(q: seq<File>)
    requires q != []
    ensures multiset(q) == multiset{q[0]} + multiset(q[1..])
    ensures forall f <- q[1..] :: f in q
  {
    assert q == [q[0]] + q[1..];
  }

  lemma InlineKept(s: State, target: int, files: seq<File>)
    requires Kept(s, target, files) && !s.eof && s.cur.value.size <= s.remains
    ensures Kept(NextFile(Place(s, s.cur.value)), target, files)
  {
    hide Flat, Total, Stuck, Pending;
    var p := Place(s, s.cur.value);
    PlaceKept(s.vols, s.cur.value);
    SamePending(s, p);
    NextPending(p);
  }

  lemma SamePending(s: State, t: State)
    requires s.cur == t.cur && s.rest == t.rest && s.eof == t.eof
    ensures Pending(s) == Pending(t)
  {
  }

  lemma RefuseKept(s: State, target: int, files: seq<File>)
    requires Kept(s, target, files) && !s.eof && s.cur.value.size > target && !s.cur.value.isdir
    ensures Kept(NextFile(s.(big := s.big + [s.cur.value])), target, files)
  {
    hide Flat, Total, Stuck, Pending;
    var p := s.(big := s.big + [s.cur.value]);
    SamePending(s, p);
    NextPending(p);
  }

  lemma EnqueueKept(s: State, target: int, files: seq<File>)
    requires Kept(s, target, files) && !s.eof && s.cur.value.size <= Fresh(target)
    ensures Kept(NextFile(s.(queue := s.queue + [s.cur.value])), target, files)
  {
    hide Flat, Total, Stuck, Pending;
    var p := s.(queue := s.queue + [s.cur.value]);
    SamePending(s, p);
    NextPending(p);
  }

  /** Every turn keeps the books, and does some of the work or takes a volume that is needed. */
  lemma StepKeeps(s: State, target: int, files: seq<File>)
    requires Kept(s, target, files) && Step(s, target).Some?
    ensures var t := Step(s, target).value;
            && Kept(t, target, files)
            && (Work(t) < Work(s) || (Work(t) == Work(s) && Used(t, target) < Used(s, target)))
  {
    hide Flat, Total, Kept;
    KeptParts(s, target, files);
    var s1 := s;
    if s.eof && s.queue[0].size > s.remains {
      VolumeKept(s, target, files);
      s1 := NewVolume(s, target);
    }
    KeptParts(s1, target, files);
    var f := s1.cur.value;
    if s1.queue != [] && s1.queue[0].size <= s1.remains {
      DequeueKept(s1, target, files);
    } else {
      NextPending(s1);
      if f.size <= s1.remains {
        InlineKept(s1, target, files);
        SamePending(s1, Place(s1, f));
        NextPending(Place(s1, f));
      } else if f.isdir || s1.remains < CRITSIZE {
        VolumeKept(s1, target, files);
      } else if f.size > target {
        RefuseKept(s1, target, files);
      } else {
        EnqueueKept(s1, target, files);
      }
    }
  }

  lemma KeptParts(s: State, target: int, files: seq<File>)
    requires Kept(s, target, files)
    ensures Shaped(s) && 0 <= s.remains <= Fresh(target)
    ensures forall f <- s.queue :: f.size <= Fresh(target)
    ensures !s.eof ==> !Stuck(s.cur.value, target)
  {
    if !s.eof {
      assert s.cur.value in Pending(s);
    }
  }

  /** What the packing comes to: every file that is not oversized is on exactly one volume, the
      oversized ones are refused, and no volume is overfull. */
  ghost predicate Packed(vols: seq<seq<File>>, big: seq<File>, target: int, files: seq<File>) {
    && multiset(Flat(vols)) + multiset(big) == multiset(files)
    && (forall f <- big :: f.size > target && !f.isdir)
    && (forall f <- Flat(vols) :: f.size <= Fresh(target))
    && (forall i :: 0 <= i < |vols| ==> Total(vols[i]) <= Fresh(target))
  }

  lemma {:induction false} FitsOne(vols: seq<seq<File>>, cap: int)
    requires forall i :: 0 <= i < |vols| ==> Total(vols[i]) <= cap
    ensures forall f <- Flat(vols) :: f.size <= cap
  {
    if vols != [] {
      FitsOne(vols[..|vols| - 1], cap);
      TotalBounds(vols[|vols| - 1]);
    }
  }

  lemma {:induction false} TotalBounds(fs: seq<File>)
    ensures forall f <- fs :: f.size <= Total(fs)
  {
    if fs != [] {
      var n := |fs| - 1;
      TotalBounds(fs[..n]);
      assert fs == fs[..n] + [fs[n]];
    }
  }

  lemma EndPacked(s: State, target: int, files: seq<File>)
    requires Kept(s, target, files) && Step(s, target).None?
    ensures Packed(s.vols, s.big, target, files)
  {
    FitsOne(s.vols, Fresh(target));
    assert multiset(Pending(s)) == multiset{};
    assert multiset(s.queue) == multiset{};
  }

  lemma StartKept(files: seq<File>, target: int)
    requires Fresh(target) >= 0 && forall f <- files :: !Stuck(f, target)
    ensures Kept(Start(files, target), target, files)
  {
    var s := Start(files, target);
    var first: seq<seq<File>> := [[]];
    assert first[..0] == [] && Flat(first[..0]) == [] && Flat(first) == [];
    assert Pending(s) == files by {
      if files != [] {
        assert files == [files[0]] + files[1..];
      }
    }
  }

  // ---------------------------------------------------------------- the program

  class QItem {
    var qnext: QItem?
    const file: File

    constructor (f: File)
      ensures qnext == null && file == f
    {
      file, qnext := f, null;
    }
  }

  ghost function Item(nodes: seq<QItem>, k: nat): QItem? {
    if k < |nodes| then nodes[k] else null
  }

  ghost function FilesOf(nodes: seq<QItem>): (q: seq<File>)
    ensures |q| == |nodes| && forall i :: 0 <= i < |q| ==> q[i] == nodes[i].file
  {
    seq(|nodes|, i requires 0 <= i < |nodes| => nodes[i].file)
  }

  /** Items linked from a head, each behind the one before it, no one twice. */
  ghost predicate Chain(head: QItem?, nodes: seq<QItem>)
    reads nodes
  {
    && head == Item(nodes, 0)
    && (forall i :: 0 <= i < |nodes| ==> nodes[i].qnext == Item(nodes, i + 1))
    && (forall i, j :: 0 <= i < j < |nodes| ==> nodes[i] != nodes[j])
  }

  ghost function Last(nodes: seq<QItem>): QItem? {
    if nodes == [] then null else nodes[|nodes| - 1]
  }

  /** Without its head a chain is a chain. */
  lemma ChainRest(head: QItem?, nodes: seq<QItem>)
    requires Chain(head, nodes) && nodes != []
    ensures head != null && Chain(head.qnext, nodes[1..])
    ensures FilesOf(nodes[1..]) == FilesOf(nodes)[1..] && head.file == FilesOf(nodes)[0]
    ensures forall n <- nodes[1..] :: n in nodes
    ensures Last(nodes) != head ==> Last(nodes[1..]) == Last(nodes)
  {
    assert forall k :: 0 <= k < |nodes| - 1 ==> nodes[1..][k] == nodes[k + 1];
  }

  class Packer {
    const target: int
    var qhead: QItem?
    var qtail: QItem?
    var remains: int
    var fcount: nat
    var vols: seq<seq<File>>
    var big: seq<File>
    var cur: Option<File>
    var rest: seq<File>
    var eof: bool
    ghost var nodes: seq<QItem>

    /** The queue from its head to its tail. */
    ghost predicate Linked()
      reads this`qhead, this`qtail, this`nodes, nodes
    {
      Chain(qhead, nodes) && qtail == Last(nodes)
    }

    /** The last item, from the head. */
    method FindTail() returns (t: QItem?)
      requires Chain(qhead, nodes)
      ensures t == Last(nodes)
    {
      t := qhead;
      ghost var k := 0;
      while t != null && t.qnext != null
        invariant t == Item(nodes, k) && k <= |nodes| && (nodes != [] ==> k < |nodes|)
        decreases |nodes| - k
      {
        t := t.qnext;
        k := k + 1;
      }
    }

    ghost function Queue(): (q: seq<File>)
      reads this`nodes
    {
      FilesOf(nodes)
    }

    /** The head as the first file of the queue. */
    lemma HeadIs()
      requires Valid()
      ensures qhead != null <==> Queue() != []
      ensures qhead != null ==> nodes != [] && qhead.file == Queue()[0]
    {
    }

    ghost function Now(): State
      reads this
    {
      State(vols, remains, Queue(), big, cur, rest, eof)
    }

    ghost predicate Valid()
      reads this, nodes
    {
      Linked() && Shaped(Now()) && fcount == |vols| + 1
    }

    /** The first volume and the first file. */
    constructor (files: seq<File>, target0: int)
      ensures Valid() && target == target0 && Now() == Start(files, target0) && fresh(nodes)
    {
      target, qhead, qtail, nodes := target0, null, null, [];
      remains, fcount, vols, big := Fresh(target0), 2, [[]], [];
      if files == [] {
        cur, rest, eof := None, [], true;
      } else {
        cur, rest, eof := Some(files[0]), files[1..], false;
      }
    }

    /** nextfloppy */
    method NextFloppy()
      requires Valid()
      modifies this`vols, this`remains, this`fcount
      ensures Valid() && Now() == NewVolume(old(Now()), target)
    {
      vols := vols + [[]];
      fcount := fcount + 1;
      remains := Fresh(target);
    }

    method ReadNext()
      requires Valid()
      modifies this`cur, this`rest, this`eof
      ensures Valid() && Now() == NextFile(old(Now()))
    {
      if rest == [] {
        eof := true;
      } else {
        cur, rest := Some(rest[0]), rest[1..];
      }
    }

    method PutFile(f: File)
      requires Valid()
      modifies this`vols, this`remains
      ensures Valid() && Now() == Place(old(Now()), f)
    {
      vols := vols[|vols| - 1 := vols[|vols| - 1] + [f]];
      remains := remains - f.size;
    }

    /** The new item goes behind the tail. */
    method Enqueue(f: File)
      requires Valid() && cur.Some?
      modifies this`qhead, this`qtail, this`nodes, nodes
      ensures Valid() && Now() == old(Now()).(queue := old(Queue()) + [f])
      ensures forall k :: 0 <= k < |nodes| ==> nodes[k] in old(nodes) || fresh(nodes[k])
    {
      var i := new QItem(f);
      if qhead != null {
        qtail.qnext := i;
        qtail := i;
      } else {
        qtail, qhead := i, i;
      }
      nodes := nodes + [i];
      assert Queue() == old(Queue()) + [f];
    }

    /** The head leaves; if it was also the tail, the tail is looked for from the new head. */
    method Dequeue() returns (f: File)
      requires Valid() && nodes != []
      modifies this`qhead, this`qtail, this`nodes
      ensures Valid() && f == old(Queue())[0] && Now() == old(Now()).(queue := old(Queue())[1..])
      ensures forall k :: 0 <= k < |nodes| ==> nodes[k] in old(nodes)
    {
      hide Chain, Last, FilesOf;
      ChainRest(qhead, nodes);
      var i: QItem := qhead;
      f := i.file;
      qhead := i.qnext;
      nodes := nodes[1..];
      if qtail == i {
        qtail := FindTail();
      }
    }

    /** One turn of the loop; false at its end. */
    method Turn() returns (more: bool)
      requires Valid()
      modifies this, nodes
      ensures Valid()
      ensures forall k :: 0 <= k < |nodes| ==> nodes[k] in old(nodes) || fresh(nodes[k])
      ensures match Step(old(Now()), target)
              case Some(t) => more && Now() == t
              case None => !more && Now() == old(Now())
    {
      hide NewVolume, Place, NextFile, Linked, FilesOf;
      HeadIs();
      if eof {
        if qhead != null {
          if qhead.file.size > remains {
            NextFloppy();
          }
        } else {
          return false;
        }
      }
      more := true;
      Assign();
    }

    /** The current room goes to the head of the queue, to the current file, or to no one. */
    method Assign()
      requires Valid() && cur.Some?
      modifies this, nodes
      ensures Valid()
      ensures forall k :: 0 <= k < |nodes| ==> nodes[k] in old(nodes) || fresh(nodes[k])
      ensures Now() == Assigned(old(Now()), target)
    {
      hide NewVolume, Place, NextFile, Linked, FilesOf;
      HeadIs();
      if qhead != null && qhead.file.size <= remains {
        var f := Dequeue();
        PutFile(f);
      } else if cur.value.size <= remains {
        PutFile(cur.value);
        ReadNext();
      } else if cur.value.isdir || remains < CRITSIZE {
        NextFloppy();
      } else if cur.value.size > target {
        big := big + [cur.value];
        ReadNext();
      } else {
        Enqueue(cur.value);
        ReadNext();
      }
    }
  }

  lemma RunStep(s: State, target: int, n: nat, t: State)
    requires Shaped(s) && Run(s, target, n) == Some(t) && Shaped(t)
    ensures Run(s, target, n + 1) == Step(t, target)
    decreases n
  {
    if n > 0 {
      RunStep(Step(s, target).value, target, n - 1, t);
    } else if Step(s, target).Some? {
      assert Run(Step(s, target).value, target, 0) == Step(s, target);
    }
  }

  /** cpout with volumes of the given number of blocks: it ends unless some file is stuck. */
  method Pack(input: seq<Entry>, blocks: nat) returns (vols: seq<seq<File>>, big: seq<File>, count: nat, ghost turns: nat)
    requires blocks > 0 && forall f <- Files(input) :: !Stuck(f, 512 * blocks)
    ensures Packed(vols, big, 512 * blocks, Files(input)) && count == |vols|
    ensures Ended(Start(Files(input), 512 * blocks), 512 * blocks, turns, vols, big)
  {
    hide Packed, Ended, Stuck;
    vols, big, count, turns := PackFiles(Files(input), 512 * blocks);
  }

  /** After that many turns the loop ends, with these volumes and refusals. */
  ghost predicate Ended(start: State, target: int, turns: nat, vols: seq<seq<File>>, big: seq<File>)
    requires Shaped(start)
  {
    match Run(start, target, turns)
    case Some(s) => vols == s.vols && big == s.big && Shaped(s) && Step(s, target).None?
    case None => false
  }

  method PackFiles(files: seq<File>, target: int) returns (vols: seq<seq<File>>, big: seq<File>, count: nat, ghost turns: nat)
    requires Fresh(target) >= 0 && forall f <- files :: !Stuck(f, target)
    ensures Packed(vols, big, target, files) && count == |vols|
    ensures Ended(Start(files, target), target, turns, vols, big)
  {
    hide Kept, Step, Run, Packed, Shaped;
    var p := new Packer(files, target);
    ghost var start := Start(files, target);
    StartKept(files, target);
    RunNone(start, target);
    turns := 0;
    var more := true;
    while more
      invariant p.Valid() && p.target == target && fresh(p) && fresh(p.nodes)
      invariant Kept(p.Now(), target, files) && Run(start, target, turns) == Some(p.Now())
      invariant !more ==> Step(p.Now(), target).None?
      decreases Work(p.Now()), Used(p.Now(), target), if more then 1 else 0
    {
      ghost var s := p.Now();
      more := p.Turn();
      RunStep(start, target, turns, s);
      if more {
        StepKeeps(s, target, files);
        turns := turns + 1;
      }
    }
    EndPacked(p.Now(), target, files);
    vols, big, count := p.vols, p.big, p.fcount - 1;
  }

  lemma RunNone(s: State, target: int)
    requires Shaped(s)
    ensures Run(s, target, 0) == Some(s)
  {
  }

  /** And with a stuck file it never ends. */
  lemma NeverEnds(input: seq<Entry>, blocks: nat, f: File, n: nat)
    requires blocks > 0 && f in Files(input) && Stuck(f, 512 * blocks)
    ensures Run(Start(Files(input), 512 * blocks), 512 * blocks, n).Some?
  {
    var files := Files(input);
    var s := Start(files, 512 * blocks);
    assert files == [files[0]] + files[1..];
    assert Pending(s) == files;
    StuckForever(s, 512 * blocks, f, n);
  }

  lemma PlainName(name: string, bytes: nat)
    requires |name| < 2
    ensures FileOf(Entry(name, bytes, false)) == File(name, bytes + HEADERLEN + |name|, false)
  {
  }

  /** A file of 1228700 bytes on the default medium of 2400 blocks fits it, but not with its
      header beside the trailer. */
  lemma StuckExample(n: nat)
    ensures var e := Entry("a", 1228700, false);
            && FileOf(e).size == 1228778 && Fresh(512 * 2400) == 1228713
            && Stuck(FileOf(e), 512 * 2400) && Run(Start(Files([e]), 512 * 2400), 512 * 2400, n).Some?
  {
    hide Run, Start, Shaped, FileOf, Strip;
    var e := Entry("a", 1228700, false);
    PlainName("a", 1228700);
    assert Stuck(FileOf(e), 512 * 2400);
    assert FileOf(e) == Files([e])[0];
    NeverEnds([e], 2400, FileOf(e), n);
  }
}
