/** The directory stack together with the job table that refers to it (bin/csh/sh.dir.c, and the
    sweep of pwait in bin/csh/sh.proc.c). */
module CshShell {
  import opened Options
  import opened CshDirectory
  import opened CshDirRing
  import opened CshJobTable
  import opened CshJobs

  /** An argument of cd, pushd or popd: +n with n > 0, or anything else. */
  datatype Arg = NoArg | Plus(n: nat) | Name(path: string)

  /** How many records refer to d. */
  ghost function Refs(procs: seq<Process>, d: Directory): (n: nat)
    reads procs`cwd
  {
    if procs == [] then 0 else (if procs[0].cwd == d then 1 else 0) + Refs(procs[1..], d)
  }

  lemma {:induction false} NoRefs(procs: seq<Process>, d: Directory)
    ensures Refs(procs, d) == 0 <==> forall p <- procs :: p.cwd != d
  {
    if procs != [] {
      NoRefs(procs[1..], d);
      assert forall p <- procs :: p == procs[0] || p in procs[1..];
    }
  }

  ghost predicate OneEach(procs: seq<Process>) {
    forall i, j :: 0 <= i < j < |procs| ==> procs[i] != procs[j]
  }

  lemma NthLeft(procs: seq<Process>, k: nat, j: nat)
    requires k < |procs|
    ensures Nth(procs[..k] + procs[k + 1..], j) == Nth(procs, if j < k then j else j + 1)
  {
  }

  lemma LeftDistinct(procs: seq<Process>, k: nat)
    requires k < |procs| && OneEach(procs)
    ensures OneEach(procs[..k] + procs[k + 1..])
  {
    var left := procs[..k] + procs[k + 1..];
    forall i, j | 0 <= i < j < |left|
      ensures left[i] != left[j]
    {
      assert left[i] == procs[if i < k then i else i + 1] && left[j] == procs[if j < k then j else j + 1];
    }
  }

  /** What is left of a list without record k. */
  lemma Listing(procs: seq<Process>, k: nat)
    requires k < |procs|
    ensures var r := procs[..k] + procs[k + 1..];
            && |r| == |procs| - 1
            && (forall i :: 0 <= i < k ==> r[i] == procs[i])
            && (forall p <- r :: p in procs)
            && (forall p <- procs :: p == procs[k] || p in r)
  {
    var r := procs[..k] + procs[k + 1..];
    forall p <- procs | p != procs[k]
      ensures p in r
    {
      var i :| 0 <= i < |procs| && procs[i] == p;
      assert p == r[if i < k then i else i - 1];
    }
  }

  lemma {:induction false} RefsConcat(a: seq<Process>, b: seq<Process>, d: Directory)
    ensures Refs(a + b, d) == Refs(a, d) + Refs(b, d)
    decreases |a|
  {
    if a == [] {
      assert a + b == b;
    } else {
      RefsConcat(a[1..], b, d);
      assert (a + b)[1..] == a[1..] + b;
    }
  }

  /** Without record k, its directory has one reference less and all others as many. */
  lemma RefsWithout(procs: seq<Process>, k: nat)
    requires k < |procs|
    ensures forall d: Directory :: Refs(procs, d) == Refs(procs[..k] + procs[k + 1..], d) + (if procs[k].cwd == d then 1 else 0)
  {
    forall d: Directory
      ensures Refs(procs, d) == Refs(procs[..k] + procs[k + 1..], d) + (if procs[k].cwd == d then 1 else 0)
    {
      RefsConcat(procs[..k], procs[k + 1..], d);
      RefsConcat(procs[..k], procs[k..], d);
      assert procs[..k] + procs[k..] == procs && procs[k..][1..] == procs[k + 1..];
    }
  }

  /** What is freed with d. */
  ghost function Unreferenced(d: Directory): set<Directory>
    reads d`count
  {
    if d.count == 0 then {d} else {}
  }

  class Shell {
    const dhead: Directory
    var dcwd: Directory
    const jobs: JobTable
    ghost var ring: seq<Directory>
    ghost var at: nat
    ghost var dirs: set<Directory>
    ghost var freed: set<Directory>

    ghost function LinksOf(): Links
      reads this`dirs, dirs`next, dirs`prev
    {
      map d | d in dirs :: Link(d.next, d.prev)
    }

    ghost predicate Shape(x: Directory?)
      reads this`ring, this`dirs, dirs`next, dirs`prev
    {
      ShapeIs(ring, LinksOf(), dhead, x)
    }

    /** The current directory is on the ring. */
    ghost predicate Current()
      reads this
    {
      0 < at < |ring| && ring[at] == dcwd
    }

    /** Every count is that of the records that refer to the directory, and nothing that is
        freed is reachable. */
    ghost predicate Tallied(procs: seq<Process>)
      reads this`dirs, this`freed, dirs`count, procs`cwd
    {
      && (forall d <- dirs :: d != dhead ==> d.count == SHORT * Refs(procs, d))
      && (forall p <- procs :: p.cwd != null ==> p.cwd in dirs && p.cwd != dhead)
      && freed !! dirs
    }

    /** The same but for one reference to x, which is counted and not yet there. */
    ghost predicate Owed(procs: seq<Process>, x: Directory?)
      reads this`dirs, this`freed, dirs`count, procs`cwd
    {
      && (forall d <- dirs :: d != dhead ==> d.count == SHORT * Refs(procs, d) + (if x == d then SHORT else 0))
      && (forall p <- procs :: p.cwd != null ==> p.cwd in dirs && p.cwd != dhead)
      && freed !! dirs
    }

    /** A directory, except x, is kept off the ring only while a record refers to it. */
    ghost predicate Kept(x: Directory?)
      reads this`ring, this`dirs, dirs`count
    {
      forall d <- dirs :: d !in ring && d != x ==> d.count > 0
    }

    ghost predicate Counts(x: Directory?)
      reads this`ring, this`dirs, this`freed, dirs`count, jobs`procs, jobs.procs`cwd
    {
      Tallied(jobs.procs) && Kept(x)
    }

    ghost predicate Valid()
      reads this, dirs, jobs, jobs.procs
    {
      jobs.Valid() && Standing()
    }

    /** What the directories need. */
    ghost predicate Standing()
      reads this, dirs, jobs`procs, jobs.procs`cwd
    {
      Shape(null) && Current() && Counts(null)
    }

    /** The directory stack. */
    ghost function Dirs(): seq<Directory>
      requires 0 < at < |ring|
      reads this`ring, this`at
    {
      Stack(ring, at)
    }

    /** dinit */
    constructor (name: string)
      ensures Valid() && fresh(jobs) && jobs.procs == [] && |Dirs()| == 1 && dcwd.name == name && freed == {}
    {
      hide JobTable.Valid, Shape, Counts, LinksOf, Stack;
      var head := new Directory("");
      var dp := new Directory(name);
      head.next, head.prev := dp, dp;
      dp.next, dp.prev := head, head;
      dhead, dcwd := head, dp;
      jobs := new JobTable();
      ring, at, dirs, freed := [head, dp], 1, {head, dp}, {};
      new;
      InitOk(head, dp);
    }

    lemma InitOk(head: Directory, dp: Directory)
      requires head != dp && head == dhead && head.next == dp && head.prev == dp && dp.next == head && dp.prev == head
      requires ring == [head, dp] && dirs == {head, dp} && freed == {} && jobs.procs == [] && dp.count == 0
      ensures Shape(null) && Counts(null)
    {
      hide Ring;
      TwoRing(head, dp, LinksOf());
      assert Shape(null);
      assert head in ring && dp in ring;
    }

    lemma LinkAt(d: Directory)
      requires d in dirs
      ensures d in LinksOf() && LinksOf()[d] == CshDirRing.Link(d.next, d.prev)
    {
    }

    lemma RingDirs(x: Directory?)
      requires Shape(x)
      ensures LinksOf().Keys == dirs && forall d <- ring :: d in dirs
      ensures Current() ==> dcwd != dhead
    {
      hide Ring;
      var links := LinksOf();
      AllMembers(ring, links);
      forall d <- ring
        ensures d in dirs
      {
        assert d in links;
      }
      if Current() {
        Different(ring, links, at, 0);
      }
    }

    // -------------------------------------------------------------- finding

    /** dfind, for +i: entry i of the stack, or an error when it is not that deep. */
    method Dfind(i0: nat) returns (dp: Directory?)
      requires Shape(null) && Current() && i0 > 0
      ensures if i0 < |Dirs()| then dp == Dirs()[i0] else dp == null
    {
      hide Ring, Stack;
      ghost var links := LinksOf();
      RingDirs(null);
      ghost var n := |ring|;
      ghost var j := 0;
      dp := dcwd;
      var i := i0;
      StackAt(ring, at, 0);
      while i != 0
        invariant dp != null && dp in dirs && i + j == i0 && j < n - 1 && dp == Dirs()[j] && dp == ring[Index(at, n, j)]
        decreases i
      {
        ghost var k := Index(at, n, j);
        NextIs(ring, links, k);
        assert ring[k] in dirs && ring[0] in dirs && ring[After(k, n)] in dirs;
        dp := dp.prev;
        if dp == dhead {
          if After(k, n) != 0 {
            Different(ring, links, After(k, n), 0);
          }
          NextIs(ring, links, 0);
          dp := dp.prev;
        }
        if dp == dcwd {
          if j + 1 < n - 1 {
            Different(ring, links, Index(at, n, j + 1), at);
          }
          return null;
        }
        j := j + 1;
        i := i - 1;
        StackAt(ring, at, j);
      }
    }

    // -------------------------------------------------------------- links

    method SetNext(d: Directory, x: Directory)
      requires d in dirs
      modifies d`next
      ensures LinksOf() == old(LinksOf())[d := old(LinksOf())[d].(next := x)]
    {
      d.next := x;
    }

    method SetPrev(d: Directory, x: Directory)
      requires d in dirs
      modifies d`prev
      ensures LinksOf() == old(LinksOf())[d := old(LinksOf())[d].(prev := x)]
    {
      d.prev := x;
    }

    method SetBoth(d: Directory, next: Directory, prev: Directory)
      requires d in dirs
      modifies d`next, d`prev
      ensures LinksOf() == old(LinksOf())[d := CshDirRing.Link(next, prev)]
    {
      d.next, d.prev := next, prev;
    }

    /** Take dp, member k, out of the ring; its own links stay for now. */
    method Unlink(dp: Directory, ghost k: nat)
      requires Shape(null) && 0 < k < |ring| && ring[k] == dp
      modifies this`ring, dirs`next, dirs`prev
      ensures ring == Without(old(ring), k) && Shape(dp) && dp !in ring && dp in dirs
      ensures old(Counts(null)) ==> Counts(dp)
    {
      hide ShapeIs, Without, LinksOf, Tallied;
      RingDirs(null);
      LinkAt(dp);
      UnlinkShape(ring, LinksOf(), dhead, k);
      InWithout(ring, k);
      var prev: Directory, next: Directory := dp.prev, dp.next;
      SetNext(prev, next);
      SetPrev(next, prev);
      ring := Without(ring, k);
    }

    /** Put the new or unlinked dp between the current directory and its next. */
    method PutIn(dp: Directory)
      requires Shape(dp) && Current() && dp !in ring && dp in dirs
      modifies this`ring, dirs`next, dirs`prev
      ensures ring == With(old(ring), at, dp) && Shape(null)
      ensures old(Counts(dp)) ==> Counts(null)
    {
      hide ShapeIs, With, LinksOf, Tallied;
      RingDirs(dp);
      LinkAt(dcwd);
      InsertShape(ring, LinksOf(), dhead, at, dp);
      InWith(ring, at, dp);
      var next: Directory := dcwd.next;
      SetBoth(dp, next, dcwd);
      SetNext(dcwd, dp);
      SetPrev(next, dp);
      ring := With(ring, at, dp);
    }

    /** dp takes the place of the current directory on the ring. */
    method Supplant(dp: Directory)
      requires Shape(dp) && Current() && dp !in ring && dp in dirs
      modifies this`ring, dirs`next, dirs`prev
      ensures ring == old(ring)[at := dp] && Shape(dcwd) && dcwd !in ring && dcwd in dirs
      ensures old(Counts(dp)) ==> Counts(dcwd)
    {
      hide ShapeIs, LinksOf, Tallied;
      RingDirs(dp);
      LinkAt(dcwd);
      ReplaceShape(ring, LinksOf(), dhead, at, dp);
      InReplaced(ring, at, dp);
      var next: Directory, prev: Directory := dcwd.next, dcwd.prev;
      SetBoth(dp, next, prev);
      SetNext(prev, dp);
      SetPrev(next, dp);
      ring := ring[at := dp];
    }

    /** A directory not yet on the ring, to which no record refers. */
    method NewDir(path: string) returns (dp: Directory)
      requires Shape(null) && Counts(null)
      modifies this`dirs
      ensures fresh(dp) && dp.name == path && dp.count == 0 && dirs == old(dirs) + {dp}
      ensures Shape(dp) && Counts(dp) && dp !in ring
    {
      hide ShapeIs;
      ghost var links := LinksOf();
      dp := new Directory(path);
      dirs := dirs + {dp};
      NewShape(ring, links, LinksOf(), dhead, dp);
      NoRefs(jobs.procs, dp);
    }

    /** dfree: a directory taken out of the ring is kept without links if a record refers to it,
        and freed otherwise. */
    method Dfree(dp: Directory)
      requires Shape(dp) && Counts(dp) && dp in dirs && dp !in ring && dp != dhead
      modifies this`dirs, this`freed, dp`next, dp`prev
      ensures Shape(null) && Counts(null)
      ensures if dp.count != 0 then dirs == old(dirs) && freed == old(freed) else dirs == old(dirs) - {dp} && freed == old(freed) + {dp}
    {
      hide ShapeIs;
      ghost var links := LinksOf();
      if dp.count != 0 {
        dp.next, dp.prev := null, null;
        assert LinksOf() == links[dp := CshDirRing.Link(null, null)];
      } else {
        NoRefs(jobs.procs, dp);
        freed := freed + {dp};
        dirs := dirs - {dp};
        assert LinksOf() == links - {dp};
      }
      SettleShape(ring, links, LinksOf(), dhead, dp);
    }

    // -------------------------------------------------------------- cd

    /** cd: path is where a home or named directory led, ok whether the change succeeded. */
    method Cd(arg: Arg, path: string, ok: bool) returns (done: bool)
      requires Valid() && (arg.Plus? ==> arg.n > 0)
      modifies this, dirs`next, dirs`prev
      ensures Valid()
      ensures done <==> ok && (arg.Plus? ==> arg.n < |old(Dirs())|)
      ensures !done ==> Dirs() == old(Dirs()) && dirs == old(dirs) && freed == old(freed)
      ensures done ==> freed == old(freed) + Unreferenced(old(dcwd))
      ensures done && arg.Plus? ==> Dirs() == old(Dirs())[arg.n..] + old(Dirs())[1..arg.n]
      ensures done && !arg.Plus? ==> fresh(dcwd) && dcwd.name == path && Dirs() == [dcwd] + old(Dirs())[1..]
    {
      hide Stack, JobTable.Valid, Shape, Counts, Without;
      if arg.Plus? {
        var dp := Dfind(arg.n);
        if dp == null || !ok {
          return false;
        }
        CdBack(dp, arg.n);
      } else {
        if !ok {
          return false;
        }
        CdNew(path);
      }
      return true;
    }

    /** cd to a directory by its name */
    method CdNew(path: string)
      requires Standing()
      modifies this, dirs`next, dirs`prev
      ensures Standing() && fresh(dcwd) && dcwd.name == path && Dirs() == [dcwd] + old(Dirs())[1..]
      ensures freed == old(freed) + Unreferenced(old(dcwd))
    {
      hide Stack, Shape, Counts, Without;
      var cwd := dcwd;
      RingDirs(null);
      var dp := NewDir(path);
      StackReplace(ring, at, dp);
      Supplant(dp);
      Dfree(cwd);
      dcwd := dp;
    }

    /** cd +n */
    method CdBack(dp: Directory, ghost n: nat)
      requires Standing() && 0 < n < |Dirs()| && dp == Dirs()[n]
      modifies this, dirs`next, dirs`prev
      ensures Standing() && Dirs() == old(Dirs())[n..] + old(Dirs())[1..n]
      ensures freed == old(freed) + Unreferenced(old(dcwd))
    {
      hide Stack, Shape, Counts, Without;
      ghost var k := Index(at, |ring|, n);
      ghost var at' := if k < at then k else k - 1;
      StackAt(ring, at, n);
      StackPop(ring, at, n);
      WithoutAt(ring, at, k);
      HeadOnly(at);
      var cwd := dcwd;
      Unlink(cwd, at);
      Dfree(cwd);
      at := at';
      dcwd := dp;
    }

    // -------------------------------------------------------------- pushd

    /** The directory below the current one, or the current one if it is alone. */
    method Below() returns (dp: Directory)
      requires Shape(null) && Current()
      ensures dp == if |Dirs()| > 1 then Dirs()[1] else dcwd
      ensures |Dirs()| > 1 ==> dp != dcwd
    {
      hide Ring, Stack, LinksOf;
      ghost var links := LinksOf();
      ghost var n := |ring|;
      RingDirs(null);
      NextIs(ring, links, at);
      NextIs(ring, links, 0);
      assert ring[0] in dirs && ring[at] in dirs;
      LinkAt(dcwd);
      LinkAt(dhead);
      dp := dcwd.prev;
      if After(at, n) != 0 {
        Different(ring, links, After(at, n), 0);
      }
      if dp == dhead {
        dp := dhead.prev;
      }
      if n > 2 {
        StackAt(ring, at, 1);
        Different(ring, links, Index(at, n, 1), at);
      }
    }

    /** pushd without an argument exchanges the top two directories, with +n it rotates the stack,
        and with a name it pushes a directory. */
    method Pushd(arg: Arg, path: string, ok: bool) returns (done: bool)
      requires Valid() && (arg.Plus? ==> arg.n > 0)
      modifies this, dirs`next, dirs`prev
      ensures Valid() && freed == old(freed)
      ensures done <==> ok && (arg.Plus? ==> arg.n < |old(Dirs())|) && (arg.NoArg? ==> |old(Dirs())| > 1)
      ensures !done ==> Dirs() == old(Dirs()) && dirs == old(dirs)
      ensures done && arg.NoArg? ==> Dirs() == [old(Dirs())[1], old(Dirs())[0]] + old(Dirs())[2..]
      ensures done && arg.Plus? ==> Dirs() == old(Dirs())[arg.n..] + old(Dirs())[..arg.n]
      ensures done && arg.Name? ==> fresh(dcwd) && dcwd.name == path && Dirs() == [dcwd] + old(Dirs())
    {
      hide Stack, JobTable.Valid, Shape, Counts, Without, With;
      match arg {
      case NoArg =>
        var dp := Below();
        if dp == dcwd || !ok {
          return false;
        }
        Exchange(dp);
      case Plus(n) =>
        var dp := Dfind(n);
        if dp == null || !ok {
          return false;
        }
        StackAt(ring, at, n);
        StackRotate(ring, at, n);
        at := Index(at, |ring|, n);
        dcwd := dp;
      case Name(_) =>
        if !ok {
          return false;
        }
        PushNew(path);
      }
      return true;
    }

    method PushNew(path: string)
      requires Valid()
      modifies this`ring, this`dirs, this`dcwd, dirs`next, dirs`prev
      ensures Valid() && fresh(dcwd) && dcwd.name == path && Dirs() == [dcwd] + old(Dirs())
    {
      hide Stack, JobTable.Valid, Shape, Counts, Without, With;
      var dp := NewDir(path);
      StackPush(ring, at, dp);
      PushAt(ring, at, dp);
      PutIn(dp);
      dcwd := dp;
    }

    method Exchange(dp: Directory)
      requires Valid() && |Dirs()| > 1 && dp == Dirs()[1]
      modifies this`ring, this`at, this`dcwd, dirs`next, dirs`prev
      ensures Valid() && Dirs() == [old(Dirs())[1], old(Dirs())[0]] + old(Dirs())[2..]
    {
      hide Stack, JobTable.Valid, Shape, Counts, Without, With;
      ghost var s := Dirs();
      ghost var k := Index(at, |ring|, 1);
      ghost var at' := if k < at then at - 1 else at;
      StackAt(ring, at, 1);
      StackWithout(ring, at, 1);
      WithoutAt(ring, k, at);
      Unlink(dp, k);
      at := at';
      StackPush(ring, at, dp);
      PushAt(ring, at, dp);
      PutIn(dp);
      dcwd := dp;
      assert s[..1] == [s[0]];
    }

    // -------------------------------------------------------------- popd

    /** popd removes the top of the stack, or with +n entry n, if that is not the only one. */
    method Popd(arg: Arg, ok: bool) returns (done: bool)
      requires Valid() && (arg.Plus? ==> arg.n > 0)
      modifies this, dirs`next, dirs`prev
      ensures Valid()
      ensures done <==> !arg.Name? && |old(Dirs())| > 1 && (arg.NoArg? ==> ok) && (arg.Plus? ==> arg.n < |old(Dirs())|)
      ensures !done ==> Dirs() == old(Dirs()) && dirs == old(dirs) && freed == old(freed)
      ensures done && arg.NoArg? ==> Dirs() == old(Dirs())[1..] && freed == old(freed) + Unreferenced(old(dcwd))
      ensures done && arg.Plus? ==> var n, s := arg.n, old(Dirs());
                                    Dirs() == s[..n] + s[n + 1..] && freed == old(freed) + Unreferenced(s[n])
    {
      hide Stack, JobTable.Valid, Shape, Counts, Without;
      if arg.Name? {
        return false;
      }
      StackAt(ring, at, 0);
      if arg.Plus? {
        var dp := Dfind(arg.n);
        if dp == null {
          return false;
        }
        PopEntry(dp, arg.n);
      } else {
        var p := Below();
        if p == dcwd || !ok {
          return false;
        }
        PopTop(p);
      }
      return true;
    }

    method PopEntry(dp: Directory, ghost n: nat)
      requires Valid() && 0 < n < |Dirs()| && dp == Dirs()[n]
      modifies this`ring, this`at, this`dirs, this`freed, dirs`next, dirs`prev
      ensures Valid() && Dirs() == old(Dirs())[..n] + old(Dirs())[n + 1..]
      ensures freed == old(freed) + Unreferenced(dp)
    {
      hide Stack, JobTable.Valid, Shape, Counts, Without;
      ghost var k := Index(at, |ring|, n);
      StackAt(ring, at, n);
      StackWithout(ring, at, n);
      WithoutAt(ring, k, at);
      HeadOnly(k);
      Unlink(dp, k);
      at := if k < at then at - 1 else at;
      Dfree(dp);
    }

    method PopTop(p: Directory)
      requires Valid() && |Dirs()| > 1 && p == Dirs()[1]
      modifies this`ring, this`at, this`dcwd, this`dirs, this`freed, dirs`next, dirs`prev
      ensures Valid() && Dirs() == old(Dirs())[1..]
      ensures freed == old(freed) + Unreferenced(old(dcwd))
    {
      hide Stack, JobTable.Valid, Shape, Counts, Without;
      ghost var s := Dirs();
      ghost var k := Index(at, |ring|, 1);
      ghost var at' := if k < at then k else k - 1;
      StackAt(ring, at, 1);
      StackPop(ring, at, 1);
      WithoutAt(ring, at, k);
      HeadOnly(at);
      var dp := dcwd;
      Unlink(dp, at);
      at := at';
      dcwd := p;
      Dfree(dp);
      assert s[1..] + s[1..1] == s[1..];
    }

    lemma HeadOnly(k: nat)
      requires Shape(null) && 0 < k < |ring|
      ensures ring[k] != dhead
    {
      hide Ring;
      Different(ring, LinksOf(), k, 0);
    }

    // -------------------------------------------------------------- jobs

    /** A process is forked: palloc. */
    method Fork(pid: nat, flags: set<Flag>) returns (pp: Process)
      requires Valid() && pid != 0 && OneState(flags) && PRUNNING in flags
      requires forall p <- jobs.procs :: p.pid != pid
      modifies jobs, jobs.procs`friends, dirs`count
      ensures Valid() && fresh(pp) && jobs.procs == [pp] + old(jobs.procs)
      ensures dcwd.count == old(dcwd.count) + (if old(jobs.pcurrjob) == null then SHORT else 0)
    {
      hide JobTable.Valid, Shape, OneState, Owed, Tallied;
      RingDirs(null);
      ghost var procs := jobs.procs;
      pp := Record(pid, flags);
      OneMore(procs, pp);
    }

    method Record(pid: nat, flags: set<Flag>) returns (pp: Process)
      requires jobs.Valid() && pid != 0 && OneState(flags) && PRUNNING in flags
      requires forall p <- jobs.procs :: p.pid != pid
      requires Tallied(jobs.procs) && dcwd in dirs && dcwd != dhead
      modifies jobs, jobs.procs`friends, dcwd`count
      ensures jobs.Valid() && fresh(pp) && jobs.procs == [pp] + old(jobs.procs)
      ensures pp.cwd == if old(jobs.pcurrjob) == null then dcwd else null
      ensures dcwd.count == old(dcwd.count) + (if pp.cwd == null then 0 else SHORT)
      ensures Owed(old(jobs.procs), pp.cwd)
    {
      hide JobTable.Valid, OneState, Known, CshJobTable.Joined, Begun, Refs, Numbers, Room, JobTable.Recs;
      ghost var t := jobs.Tab();
      pp := jobs.Palloc(pid, flags, dcwd);
      if t.pcurrjob != null {
        JoinedCwd(t, jobs.Tab(), t.pcurrjob, pp, pp.Get());
      }
    }

    /** A child changes state: pchild. */
    method Status(pid: nat, w: CshJobTable.Status, ru: nat, limit: Option<nat>, notify: bool) returns (ghost pp: Process?)
      requires Valid() && pid != 0
      requires forall p <- jobs.procs :: p.pid == pid ==> p.flags * {PRUNNING, PSTOPPED} != {}
      modifies jobs`pcurrent, jobs`pprevious, jobs`pcurrjob, jobs`pmaxindex
      modifies jobs.procs`pid, jobs.procs`index, jobs.procs`flags, jobs.procs`reason, jobs.procs`usage
      ensures Valid()
      ensures pp == null ==> (forall p <- jobs.procs :: old(p.pid) != pid) && jobs.Tab() == old(jobs.Tab())
      ensures pp != null ==> pp in jobs.procs && old(pp.pid) == pid
                             && Outcome(old(jobs.Tab()), jobs.Tab(), pp, w, ru, notify)
                             && AllAfter(old(jobs.Tab()), jobs.Tab(), pp, w, ru, limit, notify)
    {
      hide JobTable.Valid, Standing, Outcome, AllAfter;
      pp := jobs.Pchild(pid, w, ru, limit, notify);
    }

    /** A job is continued: pstart. */
    method Start(pp: Process, foregnd: bool)
      requires Valid() && Leader(jobs.Tab(), pp)
      modifies jobs`pcurrent, jobs`pprevious, jobs.procs`flags
      ensures Valid() && Changed(old(jobs.Tab()), jobs.Tab(), pp, Started(foregnd))
    {
      hide JobTable.Valid, Standing, Changed, Any;
      var cont := jobs.Pstart(pp, foregnd);
    }

    /** A job is flushed: pflush. */
    method Flush(pp: Process)
      requires Valid() && pp in jobs.procs
      modifies jobs`pcurrent, jobs`pprevious, jobs`pcurrjob, jobs`pmaxindex
      modifies jobs.procs`pid, jobs.procs`index, jobs.procs`flags
      ensures Valid()
      ensures if old(pp.pid) == 0 then jobs.Tab() == old(jobs.Tab())
              else Changed(old(jobs.Tab()), jobs.Tab(), First(old(jobs.Tab()), pp), Gone)
    {
      hide JobTable.Valid, Standing, Changed;
      jobs.Pflush(pp);
    }

    /** A new record, with a reference to the current directory if it begins a job. */
    lemma OneMore(procs: seq<Process>, pp: Process)
      requires jobs.procs == [pp] + procs && (pp.cwd == null || pp.cwd == dcwd) && dcwd in dirs && dcwd != dhead
      requires Owed(procs, pp.cwd)
      ensures Tallied(jobs.procs)
    {
      assert jobs.procs[1..] == procs;
    }

    /** The list through next is procs. */
    ghost predicate Chained()
      reads jobs`first, jobs`procs, jobs.procs`next
    {
      && jobs.first == Nth(jobs.procs, 0)
      && (forall k :: 0 <= k < |jobs.procs| ==> jobs.procs[k].next == Nth(jobs.procs, k + 1))
      && OneEach(jobs.procs)
    }

    /** With the link around record k, the list without it is chained. */
    lemma StillChained(procs: seq<Process>, k: nat)
      requires k < |procs| && jobs.procs == procs[..k] + procs[k + 1..]
      requires OneEach(procs)
      requires jobs.first == if k == 0 then Nth(procs, 1) else procs[0]
      requires forall i :: 0 <= i < |procs| && i != k ==> procs[i].next == Nth(procs, if i == k - 1 then k + 1 else i + 1)
      ensures Chained() && Nth(jobs.procs, k) == Nth(procs, k + 1)
    {
      hide OneEach;
      var left := jobs.procs;
      LeftDistinct(procs, k);
      forall i | 0 <= i < |left|
        ensures left[i].next == Nth(left, i + 1)
      {
        NthLeft(procs, k, i);
        NthLeft(procs, k, i + 1);
      }
      NthLeft(procs, k, 0);
      NthLeft(procs, k, k);
    }

    /** Record k is taken out of the list: fp is record k - 1, or null for the head. */
    method Splice(fp: Process?, pp: Process, ghost k: nat) returns (next: Process?)
      requires Chained() && k < |jobs.procs| && pp == jobs.procs[k] && fp == (if k == 0 then null else jobs.procs[k - 1])
      modifies jobs`first, jobs`procs, {fp}`next
      ensures Chained() && jobs.procs == old(jobs.procs)[..k] + old(jobs.procs)[k + 1..] && next == Nth(jobs.procs, k)
    {
      ghost var procs := jobs.procs;
      if fp == null {
        jobs.first := pp.next;
      } else {
        fp.next := pp.next;
      }
      jobs.procs := jobs.procs[..k] + jobs.procs[k + 1..];
      StillChained(procs, k);
      next := if fp == null then jobs.first else fp.next;
    }

    /** The reference of a record that is gone is dropped, and with the last one of a directory
        off the ring the directory. */
    method Release(pp: Process, ghost before: seq<Process>, ghost k: nat)
      requires Shape(null) && Current() && Kept(null) && Tallied(before)
      requires k < |before| && pp == before[k] && jobs.procs == before[..k] + before[k + 1..]
      modifies this`dirs, this`freed, dirs`count, dirs`next, dirs`prev
      ensures Shape(null) && Counts(null) && dirs <= old(dirs)
    {
      hide Shape;
      RefsWithout(before, k);
      if pp.cwd == null {
        return;
      }
      var d: Directory := pp.cwd;
      d.count := d.count - SHORT;
      if d.count == 0 && d.next == null {
        OffRing(d);
        Dfree(d);
      } else {
        OffRing(d);
      }
    }

    /** A directory is off the ring exactly when it has no next. */
    lemma OffRing(d: Directory)
      requires Shape(null) && d in dirs
      ensures d in ring <==> d.next != null
      ensures d !in ring ==> Shape(d)
    {
      hide Ring;
      var links := LinksOf();
      if d in ring {
        var i :| 0 <= i < |ring| && ring[i] == d;
        NextIs(ring, links, i);
      }
    }

    /** The sweep of pwait: the flushed records leave the list, each with its reference. */
    method Sweep()
      requires Valid()
      modifies this`dirs, this`freed, jobs`first, jobs`procs, jobs.procs`next, dirs`count, dirs`next, dirs`prev
      ensures Valid() && Dirs() == old(Dirs())
      ensures forall p <- jobs.procs :: p in old(jobs.procs) && p.pid != 0
      ensures forall p <- old(jobs.procs) :: p.pid != 0 ==> p in jobs.procs
      ensures dirs <= old(dirs)
    {
      hide JobTable.Valid, Shape, Counts, Good, Chained, JobTable.Recs, Known, Swept, Stack;
      ghost var t, procs := jobs.Tab(), jobs.procs;
      StartChain();
      Tabled(t);
      SweepLoop();
      forall p <- jobs.procs
        ensures p in t.procs && t.recs[p].pid != 0 && p.Get().(next := t.recs[p].next) == t.recs[p]
      {
        assert p in procs;
      }
      SweptIs(t);
      EndChain(t);
    }

    lemma Tabled(t: Table)
      requires jobs.Valid() && t == jobs.Tab()
      ensures Good(t) && Known(t) && forall p <- jobs.procs :: p in t.recs && t.recs[p] == p.Get()
    {
      hide Closed, Jobs, Numbers, Currents, States, Cwds, Listed;
    }

    lemma SweptIs(t: Table)
      requires Known(t) && (forall p <- jobs.procs :: p in t.procs && t.recs[p].pid != 0 && p.Get().(next := t.recs[p].next) == t.recs[p])
      requires forall p <- t.procs :: t.recs[p].pid != 0 ==> p in jobs.procs
      requires jobs.place == t.place && jobs.pcurrjob == t.pcurrjob && jobs.pcurrent == t.pcurrent
      requires jobs.pprevious == t.pprevious && jobs.pmaxindex == t.pmaxindex
      ensures Swept(t, jobs.Tab())
    {
      hide Known;
    }

    method SweepLoop()
      requires Shape(null) && Current() && Counts(null) && Chained()
      modifies this`dirs, this`freed, jobs`first, jobs`procs, jobs.procs`next, dirs`count, dirs`next, dirs`prev
      ensures Shape(null) && Counts(null) && Chained() && dirs <= old(dirs)
      ensures forall p <- jobs.procs :: p in old(jobs.procs) && p.pid != 0
      ensures forall p <- old(jobs.procs) :: p.pid != 0 ==> p in jobs.procs
    {
      hide Shape, Counts, Chained;
      ghost var procs := jobs.procs;
      var fp: Process? := null;
      var pp := jobs.first;
      ghost var k := 0;
      ChainAt(0);
      while pp != null
        invariant Shape(null) && Counts(null) && Chained() && dirs <= old(dirs)
        invariant k <= |jobs.procs| && pp == Nth(jobs.procs, k) && fp == (if k == 0 then null else jobs.procs[k - 1])
        invariant forall i :: 0 <= i < k ==> jobs.procs[i].pid != 0
        invariant forall p <- jobs.procs :: p in procs
        invariant forall p <- procs :: p.pid != 0 ==> p in jobs.procs
        decreases |jobs.procs| - k
      {
        if pp.pid == 0 {
          assert fp == null || fp in procs;
          pp := Drop(fp, pp, k);
        } else {
          ChainAt(k);
          fp := pp;
          pp := pp.next;
          k := k + 1;
        }
      }
    }

    /** One flushed record leaves. */
    method Drop(fp: Process?, pp: Process, ghost k: nat) returns (next: Process?)
      requires Shape(null) && Current() && Counts(null) && Chained()
      requires k < |jobs.procs| && pp == jobs.procs[k] && fp == (if k == 0 then null else jobs.procs[k - 1])
      modifies this`dirs, this`freed, jobs`first, jobs`procs, {fp}`next, dirs`count, dirs`next, dirs`prev
      ensures Shape(null) && Counts(null) && Chained() && dirs <= old(dirs)
      ensures |jobs.procs| == old(|jobs.procs|) - 1 && next == Nth(jobs.procs, k)
      ensures forall i :: 0 <= i < k ==> jobs.procs[i] == old(jobs.procs[i])
      ensures forall p <- jobs.procs :: p in old(jobs.procs)
      ensures forall p <- old(jobs.procs) :: p == pp || p in jobs.procs
    {
      hide Shape, Chained, Kept, Tallied;
      ghost var before := jobs.procs;
      Listing(before, k);
      next := Splice(fp, pp, k);
      Release(pp, before, k);
    }

    lemma ChainAt(k: nat)
      requires Chained() && k <= |jobs.procs|
      ensures jobs.first == Nth(jobs.procs, 0)
      ensures k < |jobs.procs| ==> jobs.procs[k].next == Nth(jobs.procs, k + 1)
    {
    }

    lemma StartChain()
      requires Valid()
      ensures Chained()
    {
      hide Shape, Counts, Closed, Jobs, Numbers, Currents, States, Cwds;
      var t := jobs.Tab();
      forall k | 0 <= k < |jobs.procs|
        ensures jobs.procs[k].next == Nth(jobs.procs, k + 1)
      {
        assert t.recs[jobs.procs[k]].next == Nth(t.procs, k + 1);
      }
    }

    lemma EndChain(t: Table)
      requires Good(t) && Chained() && Swept(t, jobs.Tab())
      ensures jobs.Valid()
    {
      hide Closed, Jobs, Numbers, Currents, States, Cwds, Good;
      SweepGood(t, jobs.Tab());
    }
  }
}