/**
 What holds of the job table of csh (bin/csh/sh.proc.c) between steps. A Table is the contents
 of all the process records and of the variables around them.
 */
module CshJobTable {
  import opened CshDirectory

  datatype Flag =
    | PRUNNING | PSTOPPED | PNEXITED | PAEXITED | PSIGNALED | PNOTIFY | PTIME
    | PFOREGND | PDUMPED | PDIAG | PPOU | PREPORTED | PINTERRUPTED | PPTIME | PNEEDNOTE

  const PALLSTATES: set<Flag> := {PRUNNING, PSTOPPED, PNEXITED, PAEXITED, PSIGNALED, PINTERRUPTED}

  /** A char of the source: job numbers are stored in one. */
  type SChar = c: int | -128 <= c <= 127

  const CHARMAX := 127

  function ToChar(i: int): (c: SChar)
    ensures -128 <= i <= 127 ==> c == i
  {
    (i + 128) % 256 - 128
  }

  const BIGINDEX := 9

  /** Exactly one of the state bits is set. */
  predicate OneState(f: set<Flag>) {
    && f * PALLSTATES != {}
    && (forall a <- f, b <- f :: a in PALLSTATES && b in PALLSTATES ==> a == b)
  }

  /** A process record. */
  class Process {
    var next: Process?
    var friends: Process?
    var cwd: Directory?
    var flags: set<Flag>
    var reason: int
    var index: SChar
    var pid: nat
    var jobid: nat
    var usage: nat

    ghost function Get(): Rec
      reads this
    {
      Rec(next, friends, cwd, flags, reason, index, pid, jobid, usage)
    }

    constructor (pid0: nat, flags0: set<Flag>)
      ensures Get() == Rec(null, null, null, flags0, 0, 0, pid0, 0, 0)
    {
      next, friends, cwd, flags, reason, index, pid, jobid, usage := null, null, null, flags0, 0, 0, pid0, 0, 0;
    }
  }

  datatype Rec = Rec(next: Process?, friends: Process?, cwd: Directory?, flags: set<Flag>, reason: int,
                     index: SChar, pid: nat, jobid: nat, usage: nat)

  /** Where a record is: the records of its job in the order of the friends links, and its place. */
  datatype Place = Place(job: seq<Process>, pos: nat)

  datatype Table = Table(procs: seq<Process>, recs: map<Process, Rec>, place: map<Process, Place>,
                         first: Process?, pcurrjob: Process?, pcurrent: Process?, pprevious: Process?, pmaxindex: nat)

  function Next(i: nat, n: nat): (j: nat)
    requires i < n
    ensures j < n
  {
    if i + 1 == n then 0 else i + 1
  }

  ghost function Nth(procs: seq<Process>, k: nat): Process? {
    if k < |procs| then procs[k] else null
  }

  // ---------------------------------------------------------------- the invariant

  /** Every record has contents and a place. */
  ghost predicate Known(t: Table) {
    forall p <- t.procs :: p in t.recs && p in t.place && t.place[p].pos < |t.place[p].job| && t.place[p].job[t.place[p].pos] == p
  }

  /** The list through next holds every record once. */
  ghost predicate Listed(t: Table)
    requires Known(t)
  {
    && t.first == Nth(t.procs, 0)
    && (forall k :: 0 <= k < |t.procs| ==> t.recs[t.procs[k]].next == Nth(t.procs, k + 1))
    && (forall i, j :: 0 <= i < j < |t.procs| ==> t.procs[i] != t.procs[j])
  }

  /** The friends links make rings that close, stay inside the list and do not meet. */
  ghost predicate Closed(t: Table)
    requires Known(t)
  {
    forall p <- t.procs :: RingOf(t, p)
  }

  ghost predicate RingOf(t: Table, p: Process)
    requires Known(t) && p in t.procs
  {
    var job := t.place[p].job;
    && t.recs[p].friends == job[Next(t.place[p].pos, |job|)]
    && (forall i :: 0 <= i < |job| ==> job[i] in t.procs && t.place[job[i]] == Place(job, i))
  }

  ghost function First(t: Table, p: Process): Process
    requires Known(t) && p in t.procs
  {
    t.place[p].job[0]
  }

  /** The records of a job are all live, with the leader's pid and job number, or all flushed. */
  ghost predicate Jobs(t: Table)
    requires Known(t) && Closed(t)
  {
    && (forall p <- t.procs :: JobOf(t, p))
    && (forall p <- t.procs, q <- t.procs :: t.recs[p].pid == t.recs[q].pid && t.recs[p].pid != 0 ==> p == q)
  }

  ghost predicate JobOf(t: Table, p: Process)
    requires Known(t) && p in t.procs && First(t, p) in t.recs
  {
    var r, l := t.recs[p], t.recs[First(t, p)];
    if r.pid == 0 then l.pid == 0 && r.index == 0
    else l.pid != 0 && r.jobid == l.pid && r.index == l.index && r.index != 0
  }

  ghost predicate Leader(t: Table, p: Process) {
    p in t.procs && p in t.recs && t.recs[p].pid != 0 && t.recs[p].pid == t.recs[p].jobid
  }

  ghost predicate SameLeaders(t: Table, t': Table) {
    t'.procs == t.procs && forall p <- t.procs :: Leader(t, p) <==> Leader(t', p)
  }

  /** What job numbers are for: they are positive, different jobs have different ones, and
      pmaxindex is the largest. A number that does not fit a char breaks this. */
  ghost predicate Numbers(t: Table)
    requires Known(t)
  {
    && (forall p <- t.procs, q <- t.procs :: t.recs[p].index == t.recs[q].index && t.recs[p].index != 0 ==> t.place[p].job == t.place[q].job)
    && (forall p <- t.procs :: t.recs[p].index >= 0)
    && Largest(t, t.pmaxindex)
  }

  /** What holds of them in every run: positive numbers are not shared, none is above pmaxindex,
      and Numbers holds unless pmaxindex has gone beyond the range of a char. */
  ghost predicate Numbered(t: Table)
    requires Known(t)
  {
    && Unshared(t)
    && (forall p <- t.procs :: t.recs[p].index <= t.pmaxindex)
    && t.pmaxindex <= CHARMAX + 1
    && (t.pmaxindex <= CHARMAX ==> Unwrapped(t))
  }

  ghost predicate Unshared(t: Table)
    requires Known(t)
  {
    forall p <- t.procs, q <- t.procs :: t.recs[p].index == t.recs[q].index && t.recs[p].index > 0 ==> t.place[p].job == t.place[q].job
  }

  ghost predicate Unwrapped(t: Table)
    requires Known(t)
  {
    Largest(t, t.pmaxindex) && forall p <- t.procs :: t.recs[p].index >= 0
  }

  ghost predicate Largest(t: Table, n: nat)
    requires Known(t)
  {
    && (forall p <- t.procs :: t.recs[p].index <= n)
    && (n > 0 ==> exists p <- t.procs :: t.recs[p].index == n)
  }

  /** Current and previous job are different live leaders, and there is no previous without a
      current; the unfinished job is a live leader too. */
  ghost predicate Currents(t: Table) {
    && (t.pcurrent != null ==> Leader(t, t.pcurrent))
    && (t.pprevious != null ==> t.pcurrent != null && Leader(t, t.pprevious) && t.pprevious != t.pcurrent)
    && (t.pcurrjob != null ==> Leader(t, t.pcurrjob))
  }

  ghost predicate States(t: Table)
    requires Known(t)
  {
    forall p <- t.procs :: OneState(t.recs[p].flags)
  }

  /** The first record of a job holds its working directory. */
  ghost predicate Cwds(t: Table)
    requires Known(t)
  {
    forall p <- t.procs :: t.recs[p].cwd != null <==> t.place[p].pos == 0
  }

  ghost predicate Good(t: Table) {
    Known(t) && Listed(t) && Closed(t) && Jobs(t) && Numbered(t) && Currents(t) && States(t) && Cwds(t)
  }

  lemma KnownAt(t: Table, p: Process)
    requires Known(t) && p in t.procs
    ensures p in t.recs && p in t.place && t.place[p].pos < |t.place[p].job| && t.place[p].job[t.place[p].pos] == p
  {
  }

  // ---------------------------------------------------------------- rings

  /** One step along a ring. */
  lemma Friend(t: Table, p: Process)
    requires Known(t) && Closed(t) && p in t.procs
    ensures var f := t.recs[p].friends;
            && f != null && f in t.procs && t.place[f] == Place(t.place[p].job, Next(t.place[p].pos, |t.place[p].job|))
    ensures First(t, p) in t.procs && t.place[First(t, p)] == Place(t.place[p].job, 0)
  {
    assert RingOf(t, p);
  }

  lemma Member(t: Table, p: Process, i: nat)
    requires Known(t) && Closed(t) && p in t.procs && i < |t.place[p].job|
    ensures t.place[p].job[i] in t.procs && t.place[t.place[p].job[i]] == Place(t.place[p].job, i)
  {
    assert RingOf(t, p);
  }

  /** A live record is a leader exactly when it is the first of its ring. */
  lemma LeaderIsFirst(t: Table, p: Process)
    requires Known(t) && Closed(t) && Jobs(t) && p in t.procs && t.recs[p].pid != 0
    ensures Leader(t, p) <==> t.place[p].pos == 0
    ensures First(t, p) in t.procs && Leader(t, First(t, p)) && t.place[First(t, p)] == Place(t.place[p].job, 0)
  {
    hide Closed;
    Friend(t, p);
    var l := First(t, p);
    Friend(t, l);
    assert JobOf(t, p) && JobOf(t, l);
    assert First(t, l) == l;
  }

  /** Records of one ring are live together. */
  lemma LiveTogether(t: Table, p: Process, q: Process)
    requires Known(t) && Closed(t) && Jobs(t) && p in t.procs && q in t.procs && t.place[p].job == t.place[q].job
    ensures t.recs[p].pid == 0 <==> t.recs[q].pid == 0
    ensures t.recs[p].index == t.recs[q].index
  {
    hide Closed;
    Friend(t, p);
    assert JobOf(t, p) && JobOf(t, q);
  }

  /** Which records pgetcurr may choose. */
  ghost predicate Candidate(t: Table, p: Process, pp: Process) {
    p != t.pcurrent && p != pp && Leader(t, p)
  }

  /** pgetcurr takes record k: the first stopped candidate, or else the first candidate. */
  ghost predicate Chosen(t: Table, k: nat, pp: Process) {
    && k < |t.procs| && Candidate(t, t.procs[k], pp)
    && if PSTOPPED in t.recs[t.procs[k]].flags then NoStopped(t, k, pp)
       else NoneBefore(t, k, pp) && NoStopped(t, |t.procs|, pp)
  }

  ghost predicate NoneBefore(t: Table, k: nat, pp: Process) {
    forall i :: 0 <= i < k <= |t.procs| ==> !Candidate(t, t.procs[i], pp)
  }

  ghost predicate NoStopped(t: Table, k: nat, pp: Process) {
    forall i :: 0 <= i < k <= |t.procs| && Candidate(t, t.procs[i], pp) ==> PSTOPPED !in t.recs[t.procs[i]].flags
  }

  /** xp is what pgetcurr returns: the record it takes, or none if there is no candidate. */
  ghost predicate Choice(t: Table, pp: Process, xp: Process?) {
    if xp == null then NoneBefore(t, |t.procs|, pp)
    else exists k: nat :: Chosen(t, k, pp) && t.procs[k] == xp
  }

  lemma NoChoice(t: Table, pp: Process)
    requires NoneBefore(t, |t.procs|, pp)
    ensures Choice(t, pp, null)
  {
  }

  lemma ChoiceFacts(t: Table, pp: Process, xp: Process?)
    requires Choice(t, pp, xp)
    ensures xp == null ==> NoneBefore(t, |t.procs|, pp)
    ensures xp != null ==> Candidate(t, xp, pp)
  {
    hide NoneBefore, Candidate;
    if xp != null {
      var k: nat :| Chosen(t, k, pp) && t.procs[k] == xp;
    }
  }

  /** The choice does not look at the previous job. */
  lemma SameChoice(t: Table, t': Table, pp: Process, xp: Process?)
    requires Choice(t, pp, xp) && t'.procs == t.procs && t'.recs == t.recs && t'.pcurrent == t.pcurrent
    ensures Choice(t', pp, xp)
  {
    assert NoneBefore(t, |t.procs|, pp) ==> NoneBefore(t', |t'.procs|, pp);
    if xp != null {
      var k: nat :| Chosen(t, k, pp) && t.procs[k] == xp;
      assert Chosen(t', k, pp);
    }
  }

  ghost predicate StoppedAt(t: Table, k: nat) {
    k < |t.procs| && t.procs[k] in t.recs && PSTOPPED in t.recs[t.procs[k]].flags
  }

  lemma NoneYet(t: Table, pp: Process)
    ensures NoneBefore(t, 0, pp) && NoStopped(t, 0, pp)
  {
  }

  /** Record k is looked at and is not a stopped candidate. */
  lemma OneMore(t: Table, k: nat, pp: Process)
    requires k < |t.procs|
    ensures NoStopped(t, k, pp) && !(Candidate(t, t.procs[k], pp) && StoppedAt(t, k)) ==> NoStopped(t, k + 1, pp)
    ensures NoneBefore(t, k, pp) && !Candidate(t, t.procs[k], pp) ==> NoneBefore(t, k + 1, pp)
  {
  }

  lemma StoppedChosen(t: Table, k: nat, pp: Process)
    requires k < |t.procs| && Candidate(t, t.procs[k], pp) && StoppedAt(t, k) && NoStopped(t, k, pp)
    ensures Chosen(t, k, pp) && Choice(t, pp, t.procs[k])
  {
    assert Chosen(t, k, pp);
  }

  lemma OtherChosen(t: Table, k: nat, pp: Process)
    requires k < |t.procs| && Candidate(t, t.procs[k], pp) && !StoppedAt(t, k) && NoneBefore(t, k, pp) && NoStopped(t, |t.procs|, pp)
    ensures Chosen(t, k, pp) && Choice(t, pp, t.procs[k])
  {
    assert Chosen(t, k, pp);
  }

  /** With pp current and no other candidate, there is none without a current job either. */
  lemma NoneLeft(t: Table, t': Table, pp: Process)
    requires t.pcurrent == pp && t' == t.(pcurrent := t'.pcurrent)
    ensures t'.pcurrent == null && NoneBefore(t, |t.procs|, pp) ==> NoneBefore(t', |t'.procs|, pp)
  {
  }

  /** The same records in the same list. */
  lemma SameRecords(t: Table, t': Table)
    requires Known(t) && Listed(t) && Closed(t)
    requires t'.procs == t.procs && t'.recs == t.recs && t'.place == t.place && t'.first == t.first
    ensures Known(t') && Listed(t') && Closed(t')
    ensures SameLeaders(t, t')
  {
    forall p <- t.procs
      ensures RingOf(t', p)
    {
      assert RingOf(t, p);
    }
  }

  lemma OnlyCurrents(t: Table, t': Table)
    requires Good(t) && t' == t.(pcurrent := t'.pcurrent, pprevious := t'.pprevious, pcurrjob := t'.pcurrjob) && Currents(t')
    ensures Good(t')
  {
    ShapeKeeps(t, t');
  }

  // ---------------------------------------------------------------- steps that change flags only

  /** t' differs from t in flags, reasons and times only. */
  ghost predicate SameShape(t: Table, t': Table)
    requires Known(t)
  {
    && t'.procs == t.procs && t'.place == t.place && t'.first == t.first && t'.pmaxindex == t.pmaxindex
    && (forall p <- t.procs :: p in t'.recs && SameLinks(t.recs[p], t'.recs[p]))
  }

  predicate SameLinks(r: Rec, r': Rec) {
    r'.(flags := r.flags, reason := r.reason, usage := r.usage) == r
  }

  lemma ShapeKeeps(t: Table, t': Table)
    requires Known(t) && Listed(t) && Closed(t) && Jobs(t) && Numbered(t) && Cwds(t) && SameShape(t, t')
    ensures Known(t') && Listed(t') && Closed(t') && Jobs(t') && Numbered(t') && Cwds(t')
    ensures SameLeaders(t, t')
  {
    hide Closed, Jobs, Listed, Numbered;
    KeepsRings(t, t');
    KeepsJobs(t, t');
    KeepsList(t, t');
    KeepsNumbers(t, t');
  }

  lemma KeepsNumbers(t: Table, t': Table)
    requires Known(t) && Numbered(t) && SameShape(t, t') && Known(t')
    ensures Numbered(t')
  {
    forall p <- t.procs
      ensures t'.recs[p].index == t.recs[p].index
    {
      assert SameLinks(t.recs[p], t'.recs[p]);
    }
    SameNumbers(t, t');
  }

  /** The same numbers on the same rings. */
  lemma SameNumbers(t: Table, t': Table)
    requires Known(t) && Numbered(t) && Known(t') && t'.procs == t.procs && t'.place == t.place && t'.pmaxindex == t.pmaxindex
    requires forall p <- t.procs :: t'.recs[p].index == t.recs[p].index
    ensures Numbered(t')
  {
    hide Known;
    if 0 < t.pmaxindex <= CHARMAX {
      var p := LargestShown(t);
      Shown(t', p);
    }
  }

  lemma LargestShown(t: Table) returns (p: Process)
    requires Known(t) && Largest(t, t.pmaxindex) && t.pmaxindex > 0
    ensures p in t.procs && p in t.recs && t.recs[p].index == t.pmaxindex
  {
    p :| p in t.procs && t.recs[p].index == t.pmaxindex;
  }

  lemma Shown(t: Table, p: Process)
    requires Known(t) && p in t.procs && t.recs[p].index == t.pmaxindex && forall q <- t.procs :: t.recs[q].index <= t.pmaxindex
    ensures Largest(t, t.pmaxindex)
  {
  }

  lemma KeepsList(t: Table, t': Table)
    requires Known(t) && Listed(t) && SameShape(t, t') && Known(t')
    ensures Listed(t')
  {
  }

  lemma KeepsRings(t: Table, t': Table)
    requires Known(t) && Closed(t) && SameShape(t, t')
    ensures Known(t') && Closed(t')
  {
    forall p <- t.procs
      ensures RingOf(t', p)
    {
      assert RingOf(t, p);
    }
  }

  lemma KeepsJobs(t: Table, t': Table)
    requires Known(t) && Closed(t) && Jobs(t) && SameShape(t, t') && Known(t') && Closed(t')
    ensures Jobs(t')
  {
    hide Closed;
    forall p <- t.procs
      ensures First(t', p) in t'.recs && JobOf(t', p)
    {
      Friend(t, p);
      assert JobOf(t, p);
    }
  }

  // ---------------------------------------------------------------- flushing a job

  function Gone(r: Rec): Rec {
    r.(index := 0, pid := 0, flags := r.flags - {PNEEDNOTE})
  }

  /** The records in the order in which friends are followed from p. */
  ghost function Walk(t: Table, p: Process): seq<Process>
    requires p in t.place && t.place[p].pos < |t.place[p].job|
  {
    var Place(job, pos) := t.place[p];
    job[pos..] + job[..pos]
  }

  /** The walk starts at p, follows friends, and meets every record of the ring once. */
  lemma WalkStep(t: Table, p: Process, k: nat)
    requires Known(t) && Closed(t) && p in t.procs && k < |t.place[p].job|
    ensures |Walk(t, p)| == |t.place[p].job| && Walk(t, p)[0] == p
    ensures var q := Walk(t, p)[k]; q in t.procs && t.place[q].job == t.place[p].job && t.recs[q].friends == Walk(t, p)[Next(k, |t.place[p].job|)]
    ensures k > 0 ==> Walk(t, p)[k] != p
    ensures Walk(t, p)[k] !in Walk(t, p)[..k]
  {
    hide Closed;
    var Place(job, pos) := t.place[p];
    var n := |job|;
    var at := i requires 0 <= i < n => if pos + i < n then pos + i else pos + i - n;
    var w := Walk(t, p);
    forall i: nat | i <= k
      ensures w[i] in t.procs && t.place[w[i]] == Place(job, at(i))
    {
      Member(t, p, at(i));
    }
    Friend(t, w[k]);
  }

  lemma WalkMember(t: Table, p: Process, q: Process)
    requires Known(t) && Closed(t) && p in t.procs && q in t.procs
    ensures q in Walk(t, p) <==> t.place[q].job == t.place[p].job
  {
    hide Closed;
    var Place(job, pos) := t.place[p];
    var w := Walk(t, p);
    if q in w {
      var k :| 0 <= k < |w| && w[k] == q;
      WalkStep(t, p, k);
    }
  }

  /** The first k records of the walk are changed by f. */
  ghost function Applied(recs: map<Process, Rec>, walk: seq<Process>, k: nat, f: Rec -> Rec): map<Process, Rec>
    requires k <= |walk|
  {
    map p | p in recs :: if p in walk[..k] then f(recs[p]) else recs[p]
  }

  lemma AppliedNone(recs: map<Process, Rec>, walk: seq<Process>, f: Rec -> Rec)
    ensures Applied(recs, walk, 0, f) == recs
  {
  }

  lemma AppliedStep(recs: map<Process, Rec>, walk: seq<Process>, k: nat, f: Rec -> Rec)
    requires k < |walk| && walk[k] in recs && walk[k] !in walk[..k]
    ensures var a := Applied(recs, walk, k, f);
            walk[k] in a && a[walk[k]] == recs[walk[k]] && a[walk[k] := f(recs[walk[k]])] == Applied(recs, walk, k + 1, f)
  {
    assert walk[..k + 1] == walk[..k] + [walk[k]];
  }

  /** One turn of a loop that follows friends from p and changes each record by f. */
  lemma WalkTurn(t: Table, p: Process, k: nat, f: Rec -> Rec)
    requires Known(t) && Closed(t) && p in t.procs && k < |Walk(t, p)|
    ensures forall q <- Walk(t, p) :: q in t.recs
    ensures var w := Walk(t, p);
            && w[k] in t.procs && w[k] in Applied(t.recs, w, k, f)
            && t.recs[w[k]].friends == (if k + 1 < |w| then w[k + 1] else p)
            && (k + 1 < |w| ==> w[k + 1] != p && w[k + 1] in t.procs)
            && Applied(t.recs, w, k, f)[w[k]] == t.recs[w[k]]
            && Applied(t.recs, w, k, f)[w[k] := f(t.recs[w[k]])] == Applied(t.recs, w, k + 1, f)
            && Union(t.recs, w, k + 1) == Union(t.recs, w, k) + t.recs[w[k]].flags
  {
    hide Closed, Applied, Known, Walk, Union;
    KnownAt(t, p);
    WalkKnown(t, p);
    WalkStep(t, p, 0);
    WalkStep(t, p, k);
    KnownAt(t, Walk(t, p)[k]);
    AppliedStep(t.recs, Walk(t, p), k, f);
    if k + 1 < |Walk(t, p)| {
      WalkStep(t, p, k + 1);
    }
    UnionStep(t.recs, Walk(t, p), k);
  }

  lemma UnionStep(recs: map<Process, Rec>, walk: seq<Process>, k: nat)
    requires k < |walk| && forall p <- walk :: p in recs
    ensures Union(recs, walk, 0) == {} && Union(recs, walk, k + 1) == Union(recs, walk, k) + recs[walk[k]].flags
  {
  }

  /** Every record of the job of p is changed by f, and no other. */
  ghost predicate Changed(t: Table, t': Table, p: Process, f: Rec -> Rec)
    requires Known(t) && p in t.procs
  {
    t'.recs == Applied(t.recs, Walk(t, p), |Walk(t, p)|, f)
  }

  lemma ChangedRec(t: Table, t': Table, p: Process, f: Rec -> Rec, q: Process)
    requires Known(t) && Closed(t) && p in t.procs && q in t.procs && Changed(t, t', p, f)
    ensures q in t'.recs && t'.recs[q] == if t.place[q].job == t.place[p].job then f(t.recs[q]) else t.recs[q]
  {
    hide Closed, Walk;
    WalkMember(t, p, q);
    var w := Walk(t, p);
    assert w[..|w|] == w;
  }

  /** The table after the ring of leader l is cleared. */
  ghost predicate Flushed(t: Table, t': Table, l: Process)
    requires Known(t) && l in t.procs
  {
    && t'.procs == t.procs && t'.place == t.place && t'.first == t.first
    && Changed(t, t', l, Gone)
  }

  lemma FlushedRec(t: Table, t': Table, l: Process, p: Process)
    requires Known(t) && Closed(t) && l in t.procs && p in t.procs && Flushed(t, t', l)
    ensures p in t'.recs && t'.recs[p] == if t.place[p].job == t.place[l].job then Gone(t.recs[p]) else t.recs[p]
  {
    hide Closed;
    ChangedRec(t, t', l, Gone, p);
  }

  lemma SameFlush(t: Table, t1: Table, t': Table, l: Process)
    requires Known(t) && l in t.procs && t1.procs == t.procs && t1.recs == t.recs && t1.place == t.place && t1.first == t.first
    requires Known(t1) && Flushed(t1, t', l)
    ensures Flushed(t, t', l)
  {
  }

  lemma FlushRings(t: Table, t': Table, l: Process)
    requires Known(t) && Closed(t) && Listed(t) && l in t.procs && Flushed(t, t', l)
    ensures Known(t') && Closed(t') && Listed(t')
  {
    hide Closed;
    forall p <- t.procs
      ensures p in t'.recs && t'.recs[p].next == t.recs[p].next && t'.recs[p].friends == t.recs[p].friends
    {
      FlushedRec(t, t', l, p);
    }
    SameLinksClosed(t, t');
  }

  lemma SameLinksClosed(t: Table, t': Table)
    requires Known(t) && Closed(t) && t'.procs == t.procs && t'.place == t.place && Known(t')
    requires forall p <- t.procs :: t'.recs[p].friends == t.recs[p].friends
    ensures Closed(t')
  {
    forall p <- t.procs
      ensures RingOf(t', p)
    {
      assert RingOf(t, p);
    }
  }

  lemma FlushJobs(t: Table, t': Table, l: Process)
    requires Known(t) && Closed(t) && Jobs(t) && l in t.procs && Flushed(t, t', l) && Known(t') && Closed(t')
    ensures Jobs(t')
  {
    hide Closed, Changed;
    forall p <- t.procs
      ensures First(t', p) in t'.recs && JobOf(t', p)
      ensures t'.recs[p].pid == t.recs[p].pid || t'.recs[p].pid == 0
    {
      Friend(t, p);
      FlushedRec(t, t', l, p);
      FlushedRec(t, t', l, First(t, p));
      assert JobOf(t, p);
    }
  }

  lemma FlushNumbers(t: Table, t': Table, l: Process)
    requires Known(t) && Closed(t) && Jobs(t) && Numbered(t) && l in t.procs && Flushed(t, t', l) && Known(t')
    requires t.recs[l].index != t.pmaxindex ==> t'.pmaxindex == t.pmaxindex
    requires t.recs[l].index == t.pmaxindex ==> Largest(t', t'.pmaxindex)
    ensures Numbered(t')
  {
    hide Closed, Changed, Jobs, Known, Unshared;
    FlushUnshared(t, t', l);
    forall p <- t.procs
      ensures p in t.recs && p in t'.recs && (t'.recs[p].index == t.recs[p].index || t'.recs[p].index == 0)
    {
      KnownAt(t, p);
      FlushedRec(t, t', l, p);
    }
    if t.recs[l].index != t.pmaxindex && 0 < t.pmaxindex <= CHARMAX {
      var p := LargestShown(t);
      FlushedRec(t, t', l, p);
      KnownAt(t, p);
      KnownAt(t, l);
      if t.place[p].job == t.place[l].job {
        LiveTogether(t, p, l);
      }
      Shown(t', p);
    }
  }

  lemma FlushUnshared(t: Table, t': Table, l: Process)
    requires Known(t) && Closed(t) && Unshared(t) && l in t.procs && Flushed(t, t', l) && Known(t')
    ensures Unshared(t')
  {
    hide Closed, Changed;
    forall p <- t.procs
      ensures t'.recs[p].index == t.recs[p].index || t'.recs[p].index == 0
    {
      FlushedRec(t, t', l, p);
    }
  }

  lemma FlushCurrents(t: Table, t': Table, l: Process)
    requires Known(t) && Closed(t) && Jobs(t) && Currents(t) && Leader(t, l) && Flushed(t, t', l) && Known(t')
    requires t'.pcurrent == t.pcurrent && t'.pprevious == t.pprevious && (t'.pcurrjob == t.pcurrjob || t'.pcurrjob == null)
    requires t.pcurrent != l && t.pprevious != l && t'.pcurrjob != l
    ensures Currents(t')
  {
    hide Closed, Changed, Jobs;
    forall p <- t.procs | Leader(t, p) && p != l
      ensures Leader(t', p)
    {
      FlushedRec(t, t', l, p);
      LeaderIsFirst(t, p);
      LeaderIsFirst(t, l);
    }
  }

  lemma FlushRest(t: Table, t': Table, l: Process)
    requires Known(t) && Closed(t) && States(t) && Cwds(t) && l in t.procs && Flushed(t, t', l) && Known(t')
    ensures States(t') && Cwds(t')
  {
    hide Closed, Changed;
    forall p <- t.procs
      ensures OneState(t'.recs[p].flags) && t'.recs[p].cwd == t.recs[p].cwd
    {
      FlushedRec(t, t', l, p);
    }
  }

  lemma FlushGood(t: Table, t': Table, l: Process)
    requires Good(t) && Leader(t, l) && Flushed(t, t', l)
    requires t'.pcurrent == t.pcurrent && t'.pprevious == t.pprevious && (t'.pcurrjob == t.pcurrjob || t'.pcurrjob == null)
    requires t.pcurrent != l && t.pprevious != l && t'.pcurrjob != l
    requires t.recs[l].index != t.pmaxindex ==> t'.pmaxindex == t.pmaxindex
    requires t.recs[l].index == t.pmaxindex ==> Known(t') && Largest(t', t'.pmaxindex)
    ensures Good(t')
  {
    hide Closed, Changed, Jobs, Numbered, Currents, States, Cwds, Listed;
    FlushRings(t, t', l);
    FlushJobs(t, t', l);
    FlushNumbers(t, t', l);
    FlushCurrents(t, t', l);
    FlushRest(t, t', l);
  }

  // ---------------------------------------------------------------- changing the flags of a job

  /** f changes flags only, and keeps one state bit. */
  ghost predicate FlagChange(t: Table, f: Rec -> Rec)
    requires Known(t)
  {
    forall p <- t.procs :: SameLinks(t.recs[p], f(t.recs[p])) && (OneState(t.recs[p].flags) ==> OneState(f(t.recs[p]).flags))
  }

  lemma FlagsGood(t: Table, t': Table, p: Process, f: Rec -> Rec)
    requires Good(t) && p in t.procs && t' == t.(recs := t'.recs) && Changed(t, t', p, f) && FlagChange(t, f)
    ensures Good(t')
    ensures SameLeaders(t, t')
  {
    hide Closed, Jobs, Listed, Numbered, Changed, OneState;
    forall q <- t.procs
      ensures q in t'.recs && SameLinks(t.recs[q], t'.recs[q]) && OneState(t'.recs[q].flags)
    {
      ChangedRec(t, t', p, f, q);
      assert OneState(t.recs[q].flags);
    }
    ShapeKeeps(t, t');
  }

  lemma SameState(f: set<Flag>, g: set<Flag>)
    requires f * PALLSTATES == g * PALLSTATES && OneState(f)
    ensures OneState(g)
  {
    forall a <- g, b <- g | a in PALLSTATES && b in PALLSTATES
      ensures a == b
    {
      assert a in f * PALLSTATES && b in f * PALLSTATES;
    }
  }

  /** Some record of the job of p has flag x. */
  ghost predicate Any(t: Table, p: Process, x: Flag)
    requires Known(t) && p in t.procs
  {
    exists q <- t.procs :: t.place[q].job == t.place[p].job && x in t.recs[q].flags
  }

  /** The flags of the first k records of a walk. */
  ghost function Union(recs: map<Process, Rec>, walk: seq<Process>, k: nat): set<Flag>
    requires k <= |walk| && forall p <- walk :: p in recs
  {
    if k == 0 then {} else Union(recs, walk, k - 1) + recs[walk[k - 1]].flags
  }

  lemma {:induction false} UnionHas(recs: map<Process, Rec>, walk: seq<Process>, k: nat, x: Flag)
    requires k <= |walk| && forall p <- walk :: p in recs
    ensures x in Union(recs, walk, k) <==> exists i :: 0 <= i < k && x in recs[walk[i]].flags
  {
    if k > 0 {
      UnionHas(recs, walk, k - 1, x);
    }
  }

  lemma UnionAny(t: Table, p: Process, x: Flag)
    requires Known(t) && Closed(t) && p in t.procs && forall q <- Walk(t, p) :: q in t.recs
    ensures x in Union(t.recs, Walk(t, p), |Walk(t, p)|) <==> Any(t, p, x)
  {
    hide Closed, Walk;
    var w := Walk(t, p);
    UnionHas(t.recs, w, |w|, x);
    forall q <- t.procs
      ensures q in w <==> t.place[q].job == t.place[p].job
    {
      WalkMember(t, p, q);
    }
    forall i | 0 <= i < |w|
      ensures w[i] in t.procs
    {
      WalkIn(t, p, i);
    }
  }

  lemma WalkKnown(t: Table, p: Process)
    requires Known(t) && Closed(t) && p in t.procs
    ensures forall q <- Walk(t, p) :: q in t.procs && q in t.recs
  {
    hide Closed, Walk;
    forall i | 0 <= i < |Walk(t, p)|
      ensures Walk(t, p)[i] in t.procs
    {
      WalkIn(t, p, i);
    }
  }

  lemma WalkIn(t: Table, p: Process, i: nat)
    requires Known(t) && Closed(t) && p in t.procs && i < |Walk(t, p)|
    ensures Walk(t, p)[i] in t.procs
  {
    hide Closed;
    WalkStep(t, p, i);
  }

  // ---------------------------------------------------------------- a status for one process

  /** A status from wait3. */
  datatype Status = Stopped(sig: int) | Signaled(termsig: int, core: bool) | Exited(code: int)

  const SIGINT := 2

  /** The state bit a status stands for. */
  function StateFlag(w: Status): (x: Flag)
    ensures x in PALLSTATES && x != PRUNNING && (x == PSTOPPED <==> w.Stopped?)
  {
    match w
    case Stopped(_) => PSTOPPED
    case Signaled(termsig, _) => if termsig == SIGINT then PINTERRUPTED else PSIGNALED
    case Exited(code) => if code != 0 then PAEXITED else PNEXITED
  }

  function StatusFlags(f: set<Flag>, w: Status): set<Flag> {
    f - {PRUNNING, PSTOPPED, PREPORTED} + {StateFlag(w)} + (if w.Signaled? && w.core then {PDUMPED} else {})
  }

  function StatusReason(w: Status): int {
    match w
    case Stopped(sig) => sig
    case Signaled(termsig, _) => termsig
    case Exited(code) => code
  }

  /** What pchild writes into the record the status is for. */
  function Recorded(r: Rec, w: Status, ru: nat): Rec {
    r.(flags := StatusFlags(r.flags, w), reason := StatusReason(w), usage := if w.Stopped? then r.usage else ru)
  }

  /** A process that runs or is stopped gets exactly the state of its status. */
  lemma StatusState(f: set<Flag>, w: Status)
    requires OneState(f) && f * {PRUNNING, PSTOPPED} != {}
    ensures OneState(StatusFlags(f, w)) && StatusFlags(f, w) * PALLSTATES == {StateFlag(w)}
  {
    assert forall a <- f :: a in PALLSTATES ==> a == PRUNNING || a == PSTOPPED;
    var g := StatusFlags(f, w);
    assert StateFlag(w) in g * PALLSTATES;
  }

  /** One record gets new flags. */
  lemma OneRecGood(t: Table, t': Table, p: Process, r: Rec)
    requires Good(t) && p in t.procs && t' == t.(recs := t.recs[p := r]) && SameLinks(t.recs[p], r) && OneState(r.flags)
    ensures Good(t')
    ensures SameLeaders(t, t')
  {
    hide Closed, Jobs, Listed, Numbered, OneState;
    ShapeKeeps(t, t');
  }

  /** The same records on the same rings, with the same state bits. */
  ghost predicate SameStates(t: Table, t': Table) {
    && Known(t) && Known(t') && t'.procs == t.procs && t'.place == t.place
    && (forall q <- t.procs :: t'.recs[q].flags * PALLSTATES == t.recs[q].flags * PALLSTATES)
  }

  /** f leaves the state bits alone. */
  ghost predicate KeepsState(t: Table, f: Rec -> Rec)
    requires Known(t)
  {
    forall p <- t.procs :: SameLinks(t.recs[p], f(t.recs[p])) && f(t.recs[p]).flags * PALLSTATES == t.recs[p].flags * PALLSTATES
  }

  lemma StateKept(t: Table, f: Rec -> Rec)
    requires Known(t) && KeepsState(t, f)
    ensures FlagChange(t, f)
  {
    hide OneState;
    forall p <- t.procs | OneState(t.recs[p].flags)
      ensures OneState(f(t.recs[p]).flags)
    {
      SameState(t.recs[p].flags, f(t.recs[p]).flags);
    }
  }

  lemma ChangedStates(t: Table, t': Table, p: Process, f: Rec -> Rec)
    requires Good(t) && p in t.procs && t' == t.(recs := t'.recs) && Changed(t, t', p, f) && KeepsState(t, f)
    ensures Good(t') && SameStates(t, t')
    ensures SameLeaders(t, t')
  {
    hide Closed, Jobs, Listed, Numbered, Changed, OneState;
    StateKept(t, f);
    FlagsGood(t, t', p, f);
    forall q <- t.procs
      ensures t'.recs[q].flags * PALLSTATES == t.recs[q].flags * PALLSTATES
    {
      ChangedRec(t, t', p, f, q);
    }
  }

  lemma FlushedStates(t: Table, t': Table, l: Process)
    requires Known(t) && Closed(t) && l in t.procs && Known(t') && t'.procs == t.procs && t'.place == t.place && Changed(t, t', l, Gone)
    ensures SameStates(t, t') && t'.recs[l].pid == 0
  {
    hide Closed, Changed;
    forall q <- t.procs
      ensures t'.recs[q].flags * PALLSTATES == t.recs[q].flags * PALLSTATES
    {
      ChangedRec(t, t', l, Gone, q);
    }
    ChangedRec(t, t', l, Gone, l);
  }

  lemma OneRecStates(t: Table, t': Table, p: Process, f: set<Flag>)
    requires Good(t) && p in t.procs && t' == t.(recs := t.recs[p := t.recs[p].(flags := f)]) && f * PALLSTATES == t.recs[p].flags * PALLSTATES
    ensures Good(t') && SameStates(t, t')
    ensures SameLeaders(t, t')
  {
    hide Closed, Jobs, Listed, Numbered, OneState;
    assert OneState(t.recs[p].flags);
    SameState(t.recs[p].flags, f);
    OneRecGood(t, t', p, t.recs[p].(flags := f));
  }

  lemma RingFirst(t: Table, t': Table, p: Process)
    requires Known(t) && Known(t') && t'.procs == t.procs && t'.place == t.place && t'.recs == t.recs && p in t.procs
    ensures SameStates(t, t') && First(t', p) == First(t, p) && t'.recs[p] == t.recs[p]
  {
  }

  lemma StatesTrans(t: Table, t1: Table, t2: Table)
    requires SameStates(t, t1) && SameStates(t1, t2)
    ensures SameStates(t, t2)
  {
  }

  // ---------------------------------------------------------------- a new record in a job

  ghost function JoinPlace(place: map<Process, Place>, ring: seq<Process>, pp: Process): map<Process, Place> {
    map p | p in place.Keys + {pp} ::
      if p == pp then Place(ring + [pp], |ring|)
      else if place[p].job == ring then Place(ring + [pp], place[p].pos)
      else place[p]
  }

  /** t' is t with record pp, of contents r, at the front of the list and at the end of the ring
      of leader l. */
  ghost predicate Joined(t: Table, t': Table, l: Process, pp: Process, r: Rec) {
    && Known(t) && l in t.procs && pp !in t.procs && pp !in t.place
    && var ring := t.place[l].job;
       var last := ring[|ring| - 1];
       && last in t.procs
       && t'.procs == [pp] + t.procs && t'.first == pp
       && t'.place == JoinPlace(t.place, ring, pp)
       && t'.recs == t.recs[last := t.recs[last].(friends := pp)][pp := r]
       && t'.pcurrjob == t.pcurrjob && t'.pcurrent == t.pcurrent && t'.pprevious == t.pprevious && t'.pmaxindex == t.pmaxindex
       && r.next == t.first && r.friends == l && r.cwd == null && OneState(r.flags)
       && r.pid != 0 && (forall p <- t.procs :: t.recs[p].pid != r.pid)
       && r.index == t.recs[l].index && r.jobid == t.recs[l].pid
  }

  lemma JoinedIs(t: Table, t': Table, l: Process, pp: Process, r: Rec)
    requires Known(t) && l in t.procs && pp !in t.procs && pp !in t.place && l in t.place && t.place[l].job != []
    requires var ring := t.place[l].job;
             var last := ring[|ring| - 1];
             && last in t.procs && last in t.recs
             && t'.place == JoinPlace(t.place, ring, pp)
             && t'.recs == t.recs[last := t.recs[last].(friends := pp)][pp := r]
    requires t'.procs == [pp] + t.procs && t'.first == pp
    requires t'.pcurrjob == t.pcurrjob && t'.pcurrent == t.pcurrent && t'.pprevious == t.pprevious && t'.pmaxindex == t.pmaxindex
    requires r.next == t.first && r.friends == l && r.cwd == null && OneState(r.flags)
    requires r.pid != 0 && (forall p <- t.procs :: p in t.recs && t.recs[p].pid != r.pid)
    requires l in t.recs && r.index == t.recs[l].index && r.jobid == t.recs[l].pid
    ensures Joined(t, t', l, pp, r)
  {
    hide Known, OneState, JoinPlace;
  }

  lemma JoinedCwd(t: Table, t': Table, l: Process, pp: Process, r: Rec)
    requires Joined(t, t', l, pp, r)
    ensures r.cwd == null
  {
    hide JoinPlace, OneState;
  }

  lemma JoinBasics(t: Table, t': Table, l: Process, pp: Process, r: Rec)
    requires Joined(t, t', l, pp, r)
    ensures Known(t) && l in t.procs && pp !in t.procs && t'.procs == [pp] + t.procs && t'.pmaxindex == t.pmaxindex && r.index == t.recs[l].index
    ensures t'.first == pp && r.next == t.first && r.friends == l && |t.place[l].job| > 0
  {
    hide JoinPlace, OneState;
  }

  /** An old record, and the new one. */
  lemma JoinAt(t: Table, t': Table, l: Process, pp: Process, r: Rec, p: Process)
    requires Joined(t, t', l, pp, r) && p in t'.procs
    ensures p in t'.recs && p in t'.place
    ensures p == pp ==> t'.recs[p] == r && t'.place[p] == Place(t.place[l].job + [pp], |t.place[l].job|)
    ensures p != pp ==> p in t.procs && t'.recs[p].(friends := t.recs[p].friends) == t.recs[p]
    ensures p != pp ==> t'.recs[p].friends == if p == t.place[l].job[|t.place[l].job| - 1] then pp else t.recs[p].friends
    ensures p != pp ==> t'.place[p] == if t.place[p].job == t.place[l].job then Place(t.place[l].job + [pp], t.place[p].pos) else t.place[p]
  {
  }

  /** A list with one record more at its front. */
  lemma FrontListed(t: Table, t': Table, pp: Process)
    requires Known(t) && Known(t') && Listed(t) && pp !in t.procs && t'.procs == [pp] + t.procs && t'.first == pp
    requires t'.recs[pp].next == t.first && forall p <- t.procs :: t'.recs[p].next == t.recs[p].next
    ensures Listed(t')
  {
    assert forall k :: 0 < k < |t'.procs| ==> t'.procs[k] == t.procs[k - 1];
    forall k | 0 <= k < |t'.procs|
      ensures t'.recs[t'.procs[k]].next == Nth(t'.procs, k + 1)
    {
      if k > 0 {
        assert t.recs[t.procs[k - 1]].next == Nth(t.procs, k);
      }
    }
  }

  lemma JoinList(t: Table, t': Table, l: Process, pp: Process, r: Rec)
    requires Joined(t, t', l, pp, r) && Listed(t)
    ensures Known(t') && Listed(t')
  {
    hide Joined, Listed;
    JoinBasics(t, t', l, pp, r);
    forall p <- t'.procs
      ensures p in t'.recs && p in t'.place && t'.place[p].pos < |t'.place[p].job| && t'.place[p].job[t'.place[p].pos] == p
      ensures t'.recs[p].next == if p == pp then t.first else t.recs[p].next
    {
      JoinAt(t, t', l, pp, r, p);
      if p != pp {
        KnownAt(t, p);
      }
    }
    FrontListed(t, t', pp);
  }

  /** Where the members of the enlarged ring are. */
  lemma JoinMember(t: Table, t': Table, l: Process, pp: Process, r: Rec, i: nat)
    requires Joined(t, t', l, pp, r) && Closed(t) && i <= |t.place[l].job|
    ensures var job := t.place[l].job + [pp]; job[i] in t'.procs && t'.place[job[i]] == Place(job, i)
  {
    hide Closed;
    if i < |t.place[l].job| {
      Member(t, l, i);
    }
  }

  /** The ring of a record of the enlarged job. */
  lemma JoinOwn(t: Table, t': Table, l: Process, pp: Process, r: Rec, p: Process)
    requires Joined(t, t', l, pp, r) && Closed(t) && Known(t') && t.place[l].pos == 0 && p in t'.procs
    requires p == pp || t.place[p].job == t.place[l].job
    ensures RingOf(t', p)
  {
    hide Closed, Joined;
    JoinBasics(t, t', l, pp, r);
    KnownAt(t, l);
    JoinAt(t, t', l, pp, r, p);
    var ring := t.place[l].job;
    var job := ring + [pp];
    forall i: nat | i < |job|
      ensures job[i] in t'.procs && t'.place[job[i]] == Place(job, i)
    {
      JoinMember(t, t', l, pp, r, i);
    }
    if p != pp {
      Friend(t, p);
      Member(t, l, |ring| - 1);
      Member(t, l, t.place[p].pos);
    }
  }

  /** The ring of any other record. */
  lemma JoinOther(t: Table, t': Table, l: Process, pp: Process, r: Rec, p: Process)
    requires Joined(t, t', l, pp, r) && Closed(t) && Known(t') && p in t.procs && t.place[p].job != t.place[l].job
    ensures RingOf(t', p)
  {
    hide Closed, Joined;
    JoinBasics(t, t', l, pp, r);
    KnownAt(t, p);
    KnownAt(t, l);
    var job := t.place[p].job;
    forall i: nat | i < |job|
      ensures job[i] in t'.procs && t'.place[job[i]] == Place(job, i)
    {
      Member(t, p, i);
      JoinAt(t, t', l, pp, r, job[i]);
    }
    JoinAt(t, t', l, pp, r, p);
    Friend(t, p);
    Member(t, l, |t.place[l].job| - 1);
  }

  lemma JoinRings(t: Table, t': Table, l: Process, pp: Process, r: Rec)
    requires Joined(t, t', l, pp, r) && Closed(t) && Known(t') && t.place[l].pos == 0
    ensures Closed(t')
  {
    hide Closed, RingOf;
    forall p <- t'.procs
      ensures RingOf(t', p)
    {
      if p == pp || t.place[p].job == t.place[l].job {
        JoinOwn(t, t', l, pp, r, p);
      } else {
        JoinOther(t, t', l, pp, r, p);
      }
    }
    ClosedIs(t');
  }

  lemma ClosedIs(t: Table)
    requires Known(t) && forall p <- t.procs :: RingOf(t, p)
    ensures Closed(t)
  {
    hide RingOf;
  }

  lemma JoinJobs(t: Table, t': Table, l: Process, pp: Process, r: Rec)
    requires Joined(t, t', l, pp, r) && Closed(t) && Jobs(t) && Leader(t, l) && t.place[l].pos == 0 && Known(t') && Closed(t')
    ensures Jobs(t')
  {
    hide Closed, JoinPlace;
    Friend(t, l);
    assert l in t'.procs;
    JoinAt(t, t', l, pp, r, l);
    forall p <- t'.procs
      ensures First(t', p) in t'.recs && JobOf(t', p)
      ensures t'.recs[p].pid == if p == pp then r.pid else t.recs[p].pid
    {
      JoinAt(t, t', l, pp, r, p);
      assert JobOf(t, l);
      if p != pp {
        Friend(t, p);
        assert First(t, p) in t'.procs;
        JoinAt(t, t', l, pp, r, First(t, p));
        assert JobOf(t, p);
      }
    }
  }

  lemma JoinPair(t: Table, t': Table, l: Process, pp: Process, r: Rec, p: Process, q: Process)
    requires Joined(t, t', l, pp, r) && Unshared(t) && Known(t') && p in t'.procs && q in t'.procs
    requires t'.recs[p].index == t'.recs[q].index && t'.recs[p].index > 0
    ensures t'.place[p].job == t'.place[q].job
  {
    hide JoinPlace, Known;
    JoinAt(t, t', l, pp, r, p);
    JoinAt(t, t', l, pp, r, q);
  }

  lemma JoinNumbers(t: Table, t': Table, l: Process, pp: Process, r: Rec)
    requires Joined(t, t', l, pp, r) && Numbered(t) && Known(t')
    ensures Numbered(t')
  {
    hide Joined, Unshared;
    JoinBasics(t, t', l, pp, r);
    JoinUnshared(t, t', l, pp, r);
    forall p <- t'.procs
      ensures t'.recs[p].index == t.recs[if p == pp then l else p].index
    {
      JoinAt(t, t', l, pp, r, p);
    }
    if 0 < t.pmaxindex <= CHARMAX {
      var p := LargestShown(t);
      assert p in t'.procs;
      Shown(t', p);
    }
  }

  lemma JoinUnshared(t: Table, t': Table, l: Process, pp: Process, r: Rec)
    requires Joined(t, t', l, pp, r) && Unshared(t) && Known(t')
    ensures Unshared(t')
  {
    hide Joined;
    forall p <- t'.procs, q <- t'.procs | t'.recs[p].index == t'.recs[q].index && t'.recs[p].index > 0
      ensures t'.place[p].job == t'.place[q].job
    {
      JoinPair(t, t', l, pp, r, p, q);
    }
  }

  lemma JoinRest(t: Table, t': Table, l: Process, pp: Process, r: Rec)
    requires Joined(t, t', l, pp, r) && Known(t') && Currents(t) && States(t) && Cwds(t)
    ensures Currents(t') && States(t') && Cwds(t')
  {
    hide OneState, JoinPlace;
    forall p <- t'.procs
      ensures p == pp || p in t.procs
    {
    }
    JoinAt(t, t', l, pp, r, pp);
    forall p <- t.procs
      ensures p in t'.procs && t'.recs[p].flags == t.recs[p].flags && t'.recs[p].cwd == t.recs[p].cwd && t'.place[p].pos == t.place[p].pos
      ensures Leader(t, p) ==> Leader(t', p)
    {
      assert p in t'.procs;
      JoinAt(t, t', l, pp, r, p);
    }
  }

  lemma JoinGood(t: Table, t': Table, l: Process, pp: Process, r: Rec)
    requires Good(t) && Leader(t, l) && Joined(t, t', l, pp, r)
    ensures Good(t')
  {
    hide Closed, Jobs, Numbered, Currents, States, Cwds, Listed, Joined;
    LeaderIsFirst(t, l);
    JoinList(t, t', l, pp, r);
    JoinRings(t, t', l, pp, r);
    JoinJobs(t, t', l, pp, r);
    JoinNumbers(t, t', l, pp, r);
    JoinRest(t, t', l, pp, r);
  }

  // ---------------------------------------------------------------- the number of a new job

  ghost predicate Taken(t: Table, i: int)
    requires Known(t)
  {
    exists p <- t.procs :: t.recs[p].index == i
  }

  /** The first number from i on that no record shows; 128 fits no char, so none shows it. */
  ghost function FreeFrom(t: Table, i: nat): (r: nat)
    requires Known(t) && 1 <= i <= CHARMAX + 1
    ensures i <= r <= CHARMAX + 1 && !Taken(t, r) && forall j :: i <= j < r ==> Taken(t, j)
    decreases CHARMAX + 1 - i
  {
    if i > CHARMAX || !Taken(t, i) then i else FreeFrom(t, i + 1)
  }

  lemma TakenIsChar(t: Table, i: nat)
    requires Known(t) && Taken(t, i)
    ensures i <= CHARMAX
  {
  }

  lemma SameLargest(t: Table, t': Table, n: nat)
    requires Known(t) && t'.procs == t.procs && t'.recs == t.recs && t'.place == t.place && Largest(t, n)
    ensures Known(t') && Largest(t', n)
  {
  }

  lemma LargestIsChar(t: Table, n: nat)
    requires Known(t) && Largest(t, n)
    ensures n <= CHARMAX
  {
  }

  lemma SameNumber(t: Table, t': Table)
    requires Known(t) && Known(t') && t'.procs == t.procs && t'.recs == t.recs && t'.pmaxindex == t.pmaxindex
    ensures NewNumber(t') == NewNumber(t)
  {
    hide FreeFrom;
    assert forall i: int :: Taken(t, i) <==> Taken(t', i);
    assert FreeFrom(t, 1) == FreeFrom(t', 1);
  }

  /** What palloc chooses: the next number up to BIGINDEX, else the smallest free one. */
  ghost function NewNumber(t: Table): (n: nat)
    requires Known(t)
    ensures n > 0
  {
    if t.pmaxindex < BIGINDEX then t.pmaxindex + 1 else FreeFrom(t, 1)
  }

  /** The chosen number fits a char. */
  ghost predicate Room(t: Table)
    requires Known(t)
  {
    t.pmaxindex < BIGINDEX || exists i :: 1 <= i <= CHARMAX && !Taken(t, i)
  }

  lemma NewNumberFits(t: Table)
    requires Known(t) && Numbered(t)
    ensures !Taken(t, NewNumber(t)) && NewNumber(t) <= CHARMAX + 1
    ensures NewNumber(t) <= CHARMAX <==> Room(t)
  {
  }

  /** With the first n numbers taken and none above, the next is n + 1, also where that is 128. */
  lemma NextNumber(t: Table, n: nat)
    requires Known(t) && Numbered(t) && n <= CHARMAX && (t.pmaxindex == n || (n == CHARMAX && t.pmaxindex > n))
    requires forall i :: 1 <= i <= n ==> Taken(t, i)
    ensures NewNumber(t) == n + 1
  {
    assert !Taken(t, n + 1);
    assert FreeFrom(t, 1) <= n + 1;
  }

  /** Without a wrapped number everything promised of job numbers holds, and only then. */
  lemma NumbersIff(t: Table)
    requires Good(t)
    ensures Numbers(t) <==> t.pmaxindex <= CHARMAX
  {
    hide Closed, Jobs, Listed, Currents, States, Cwds;
  }

  ghost function Leaders(t: Table): set<Process> {
    set p | p in t.procs && Leader(t, p)
  }

  /** A number shown is that of a live leader. */
  lemma TakenByLeader(t: Table, i: int) returns (l: Process)
    requires Good(t) && Taken(t, i) && i != 0
    ensures l in Leaders(t) && t.recs[l].index == i
  {
    hide Closed, Jobs, Listed, Currents, States, Cwds, Numbered;
    var p :| p in t.procs && t.recs[p].index == i;
    Friend(t, p);
    l := First(t, p);
    LiveJob(t, p);
    LeaderIsFirst(t, p);
  }

  lemma LiveJob(t: Table, p: Process)
    requires Known(t) && Closed(t) && Jobs(t) && p in t.procs && t.recs[p].index != 0
    ensures t.recs[p].pid != 0 && First(t, p) in t.recs && t.recs[First(t, p)].index == t.recs[p].index
  {
    hide Closed;
    Friend(t, p);
    assert JobOf(t, p);
  }

  /** The first n numbers are taken by n different leaders. */
  lemma {:induction false} Crowded(t: Table, n: nat) returns (ls: set<Process>)
    requires Good(t) && forall i :: 1 <= i <= n ==> Taken(t, i)
    ensures |ls| == n && ls <= Leaders(t) && forall l <- ls :: l in t.recs && 1 <= t.recs[l].index <= n
  {
    hide Good, Leaders;
    ls := {};
    if n > 0 {
      ls := Crowded(t, n - 1);
      var l := TakenByLeader(t, n);
      LeaderKnown(t, l);
      ls := ls + {l};
    }
  }

  lemma LeaderKnown(t: Table, l: Process)
    requires l in Leaders(t)
    ensures l in t.recs
  {
  }

  /** With fewer than 127 jobs there is room. */
  lemma FewJobsHaveRoom(t: Table)
    requires Good(t) && |Leaders(t)| < CHARMAX
    ensures Room(t)
  {
    hide Closed, Jobs, Listed, Currents, States, Cwds, Numbered, Leaders;
    if !Room(t) {
      var ls := Crowded(t, CHARMAX);
      SubsetSize(ls, Leaders(t));
    }
  }

  lemma SubsetSize(a: set<Process>, b: set<Process>)
    requires a <= b
    ensures |a| <= |b|
  {
    assert b == a + (b - a);
  }

  // ---------------------------------------------------------------- a new job

  /** t' is t with record pp, of contents r, at the front of the list as a job of its own. */
  ghost predicate Begun(t: Table, t': Table, pp: Process, r: Rec) {
    && Known(t) && pp !in t.procs && pp !in t.place
    && t'.procs == [pp] + t.procs && t'.first == pp
    && t'.place == t.place[pp := Place([pp], 0)]
    && t'.recs == t.recs[pp := r]
    && r.next == t.first && r.friends == pp && r.cwd != null && OneState(r.flags)
    && r.pid != 0 && r.jobid == r.pid && (forall p <- t.procs :: t.recs[p].pid != r.pid)
    && r.index == ToChar(NewNumber(t))
    && t'.pmaxindex == (if NewNumber(t) > t.pmaxindex then NewNumber(t) else t.pmaxindex)
    && t'.pcurrjob == pp
    && t'.pcurrent == (if t.pcurrent == null then pp else t.pcurrent)
    && t'.pprevious == (if t.pcurrent != null && t.pprevious == null then pp else t.pprevious)
  }

  lemma BegunIs(t: Table, t': Table, pp: Process, r: Rec)
    requires Known(t) && pp !in t.procs && pp !in t.place
    requires t'.procs == [pp] + t.procs && t'.first == pp
    requires t'.place == t.place[pp := Place([pp], 0)]
    requires t'.recs == t.recs[pp := r]
    requires r.next == t.first && r.friends == pp && r.cwd != null && OneState(r.flags)
    requires r.pid != 0 && r.jobid == r.pid && (forall p <- t.procs :: p in t.recs && t.recs[p].pid != r.pid)
    requires r.index == ToChar(NewNumber(t))
    requires t'.pmaxindex == (if NewNumber(t) > t.pmaxindex then NewNumber(t) else t.pmaxindex)
    requires t'.pcurrjob == pp
    requires t'.pcurrent == (if t.pcurrent == null then pp else t.pcurrent)
    requires t'.pprevious == (if t.pcurrent != null && t.pprevious == null then pp else t.pprevious)
    ensures Begun(t, t', pp, r)
  {
    hide Known, OneState;
  }

  /** An old record, and the new one. */
  lemma BegunAt(t: Table, t': Table, pp: Process, r: Rec, p: Process)
    requires Begun(t, t', pp, r) && p in t'.procs
    ensures p in t'.recs && p in t'.place
    ensures p == pp ==> t'.recs[p] == r && t'.place[p] == Place([pp], 0)
    ensures p != pp ==> p in t.procs && t'.recs[p] == t.recs[p] && t'.place[p] == t.place[p]
  {
    hide NewNumber, ToChar, OneState;
  }

  lemma BegunShape(t: Table, t': Table, pp: Process, r: Rec)
    requires Begun(t, t', pp, r)
    ensures Known(t) && pp !in t.procs && t'.procs == [pp] + t.procs && t'.first == pp
    ensures r.next == t.first && r.friends == pp && r.pid != 0 && r.jobid == r.pid && r.index != 0
    ensures forall p <- t.procs :: t.recs[p].pid != r.pid
  {
    hide FreeFrom, OneState;
  }

  lemma BeginList(t: Table, t': Table, pp: Process, r: Rec)
    requires Begun(t, t', pp, r) && Listed(t)
    ensures Known(t') && Listed(t')
  {
    hide Begun, Listed;
    BegunShape(t, t', pp, r);
    forall p <- t'.procs
      ensures p in t'.recs && p in t'.place && t'.place[p].pos < |t'.place[p].job| && t'.place[p].job[t'.place[p].pos] == p
      ensures t'.recs[p].next == if p == pp then t.first else t.recs[p].next
    {
      BegunAt(t, t', pp, r, p);
    }
    FrontListed(t, t', pp);
  }

  lemma BeginRings(t: Table, t': Table, pp: Process, r: Rec)
    requires Begun(t, t', pp, r) && Closed(t) && Known(t')
    ensures Closed(t')
  {
    hide Closed, Begun, RingOf;
    BegunShape(t, t', pp, r);
    forall p <- t'.procs
      ensures RingOf(t', p)
    {
      if p == pp {
        OwnRing(t, t', pp, r);
      } else {
        OldRing(t, t', pp, r, p);
      }
    }
    ClosedIs(t');
  }

  lemma OwnRing(t: Table, t': Table, pp: Process, r: Rec)
    requires Begun(t, t', pp, r) && Known(t') && pp in t'.procs
    ensures RingOf(t', pp)
  {
    hide Begun;
    BegunShape(t, t', pp, r);
    BegunAt(t, t', pp, r, pp);
  }

  lemma OldRing(t: Table, t': Table, pp: Process, r: Rec, p: Process)
    requires Begun(t, t', pp, r) && Closed(t) && Known(t') && p in t.procs && p in t'.procs
    ensures RingOf(t', p)
  {
    hide Closed, Begun;
    BegunShape(t, t', pp, r);
    BegunAt(t, t', pp, r, p);
    Friend(t, p);
    var job := t.place[p].job;
    forall i: nat | i < |job|
      ensures job[i] in t'.procs && t'.place[job[i]] == Place(job, i)
    {
      Member(t, p, i);
      BegunAt(t, t', pp, r, job[i]);
    }
  }

  lemma BeginJobs(t: Table, t': Table, pp: Process, r: Rec)
    requires Begun(t, t', pp, r) && Closed(t) && Jobs(t) && Known(t') && Closed(t')
    ensures Jobs(t')
  {
    hide Closed, Begun;
    BegunShape(t, t', pp, r);
    forall p <- t'.procs
      ensures First(t', p) in t'.recs && JobOf(t', p)
      ensures t'.recs[p].pid == if p == pp then r.pid else t.recs[p].pid
    {
      BegunAt(t, t', pp, r, p);
      if p != pp {
        Friend(t, p);
        assert First(t, p) in t'.procs;
        BegunAt(t, t', pp, r, First(t, p));
        assert JobOf(t, p);
      }
    }
  }

  lemma BeginRest(t: Table, t': Table, pp: Process, r: Rec)
    requires Begun(t, t', pp, r) && Known(t') && Currents(t) && States(t) && Cwds(t)
    ensures Currents(t') && States(t') && Cwds(t')
  {
    hide OneState, NewNumber, ToChar;
  }

  lemma BeginNumbers(t: Table, t': Table, pp: Process, r: Rec)
    requires Begun(t, t', pp, r) && Known(t') && Numbered(t)
    ensures Numbered(t')
  {
    hide Begun, Unshared, FreeFrom;
    BegunShape(t, t', pp, r);
    BegunNumber(t, t', pp, r);
    NewNumberFits(t);
    BeginUnshared(t, t', pp, r);
    forall p <- t'.procs
      ensures t'.recs[p].index == if p == pp then r.index else t.recs[p].index
    {
      BegunAt(t, t', pp, r, p);
    }
    assert pp in t'.procs;
    if 0 < t'.pmaxindex <= CHARMAX {
      if NewNumber(t) > t.pmaxindex {
        Shown(t', pp);
      } else {
        var p := LargestShown(t);
        assert p in t'.procs;
        Shown(t', p);
      }
    }
  }

  lemma BegunNumber(t: Table, t': Table, pp: Process, r: Rec)
    requires Begun(t, t', pp, r)
    ensures r.index == ToChar(NewNumber(t)) && t'.pmaxindex == (if NewNumber(t) > t.pmaxindex then NewNumber(t) else t.pmaxindex)
  {
    hide NewNumber, ToChar, OneState;
  }

  lemma BeginUnshared(t: Table, t': Table, pp: Process, r: Rec)
    requires Begun(t, t', pp, r) && Known(t') && Numbered(t)
    ensures Unshared(t')
  {
    hide Begun, FreeFrom;
    BegunShape(t, t', pp, r);
    BegunNumber(t, t', pp, r);
    NewNumberFits(t);
    forall p <- t'.procs
      ensures t'.recs[p].index == (if p == pp then r.index else t.recs[p].index)
      ensures p != pp ==> t'.place[p] == t.place[p] && (r.index > 0 ==> t.recs[p].index != r.index)
    {
      BegunAt(t, t', pp, r, p);
    }
  }

  lemma BegunTaken(t: Table, t': Table, pp: Process, r: Rec)
    requires Begun(t, t', pp, r) && Known(t')
    ensures Taken(t', r.index) && forall i :: Taken(t, i) ==> Taken(t', i)
  {
    hide Begun, Taken;
    BegunShape(t, t', pp, r);
    BegunAt(t, t', pp, r, pp);
    TakenBy(t', pp);
    forall i | Taken(t, i)
      ensures Taken(t', i)
    {
      var p := TakenWho(t, i);
      assert p in t'.procs;
      BegunAt(t, t', pp, r, p);
      TakenBy(t', p);
    }
  }

  lemma SameTaken(t: Table, t': Table, i: int)
    requires Known(t) && Known(t') && t'.procs == t.procs && t'.recs == t.recs && Taken(t, i)
    ensures Taken(t', i)
  {
  }

  lemma TakenBy(t: Table, p: Process)
    requires Known(t) && p in t.procs
    ensures Taken(t, t.recs[p].index)
  {
  }

  lemma TakenWho(t: Table, i: int) returns (p: Process)
    requires Known(t) && Taken(t, i)
    ensures p in t.procs && t.recs[p].index == i
  {
    p :| p in t.procs && t.recs[p].index == i;
  }

  /** The numbers stay what they promise exactly when they were and the new one fits. */
  lemma BeginFits(t: Table, t': Table, pp: Process, r: Rec)
    requires Good(t) && Good(t') && Begun(t, t', pp, r)
    ensures Numbers(t') <==> Numbers(t) && Room(t)
  {
    hide Closed, Jobs, Listed, Currents, States, Cwds, OneState, FreeFrom;
    NumbersIff(t);
    NumbersIff(t');
    NewNumberFits(t);
  }

  lemma BeginGood(t: Table, t': Table, pp: Process, r: Rec)
    requires Good(t) && Begun(t, t', pp, r)
    ensures Good(t')
  {
    hide Closed, Jobs, Numbered, Currents, States, Cwds, Listed, Begun;
    BeginList(t, t', pp, r);
    BeginRings(t, t', pp, r);
    BeginJobs(t, t', pp, r);
    BeginNumbers(t, t', pp, r);
    BeginRest(t, t', pp, r);
  }

  lemma RingHead(t: Table, l: Process)
    requires Good(t) && Leader(t, l)
    ensures l in t.procs && l in t.place && t.place[l].pos == 0 && t.place[l].job != []
  {
    hide Closed;
    LeaderIsFirst(t, l);
  }

  // ---------------------------------------------------------------- sweeping the flushed records

  /** t' keeps exactly the live records of t, linked anew. */
  ghost predicate Swept(t: Table, t': Table)
    requires Known(t)
  {
    && (forall p <- t'.procs :: p in t.procs && t.recs[p].pid != 0)
    && (forall p <- t.procs :: t.recs[p].pid != 0 ==> p in t'.procs)
    && (forall p <- t'.procs :: p in t'.recs && t'.recs[p].(next := t.recs[p].next) == t.recs[p])
    && t'.place == t.place && t'.pcurrjob == t.pcurrjob && t'.pcurrent == t.pcurrent
    && t'.pprevious == t.pprevious && t'.pmaxindex == t.pmaxindex
  }

  lemma SweepRings(t: Table, t': Table)
    requires Known(t) && Closed(t) && Jobs(t) && Swept(t, t')
    ensures Known(t') && Closed(t')
  {
    hide Closed, Jobs;
    forall p <- t'.procs
      ensures RingOf(t', p)
    {
      SweepRing(t, t', p);
    }
    ClosedIs(t');
  }

  lemma SweepRing(t: Table, t': Table, p: Process)
    requires Known(t) && Closed(t) && Jobs(t) && Swept(t, t') && Known(t') && p in t'.procs
    ensures RingOf(t', p)
  {
    hide Closed, Jobs;
    var job := t.place[p].job;
    Friend(t, p);
    forall i: nat | i < |job|
      ensures job[i] in t'.procs && t'.place[job[i]] == Place(job, i)
    {
      Member(t, p, i);
      LiveTogether(t, p, job[i]);
    }
  }

  lemma SweepJobs(t: Table, t': Table)
    requires Known(t) && Closed(t) && Jobs(t) && Swept(t, t') && Known(t') && Closed(t')
    ensures Jobs(t')
  {
    hide Closed;
    forall p <- t'.procs
      ensures First(t', p) in t'.recs && JobOf(t', p)
    {
      Friend(t', p);
      Friend(t, p);
      assert JobOf(t, p);
    }
  }

  lemma SweepRest(t: Table, t': Table)
    requires Known(t) && Swept(t, t') && Known(t') && Currents(t) && States(t) && Cwds(t)
    ensures Currents(t') && States(t') && Cwds(t')
  {
    hide OneState;
  }

  lemma SweepNumbers(t: Table, t': Table)
    requires Known(t) && Closed(t) && Jobs(t) && Swept(t, t') && Known(t') && Numbered(t)
    ensures Numbered(t')
  {
    hide Closed, Jobs, Unshared;
    SweepUnshared(t, t');
    if 0 < t.pmaxindex <= CHARMAX {
      var p := LargestShown(t);
      LiveJob(t, p);
      Shown(t', p);
    }
  }

  lemma SweepUnshared(t: Table, t': Table)
    requires Known(t) && Swept(t, t') && Known(t') && Unshared(t)
    ensures Unshared(t')
  {
  }

  lemma SweepGood(t: Table, t': Table)
    requires Good(t) && Swept(t, t') && (Known(t') ==> Listed(t'))
    ensures Good(t')
  {
    hide Closed, Jobs, Numbered, Currents, States, Cwds, Listed;
    SweepRings(t, t');
    SweepJobs(t, t');
    SweepNumbers(t, t');
    SweepRest(t, t');
  }

  // ---------------------------------------------------------------- steps that concern one job

  /** Records of other jobs than that of p are as they were; those of its job keep their links,
      and their pid and number too, unless the job is gone. */
  ghost predicate OnlyJob(t: Table, t': Table, p: Process, gone: bool) {
    && Known(t) && Known(t') && p in t.procs && t'.procs == t.procs && t'.place == t.place
    && (forall q <- t.procs :: OnlyRec(t, t', p, gone, q))
  }

  ghost predicate OnlyRec(t: Table, t': Table, p: Process, gone: bool, q: Process)
    requires Known(t) && Known(t') && p in t.procs && q in t.procs && t'.procs == t.procs
  {
    if t.place[q].job != t.place[p].job then t'.recs[q] == t.recs[q]
    else SameLinks(if gone then t.recs[q].(pid := 0, index := 0) else t.recs[q], t'.recs[q])
  }

  lemma OnlyTrans(t: Table, t1: Table, t2: Table, p: Process, gone: bool)
    requires OnlyJob(t, t1, p, false) && OnlyJob(t1, t2, p, gone)
    ensures OnlyJob(t, t2, p, gone)
  {
    hide Known;
    forall q <- t.procs
      ensures Known(t) && Known(t2) && p in t.procs && OnlyRec(t, t2, p, gone, q)
    {
      KnownAt(t, q);
      assert OnlyRec(t, t1, p, false, q) && OnlyRec(t1, t2, p, gone, q);
    }
  }

  lemma OnlyAlike(t: Table, t': Table, p: Process, q: Process)
    requires OnlyJob(t, t', p, false) && q in t.procs && t.place[q].job == t.place[p].job
    ensures OnlyJob(t, t', q, false)
  {
    forall x <- t.procs
      ensures OnlyRec(t, t', q, false, x)
    {
      assert OnlyRec(t, t', p, false, x);
    }
  }

  lemma OnlyFirst(t: Table, t': Table, p: Process)
    requires OnlyJob(t, t', p, false)
    ensures Known(t) && Known(t') && p in t.procs && p in t'.procs && First(t', p) == First(t, p)
  {
  }

  lemma OnlySame(t: Table, t': Table, p: Process)
    requires Known(t) && Known(t') && p in t.procs && t'.procs == t.procs && t'.place == t.place && t'.recs == t.recs
    ensures OnlyJob(t, t', p, false)
  {
  }

  lemma OnlyOne(t: Table, t': Table, p: Process, q: Process, r: Rec)
    requires Known(t) && Known(t') && p in t.procs && q in t.procs && t.place[q].job == t.place[p].job
    requires t'.procs == t.procs && t'.place == t.place && t'.recs == t.recs[q := r] && SameLinks(t.recs[q], r)
    ensures OnlyJob(t, t', p, false)
  {
  }

  lemma OnlyChanged(t: Table, t': Table, p: Process, f: Rec -> Rec)
    requires Known(t) && Closed(t) && Known(t') && p in t.procs && t'.procs == t.procs && t'.place == t.place
    requires Changed(t, t', p, f) && KeepsState(t, f)
    ensures OnlyJob(t, t', p, false)
  {
    hide Closed, Changed;
    forall q <- t.procs
      ensures OnlyRec(t, t', p, false, q)
    {
      ChangedRec(t, t', p, f, q);
    }
  }

  lemma OnlyGone(t: Table, t': Table, l: Process, p: Process)
    requires Known(t) && Closed(t) && Known(t') && l in t.procs && p in t.procs && t.place[l].job == t.place[p].job
    requires t'.procs == t.procs && t'.place == t.place && Changed(t, t', l, Gone)
    ensures OnlyJob(t, t', p, true)
  {
    hide Closed, Changed;
    forall q <- t.procs
      ensures OnlyRec(t, t', p, true, q)
    {
      ChangedRec(t, t', l, Gone, q);
    }
  }
}
