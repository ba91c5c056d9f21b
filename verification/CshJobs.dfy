/** The job table as the shell updates it (bin/csh/sh.proc.c). */
module CshJobs {
  import opened Options
  import opened CshDirectory
  import opened CshJobTable

  class JobTable {
    var first: Process?
    var pcurrjob: Process?
    var pcurrent: Process?
    var pprevious: Process?
    var pmaxindex: nat
    ghost var procs: seq<Process>
    ghost var place: map<Process, Place>

    ghost function Recs(): map<Process, Rec>
      reads this`procs, procs
    {
      map p | p in procs :: p.Get()
    }

    /** Everything the invariant speaks of. */
    ghost function Tab(): Table
      reads this, procs
    {
      Table(procs, Recs(), place, first, pcurrjob, pcurrent, pprevious, pmaxindex)
    }

    ghost predicate Valid()
      reads this, procs
    {
      Good(Tab())
    }

    constructor ()
      ensures Valid() && procs == [] && pcurrjob == null && pmaxindex == 0
    {
      first, pcurrjob, pcurrent, pprevious, pmaxindex := null, null, null, null, 0;
      procs, place := [], map[];
    }

    lemma RecOf(p: Process)
      requires p in procs
      ensures p in Recs() && Recs()[p] == p.Get()
    {
    }

    // -------------------------------------------------------------- assignments through a pointer

    method SetFlags(p: Process, f: set<Flag>)
      requires p in procs
      modifies p`flags
      ensures Recs() == old(Recs())[p := old(Recs())[p].(flags := f)]
    {
      p.flags := f;
    }

    method SetGone(p: Process)
      requires p in procs
      modifies p`pid, p`index, p`flags
      ensures Recs() == old(Recs())[p := Gone(old(Recs())[p])]
    {
      p.index, p.pid := 0, 0;
      p.flags := p.flags - {PNEEDNOTE};
    }

    // -------------------------------------------------------------- reading

    /** Follow friends up to the leader. */
    method FindLeader(p: Process) returns (fp: Process)
      requires Valid() && p in procs && p.pid != 0
      ensures fp == First(Tab(), p) && Leader(Tab(), fp) && fp in procs
    {
      hide Closed, Jobs, Listed, Numbered, Currents, States, Cwds;
      ghost var t := Tab();
      fp := p;
      LeaderIsFirst(t, fp);
      while fp.pid != fp.jobid
        invariant fp in procs && fp.pid != 0 && place[fp].job == place[p].job
        invariant Leader(t, fp) <==> place[fp].pos == 0
        decreases if place[fp].pos == 0 then 0 else |place[p].job| - place[fp].pos
      {
        Friend(t, fp);
        LiveTogether(t, fp, fp.friends);
        fp := fp.friends;
        LeaderIsFirst(t, fp);
      }
      Friend(t, fp);
    }

    /** pgetcurr: the most recent job that is neither current nor pp, preferably stopped. */
    method Pgetcurr(pp: Process) returns (xp: Process?)
      requires Known(Tab()) && Listed(Tab())
      ensures Choice(Tab(), pp, xp)
    {
      hide Known, Recs, Listed, Leader, NoneBefore, NoStopped, Chosen;
      ghost var t := Tab();
      xp := null;
      ghost var k, x := 0, 0;
      var np := first;
      Head();
      NoneYet(t, pp);
      while np != null
        invariant k <= |procs| && np == Nth(procs, k)
        invariant NoStopped(t, k, pp)
        invariant xp == null ==> NoneBefore(t, k, pp)
        invariant xp != null ==> x < k && procs[x] == xp && Candidate(t, xp, pp) && !StoppedAt(t, x) && NoneBefore(t, x, pp)
        decreases |procs| - k
      {
        RecOf(np);
        Step(k);
        LeaderTest(np);
        if np != pcurrent && np != pp && np.pid != 0 && np.pid == np.jobid {
          if PSTOPPED in np.flags {
            StoppedChosen(t, k, pp);
            return np;
          }
          if xp == null {
            xp := np;
            x := k;
          }
        }
        OneMore(t, k, pp);
        np := np.next;
        k := k + 1;
      }
      if xp != null {
        OtherChosen(t, x, pp);
      } else {
        NoChoice(t, pp);
      }
    }

    /** The beginning of the list, and the link from record k. */
    lemma Head()
      requires Known(Tab()) && Listed(Tab())
      ensures first == Nth(procs, 0)
    {
    }

    lemma Step(k: nat)
      requires Known(Tab()) && Listed(Tab()) && k < |procs|
      ensures procs[k].next == Nth(procs, k + 1)
    {
      hide Known;
      RecOf(procs[k]);
    }

    lemma LeaderTest(p: Process)
      requires p in procs
      ensures Leader(Tab(), p) <==> p.pid != 0 && p.pid == p.jobid
    {
      RecOf(p);
    }

    /** pclrcurr: pp, a live leader, is no longer current or previous. */
    method Pclrcurr(pp: Process)
      requires Valid() && Leader(Tab(), pp)
      modifies this`pcurrent, this`pprevious
      ensures Valid() && Recs() == old(Recs())
      ensures pcurrent != pp && pprevious != pp
      ensures old(pcurrent) != pp ==> pcurrent == old(pcurrent)
      ensures old(pcurrent) == pp && old(pprevious) != null ==> pcurrent == old(pprevious)
      ensures pp != old(pcurrent) && pp != old(pprevious) ==> pprevious == old(pprevious)
      ensures old(pcurrent) == pp && old(pprevious) == null ==> Choice(old(Tab()), pp, pcurrent)
      ensures pp == old(pcurrent) || pp == old(pprevious) ==> Choice(Tab(), pp, pprevious)
    {
      hide Closed, Jobs, Numbered, States, Cwds, Known, Listed, Recs, Choice;
      ghost var t := Tab();
      if pp == pcurrent {
        if pprevious != null {
          pcurrent := pprevious;
          OnlyCurrents(t, Tab().(pprevious := null));
          SetPrevious(pp);
        } else {
          pcurrent := Pgetcurr(pp);
          ChoiceFacts(t, pp, pcurrent);
          NoneLeft(t, Tab(), pp);
          SameRecords(t, Tab());
          OnlyCurrents(t, Tab().(pprevious := null));
          SetPrevious(pp);
        }
      } else if pp == pprevious {
        OnlyCurrents(t, Tab().(pprevious := null));
        SetPrevious(pp);
      }
    }

    /** The previous job is chosen anew. */
    method SetPrevious(pp: Process)
      requires Good(Tab().(pprevious := null))
      requires pcurrent == null ==> NoneBefore(Tab(), |procs|, pp)
      modifies this`pprevious
      ensures Valid() && pprevious != pp && Choice(Tab(), pp, pprevious)
    {
      hide Closed, Jobs, Numbered, States, Cwds, Chosen, Known, Listed, Recs, Choice;
      ghost var t := Tab().(pprevious := null);
      SameRecords(t, Tab());
      ghost var t1 := Tab();
      pprevious := Pgetcurr(pp);
      ChoiceFacts(t1, pp, pprevious);
      SameChoice(t1, Tab(), pp, pprevious);
      SameRecords(t, Tab());
      OnlyCurrents(t, Tab());
    }

    // -------------------------------------------------------------- flushing

    /** The loop of pflush over the ring of pp. */
    method Clear(pp: Process)
      requires Known(Tab()) && Closed(Tab()) && pp in procs
      modifies procs`pid, procs`index, procs`flags
      ensures Changed(old(Tab()), Tab(), pp, Gone)
    {
      hide Closed, Applied, Recs, Known, Walk;
      ghost var t := Tab();
      KnownAt(t, pp);
      ghost var w := Walk(t, pp);
      var np, more := pp, true;
      ghost var k := 0;
      WalkStep(t, pp, 0);
      WalkKnown(t, pp);
      AppliedNone(t.recs, w, Gone);
      while more
        invariant k <= |w| && more == (k < |w|)
        invariant np in procs && (more ==> np == w[k])
        invariant Recs() == Applied(t.recs, w, k, Gone)
        decreases |w| - k
      {
        WalkTurn(t, pp, k, Gone);
        RecOf(np);
        SetGone(np);
        np := np.friends;
        more := np != pp;
        k := k + 1;
      }
    }

    /** The largest job number in the list. */
    method LargestIndex() returns (index: nat)
      requires Known(Tab()) && Listed(Tab())
      ensures Largest(Tab(), index)
    {
      var np := first;
      index := 0;
      ghost var k := 0;
      while np != null
        invariant k <= |procs| && np == Nth(procs, k)
        invariant forall i :: 0 <= i < k ==> procs[i].index <= index
        invariant index > 0 ==> exists p <- procs :: p.index == index
        decreases |procs| - k
      {
        assert np == procs[k] && np in procs;
        if np.index > index {
          index := np.index;
        }
        np := np.next;
        k := k + 1;
      }
      ghost var t := Tab();
      assert forall p <- procs :: t.recs[p].index == p.index;
    }

    /** pflush: every record of pp's job is flagged for deletion, and nothing else changes but
        the current, previous and unfinished job and the largest number. */
    method Pflush(pp0: Process)
      requires Valid() && pp0 in procs
      modifies this`pcurrent, this`pprevious, this`pcurrjob, this`pmaxindex
      modifies procs`pid, procs`index, procs`flags
      ensures Valid()
      ensures old(pp0.pid) == 0 ==> Tab() == old(Tab())
      ensures old(pp0.pid) != 0 ==> Changed(old(Tab()), Tab(), First(old(Tab()), pp0), Gone)
      ensures old(pp0.pid) != 0 ==> var l := First(old(Tab()), pp0); pcurrent != l && pprevious != l && pcurrjob == (if old(pcurrjob) == l then null else old(pcurrjob))
      ensures pmaxindex <= CHARMAX <==> old(pmaxindex) <= CHARMAX
      ensures place == old(place) && forall q <- procs :: q in place && q in Recs() && q in old(Recs())
      ensures old(pp0.pid) != 0 ==>
                forall q <- procs :: Recs()[q] == if place[q].job != place[pp0].job then old(Recs())[q]
                                                  else old(Recs())[q].(pid := 0, index := 0, flags := old(Recs())[q].flags - {PNEEDNOTE})
    {
      hide Closed, Jobs, Numbered, Currents, States, Cwds, Listed, Applied, Known, Recs, Numbers, Choice;
      ghost var t := Tab();
      AllKnown(t);
      if pp0.pid == 0 {
        return;
      }
      var pp := FindLeader(pp0);
      Friend(t, pp0);
      Pclrcurr(pp);
      Erase(pp);
      GoneRecords(t, Tab(), pp, pp0);
    }

    /** The rest of pflush, for a leader that is neither current nor previous. */
    method Erase(pp: Process)
      requires Valid() && Leader(Tab(), pp) && pcurrent != pp && pprevious != pp
      modifies this`pcurrjob, this`pmaxindex, procs`pid, procs`index, procs`flags
      ensures Valid() && Changed(old(Tab()), Tab(), pp, Gone) && pcurrjob == (if old(pcurrjob) == pp then null else old(pcurrjob))
      ensures pmaxindex <= CHARMAX <==> old(pmaxindex) <= CHARMAX
    {
      hide Closed, Jobs, Numbered, Currents, States, Cwds, Listed, Changed, Known, Recs, Largest;
      ghost var t := Tab();
      if pp == pcurrjob {
        pcurrjob := null;
      }
      SameRecords(t, Tab());
      RecOf(pp);
      ghost var t1 := Tab();
      Wipe(pp);
      SameFlush(t, t1, Tab(), pp);
      FlushGood(t, Tab(), pp);
    }

    /** The records of the job are cleared; the largest number is looked for if it was the job's. */
    method Wipe(pp: Process)
      requires Known(Tab()) && Closed(Tab()) && Listed(Tab()) && pp in procs
      modifies this`pmaxindex, procs`pid, procs`index, procs`flags
      ensures Flushed(old(Tab()), Tab(), pp)
      ensures if old(pp.index) != old(pmaxindex) then pmaxindex == old(pmaxindex)
              else pmaxindex <= CHARMAX && Known(Tab()) && Largest(Tab(), pmaxindex)
    {
      hide Closed, Listed, Applied, Known, Recs, Walk, Largest;
      ghost var t := Tab();
      var index := pp.index;
      Clear(pp);
      ghost var t1 := Tab();
      FlushRings(t, t1, pp);
      if index == pmaxindex {
        pmaxindex := LargestIndex();
        LargestIsChar(t1, pmaxindex);
        SameLargest(t1, Tab(), pmaxindex);
      }
    }

    // -------------------------------------------------------------- starting a job

    /** pstart: the running and stopped processes of the job run, in the foreground or not.
        The result says whether the job has to be continued. */
    method Pstart(pp: Process, foregnd: bool) returns (cont: bool)
      requires Valid() && Leader(Tab(), pp)
      modifies this`pcurrent, this`pprevious, procs`flags
      ensures Valid()
      ensures Changed(old(Tab()), Tab(), pp, Started(foregnd))
      ensures cont == Any(old(Tab()), pp, PSTOPPED)
      ensures foregnd ==> pcurrent == old(pcurrent) && pprevious == old(pprevious)
      ensures !foregnd ==> pcurrent != pp && pprevious != pp
      ensures place == old(place) && pp in place && forall q <- procs :: q in place && q in old(Recs())
      ensures forall q <- procs ::
                q.flags == if place[q].job != place[pp].job || old(Recs())[q].flags * {PRUNNING, PSTOPPED} == {} then old(Recs())[q].flags
                           else old(Recs())[q].flags - {PSTOPPED, PFOREGND} + {PRUNNING} + if foregnd then {PFOREGND} else {}
    {
      hide Closed, Jobs, Numbered, Currents, States, Cwds, Listed, Applied, Known, Recs;
      ghost var t := Tab();
      var jobflags := StartLoop(pp, foregnd);
      UnionAny(t, pp, PSTOPPED);
      StartedChange(t, foregnd);
      FlagsGood(t, Tab(), pp, Started(foregnd));
      StartedFlags(t, Tab(), pp, foregnd);
      if !foregnd {
        Pclrcurr(pp);
      }
      cont := PSTOPPED in jobflags;
      FlagsOf(Tab());
    }

    lemma AllKnown(t: Table)
      requires Valid() && t == Tab()
      ensures forall q <- procs :: q in place && q in Recs()
    {
    }

    lemma FlagsOf(t: Table)
      requires t == Tab()
      ensures forall q <- procs :: q in t.recs && q.flags == t.recs[q].flags
    {
    }

    method StartLoop(pp: Process, foregnd: bool) returns (jobflags: set<Flag>)
      requires Known(Tab()) && Closed(Tab()) && pp in procs
      modifies procs`flags
      ensures Changed(old(Tab()), Tab(), pp, Started(foregnd))
      ensures forall q <- Walk(old(Tab()), pp) :: q in old(Recs())
      ensures jobflags == Union(old(Recs()), Walk(old(Tab()), pp), |Walk(old(Tab()), pp)|)
    {
      hide Closed, Applied, Recs, Known, Walk, Union, Started;
      ghost var t := Tab();
      KnownAt(t, pp);
      ghost var w := Walk(t, pp);
      ghost var f := Started(foregnd);
      var np, more := pp, true;
      jobflags := {};
      ghost var k := 0;
      WalkStep(t, pp, 0);
      WalkKnown(t, pp);
      AppliedNone(t.recs, w, f);
      UnionStep(t.recs, w, 0);
      while more
        invariant k <= |w| && more == (k < |w|)
        invariant np in procs && (more ==> np == w[k])
        invariant Recs() == Applied(t.recs, w, k, f)
        invariant jobflags == Union(t.recs, w, k)
        decreases |w| - k
      {
        WalkTurn(t, pp, k, f);
        RecOf(np);
        jobflags := jobflags + np.flags;
        StartOne(np, foregnd);
        np := np.friends;
        more := np != pp;
        k := k + 1;
      }
    }

    method StartOne(np: Process, foregnd: bool)
      requires np in procs
      modifies np`flags
      ensures Recs() == old(Recs())[np := Started(foregnd)(old(Recs())[np])]
    {
      hide Recs;
      RecOf(np);
      if np.flags * {PRUNNING, PSTOPPED} != {} {
        var flags := np.flags + {PRUNNING} - {PSTOPPED};
        SetFlags(np, if foregnd then flags + {PFOREGND} else flags - {PFOREGND});
      }
    }

    // -------------------------------------------------------------- a child changes state

    method SetStatus(p: Process, w: Status, ru: nat)
      requires p in procs
      modifies p`flags, p`reason, p`usage
      ensures Recs() == old(Recs())[p := Recorded(old(Recs())[p], w, ru)] && Answered(p, w, ru)
    {
      hide Recorded, Answered;
      StoreStatus(p, w, ru);
    }

    method StoreStatus(p: Process, w: Status, ru: nat)
      modifies p`flags, p`reason, p`usage
      ensures p.Get() == Recorded(old(p.Get()), w, ru) && Answered(p, w, ru)
    {
      var flags := p.flags - {PRUNNING, PSTOPPED, PREPORTED};
      if w.Stopped? {
        flags := flags + {PSTOPPED};
        p.reason := w.sig;
      } else {
        p.usage := ru;
        if w.Signaled? {
          flags := flags + (if w.termsig == SIGINT then {PINTERRUPTED} else {PSIGNALED});
          if w.core {
            flags := flags + {PDUMPED};
          }
          p.reason := w.termsig;
        } else {
          p.reason := w.code;
          flags := flags + (if w.code != 0 then {PAEXITED} else {PNEXITED});
        }
      }
      p.flags := flags;
      assert p.flags == StatusFlags(old(p.flags), w);
      assert p.Get() == Recorded(old(p.Get()), w, ru);
    }

    /** The record with the pid of a status. */
    method Search(pid: nat) returns (pp: Process?)
      requires Known(Tab()) && Listed(Tab()) && pid != 0
      ensures pp == null ==> forall p <- procs :: p.pid != pid
      ensures pp != null ==> pp in procs && pp.pid == pid
    {
      hide Known;
      pp := first;
      ghost var k := 0;
      while pp != null
        invariant k <= |procs| && pp == Nth(procs, k)
        invariant forall i :: 0 <= i < k ==> procs[i].pid != pid
        decreases |procs| - k
      {
        if pid == pp.pid {
          return;
        }
        pp := pp.next;
        k := k + 1;
      }
    }

    /** The first loop of pchild over the job: processes that used more time than the variable
        time says are marked, and all flags are collected. */
    method Gather(pp: Process, limit: Option<nat>) returns (jobflags: set<Flag>)
      requires Known(Tab()) && Closed(Tab()) && pp in procs
      modifies procs`flags
      ensures Changed(old(Tab()), Tab(), pp, Timed(limit))
      ensures forall q <- Walk(old(Tab()), pp) :: q in old(Recs())
      ensures jobflags - {PTIME} == Union(old(Recs()), Walk(old(Tab()), pp), |Walk(old(Tab()), pp)|) - {PTIME}
    {
      hide Closed, Applied, Recs, Known, Walk, Union, Timed;
      ghost var t := Tab();
      KnownAt(t, pp);
      ghost var w := Walk(t, pp);
      ghost var f := Timed(limit);
      var fp, more := pp, true;
      jobflags := {};
      ghost var k := 0;
      WalkStep(t, pp, 0);
      WalkKnown(t, pp);
      AppliedNone(t.recs, w, f);
      UnionStep(t.recs, w, 0);
      while more
        invariant k <= |w| && more == (k < |w|)
        invariant fp in procs && (more ==> fp == w[k])
        invariant Recs() == Applied(t.recs, w, k, f)
        invariant jobflags - {PTIME} == Union(t.recs, w, k) - {PTIME}
        decreases |w| - k
      {
        WalkTurn(t, pp, k, f);
        RecOf(fp);
        TimeOne(fp, limit);
        ButTime(jobflags, fp.flags);
        ButTime(Union(t.recs, w, k), t.recs[fp].flags);
        jobflags := jobflags + fp.flags;
        fp := fp.friends;
        more := fp != pp;
        k := k + 1;
      }
    }

    method TimeOne(fp: Process, limit: Option<nat>)
      requires fp in procs
      modifies fp`flags
      ensures Recs() == old(Recs())[fp := Timed(limit)(old(Recs())[fp])]
      ensures fp.flags - {PTIME} == old(fp.flags) - {PTIME}
    {
      hide Recs;
      RecOf(fp);
      if fp.flags * {PPTIME, PRUNNING, PSTOPPED} == {} && limit.Some? && fp.usage >= limit.value {
        SetFlags(fp, fp.flags + {PTIME});
        RecOf(fp);
      }
    }

    /** The second loop of pchild: stopped processes are now reported. */
    method MarkReported(pp: Process)
      requires Known(Tab()) && Closed(Tab()) && pp in procs
      modifies procs`flags
      ensures Changed(old(Tab()), Tab(), pp, Reported())
    {
      hide Closed, Applied, Recs, Known, Walk, Reported;
      ghost var t := Tab();
      KnownAt(t, pp);
      ghost var w := Walk(t, pp);
      ghost var f := Reported();
      var fp, more := pp, true;
      ghost var k := 0;
      WalkStep(t, pp, 0);
      WalkKnown(t, pp);
      AppliedNone(t.recs, w, f);
      while more
        invariant k <= |w| && more == (k < |w|)
        invariant fp in procs && (more ==> fp == w[k])
        invariant Recs() == Applied(t.recs, w, k, f)
        decreases |w| - k
      {
        WalkTurn(t, pp, k, f);
        RecOf(fp);
        ReportOne(fp);
        fp := fp.friends;
        more := fp != pp;
        k := k + 1;
      }
    }

    method ReportOne(fp: Process)
      requires fp in procs
      modifies fp`flags
      ensures Recs() == old(Recs())[fp := Reported()(old(Recs())[fp])]
    {
      hide Recs;
      RecOf(fp);
      if PSTOPPED in fp.flags {
        SetFlags(fp, fp.flags + {PREPORTED});
      }
    }

    /** pchild, for one status: pid is found in the list, its record and the flags of its job are
        brought up to date, and a job no part of which runs becomes current if it is stopped and
        stops being current if it is over. limit is the variable time, notify the variable notify. */
    method Pchild(pid: nat, w: Status, ru: nat, limit: Option<nat>, notify: bool) returns (ghost pp: Process?)
      requires Valid() && pid != 0
      requires forall p <- procs :: p.pid == pid ==> p.flags * {PRUNNING, PSTOPPED} != {}
      modifies this`pcurrent, this`pprevious, this`pcurrjob, this`pmaxindex
      modifies procs`pid, procs`index, procs`flags, procs`reason, procs`usage
      ensures Valid()
      ensures pp == null ==> (forall p <- procs :: old(p.pid) != pid) && Tab() == old(Tab())
      ensures pp != null ==> pp in procs && old(pp.pid) == pid && Outcome(old(Tab()), Tab(), pp, w, ru, notify) && Answered(pp, w, ru)
      ensures pp != null ==> AllAfter(old(Tab()), Tab(), pp, w, ru, limit, notify)
      ensures forall p <- procs :: p != pp ==> p.reason == old(p.reason) && p.usage == old(p.usage)
    {
      hide Closed, Jobs, Numbered, Currents, States, Cwds, Listed, Applied, Known, Recs, AllAfter;
      var found := Search(pid);
      pp := found;
      if found == null {
        return;
      }
      ghost var t := Tab();
      AllRecords(t);
      Arrive(found, w, ru, limit, notify);
      AllRecords(Tab());
      Reasons(t, Tab(), found, w, ru, limit, notify);
    }

    lemma AllRecords(t: Table)
      requires t == Tab()
      ensures forall p <- procs :: p in t.recs && t.recs[p].reason == p.reason && t.recs[p].usage == p.usage
    {
    }

    /** A status for the record pp. */
    method Arrive(pp: Process, w: Status, ru: nat, limit: Option<nat>, notify: bool)
      requires Valid() && pp in procs && pp.pid != 0 && pp.flags * {PRUNNING, PSTOPPED} != {}
      modifies this`pcurrent, this`pprevious, this`pcurrjob, this`pmaxindex
      modifies procs`pid, procs`index, procs`flags, procs`reason, procs`usage
      ensures Valid()
      ensures Outcome(old(Tab()), Tab(), pp, w, ru, notify)
      ensures AllAfter(old(Tab()), Tab(), pp, w, ru, limit, notify)
    {
      hide Closed, Jobs, Numbered, Currents, States, Cwds, Listed, Recs, OneState, Outcome, Any, Leader, Known, OnlyJob, Numbers, Kept, SameStates, StatesAfter, Answered, Seen, AllSettled, AllAfter;
      ghost var t := Tab();
      LivePid(pp);
      LeaderIsFirst(t, pp);
      var jobflags := Tell(pp, w, ru, limit);
      ghost var t1 := Tab();
      if jobflags * {PRUNNING, PREPORTED} == {} {
        Settle(pp, jobflags, notify);
        WhenSettled(t, t1, Tab(), pp, w, ru, notify, jobflags);
      } else {
        SameMaximum(t, t1);
      }
      OutcomeIs(t, Tab(), pp, w, ru, notify, jobflags);
      AllAfterIs(t, t1, Tab(), pp, w, ru, limit, notify, jobflags);
    }

    /** Why pp is in its state, and how much time it used if it is over. */
    ghost predicate Answered(pp: Process, w: Status, ru: nat)
      reads pp`reason, pp`usage
    {
      pp.reason == StatusReason(w) && (!w.Stopped? ==> pp.usage == ru)
    }

    /** The status is written, and the flags of the job are collected. */
    method Tell(pp: Process, w: Status, ru: nat, limit: Option<nat>) returns (jobflags: set<Flag>)
      requires Valid() && pp in procs && pp.pid != 0 && pp.flags * {PRUNNING, PSTOPPED} != {}
      modifies procs`flags, procs`reason, procs`usage
      ensures Valid() && pp in old(Recs()) && Known(Told(old(Tab()), pp, w, ru))
      ensures StatesAfter(old(Tab()), Told(old(Tab()), pp, w, ru), pp, w) && SameStates(Told(old(Tab()), pp, w, ru), Tab())
      ensures forall x :: x != PTIME ==> (x in jobflags <==> Any(Told(old(Tab()), pp, w, ru), pp, x))
      ensures SameLeaders(old(Tab()), Tab()) && OnlyJob(old(Tab()), Tab(), pp, false)
      ensures Seen(Told(old(Tab()), pp, w, ru), Tab(), pp, limit)
    {
      hide Closed, Jobs, Numbered, Currents, States, Cwds, Listed, Recs, OneState, Any, Leader, Answered, OnlyJob, SameStates, StatesAfter, Seen;
      ghost var t := Tab();
      RecOf(pp);
      SetStatus(pp, w, ru);
      ghost var t1 := Tab();
      TellGood(t, t1, pp, w, ru);
      OnlyOne(t, t1, pp, pp, Recorded(t.recs[pp], w, ru));
      jobflags := Survey(pp, limit);
      OnlyTrans(t, t1, Tab(), pp, false);
    }

    /** The flags of the job, and the marks of its times. */
    method Survey(pp: Process, limit: Option<nat>) returns (jobflags: set<Flag>)
      requires Valid() && pp in procs
      modifies procs`flags
      ensures Valid() && SameStates(old(Tab()), Tab()) && SameLeaders(old(Tab()), Tab()) && OnlyJob(old(Tab()), Tab(), pp, false)
      ensures forall x :: x != PTIME ==> (x in jobflags <==> Any(old(Tab()), pp, x))
      ensures Seen(old(Tab()), Tab(), pp, limit)
    {
      hide Closed, Jobs, Numbered, Currents, States, Cwds, Listed, Applied, Recs, OneState, Changed, Any, Leader, OnlyJob, Seen, SameStates;
      ghost var t1 := Tab();
      RecOf(pp);
      jobflags := Gather(pp, limit);
      TimedState(t1, limit);
      ChangedStates(t1, Tab(), pp, Timed(limit));
      GatheredAny(t1, pp, jobflags);
      ghost var t2 := Tab();
      OnlyChanged(t1, t2, pp, Timed(limit));
      EndOne(pp);
      SeenIs(t1, t2, Tab(), pp, limit);
      StatesTrans(t1, t2, Tab());
      OnlyTrans(t1, t2, Tab(), pp, false);
    }

    /** pp itself no longer runs in the foreground; alone, it shows its times. */
    method EndOne(pp: Process)
      requires Valid() && pp in procs
      modifies pp`flags
      ensures Valid() && SameStates(old(Tab()), Tab()) && OnlyJob(old(Tab()), Tab(), pp, false)
      ensures SameLeaders(old(Tab()), Tab())
      ensures pp in old(Recs()) && Recs() == old(Recs())[pp := Ended(old(Recs())[pp], old(pp.friends) == pp)]
    {
      hide Closed, Jobs, Numbered, Currents, States, Cwds, Listed, Recs, OneState, OnlyJob;
      ghost var t := Tab();
      RecOf(pp);
      var flags := pp.flags - {PFOREGND};
      if pp == pp.friends && PPTIME in flags {
        flags := flags - {PPTIME} + {PTIME};
      }
      SetFlags(pp, flags);
      OneRecStates(t, Tab(), pp, flags);
      OnlyOne(t, Tab(), pp, pp, t.recs[pp].(flags := flags));
    }

    /** No process of the job runs any more: the job becomes current or stops being so, and is
        flushed or noted if it was in the background. */
    method Settle(pp: Process, jobflags: set<Flag>, notify: bool)
      requires Valid() && pp in procs && pp.pid != 0
      modifies this`pcurrent, this`pprevious, this`pcurrjob, this`pmaxindex
      modifies procs`pid, procs`index, procs`flags
      ensures Valid() && SameStates(old(Tab()), Tab())
      ensures Settled(old(Tab()), Tab(), First(old(Tab()), pp), jobflags, notify)
      ensures var l := First(old(Tab()), pp);
              OnlyJob(old(Tab()), Tab(), pp, !Leader(Tab(), l)) && Kept(old(Tab()), Tab(), l, !Leader(Tab(), l))
      ensures AllSettled(old(Tab()), Tab(), pp, PSTOPPED in jobflags, PFOREGND in jobflags, PNOTIFY in jobflags || notify)
    {
      hide Good, Recs, OneState, Leader, Known, OnlyJob, SameStates, Kept, AllMarked, AllTidied, AllSettled;
      ghost var t := Tab();
      var fp := Halt(pp, PSTOPPED in jobflags);
      ghost var t2 := Tab();
      if PFOREGND !in jobflags {
        Tidy(pp, fp, PSTOPPED in jobflags, PNOTIFY in jobflags || notify);
        StatesTrans(t, t2, Tab());
        OnlyTrans(t, t2, Tab(), pp, PSTOPPED !in jobflags && (PNOTIFY in jobflags || notify));
        KeptTrans(t, t2, Tab(), fp, PSTOPPED !in jobflags && (PNOTIFY in jobflags || notify));
      }
      MarkedSettles(t, t2, Tab(), pp, PSTOPPED in jobflags, PFOREGND in jobflags, PNOTIFY in jobflags || notify);
    }

    /** Every process of the job is marked as reported. */
    method MarkAll(pp: Process)
      requires Valid() && pp in procs
      modifies procs`flags
      ensures Valid() && SameStates(old(Tab()), Tab()) && SameLeaders(old(Tab()), Tab()) && OnlyJob(old(Tab()), Tab(), pp, false)
      ensures AllMarked(old(Tab()), Tab(), pp)
    {
      hide Closed, Jobs, Numbered, States, Cwds, Listed, Recs, OneState, Changed, Currents, Leader, OnlyJob, SameStates, SameLeaders, AllMarked;
      ghost var t := Tab();
      MarkReported(pp);
      ReportedState(t);
      ChangedStates(t, Tab(), pp, Reported());
      AllMarkedIs(t, Tab(), Tab(), pp);
      OnlyChanged(t, Tab(), pp, Reported());
    }

    /** Stopped processes are reported, and the job becomes current if one is stopped and is no
        longer current if none is. */
    method Halt(pp: Process, stopped: bool) returns (fp: Process)
      requires Valid() && pp in procs && pp.pid != 0
      modifies this`pcurrent, this`pprevious, procs`flags
      ensures Valid() && SameStates(old(Tab()), Tab()) && OnlyJob(old(Tab()), Tab(), pp, false)
      ensures fp == First(old(Tab()), pp) == First(Tab(), pp) && fp in procs && Leader(Tab(), fp) && pp.pid != 0
      ensures Kept(old(Tab()), Tab(), fp, false) && AllMarked(old(Tab()), Tab(), pp)
      ensures if stopped then
                && pcurrent == fp
                && pprevious == if old(pcurrent) == null || old(pcurrent) == fp then old(pprevious) else old(pcurrent)
              else pcurrent != fp && pprevious != fp
    {
      hide Closed, Jobs, Numbered, States, Cwds, Listed, Recs, OneState, Changed, Currents, Leader, Known, OnlyJob, Choice, SameStates, First, Kept, AllMarked;
      ghost var t := Tab();
      LivePid(pp);
      MarkAll(pp);
      ghost var t1 := Tab();
      OnlyFirst(t, t1, pp);
      fp := FindLeader(pp);
      Reorder(fp, stopped);
      SameRecords(t1, Tab());
      MarkedToo(t, t1, Tab(), pp);
      RingFirst(t1, Tab(), pp);
      StatesTrans(t, t1, Tab());
      OnlySame(t1, Tab(), pp);
      OnlyTrans(t, t1, Tab(), pp, false);
      SameMaximum(t, Tab());
    }

    method Reorder(fp: Process, stopped: bool)
      requires Valid() && Leader(Tab(), fp)
      modifies this`pcurrent, this`pprevious
      ensures Valid() && Recs() == old(Recs())
      ensures if stopped then
                && pcurrent == fp
                && pprevious == if old(pcurrent) == null || old(pcurrent) == fp then old(pprevious) else old(pcurrent)
              else pcurrent != fp && pprevious != fp
    {
      hide Good, Recs, Leader, Choice;
      if stopped {
        MakeCurrent(fp);
      } else {
        Pclrcurr(fp);
      }
    }

    /** A background job is over or stopped: it is flushed at once, or noted for later. */
    method Tidy(pp: Process, fp: Process, stopped: bool, now: bool)
      requires Valid() && pp in procs && pp.pid != 0 && fp == First(Tab(), pp) && fp in procs && Leader(Tab(), fp)
      requires !stopped ==> pcurrent != fp && pprevious != fp
      modifies this`pcurrent, this`pprevious, this`pcurrjob, this`pmaxindex
      modifies procs`pid, procs`index, procs`flags
      ensures Valid() && SameStates(old(Tab()), Tab())
      ensures stopped || !now ==> pcurrent == old(pcurrent) && pprevious == old(pprevious)
      ensures !stopped ==> pcurrent != fp && pprevious != fp
      ensures Leader(Tab(), fp) <==> stopped || !now
      ensures OnlyJob(old(Tab()), Tab(), pp, !stopped && now) && Kept(old(Tab()), Tab(), fp, !stopped && now)
      ensures AllTidied(old(Tab()), Tab(), pp, stopped, now)
    {
      hide Closed, Jobs, Numbered, States, Cwds, Listed, Recs, OneState, Changed, Currents, OnlyJob, Numbers;
      ghost var t := Tab();
      Friend(t, pp);
      if now {
        if !stopped {
          Pflush(pp);
          FlushedStates(t, Tab(), fp);
          OnlyGone(t, Tab(), fp, pp);
          FlushTidies(t, Tab(), fp, pp);
        } else {
          OnlySame(t, t, pp);
          SameMaximum(t, t);
        }
      } else {
        Note(fp);
        OnlyAlike(t, Tab(), fp, pp);
        SameMaximum(t, Tab());
      }
    }

    lemma LivePid(p: Process)
      requires p in procs
      ensures p in Tab().recs && Tab().recs[p].pid == p.pid
    {
    }

    method MakeCurrent(fp: Process)
      requires Valid() && Leader(Tab(), fp)
      modifies this`pcurrent, this`pprevious
      ensures Valid() && Recs() == old(Recs()) && pcurrent == fp
      ensures pprevious == if old(pcurrent) == null || old(pcurrent) == fp then old(pprevious) else old(pcurrent)
    {
      hide Closed, Jobs, Numbered, States, Cwds, Listed, Recs, Known;
      ghost var t := Tab();
      if pcurrent != null && pcurrent != fp {
        pprevious := pcurrent;
      }
      pcurrent := fp;
      SameRecords(t, Tab());
      OnlyCurrents(t, Tab());
    }

    method Note(fp: Process)
      requires Valid() && fp in procs
      modifies fp`flags
      ensures Valid() && SameStates(old(Tab()), Tab()) && OnlyJob(old(Tab()), Tab(), fp, false)
      ensures SameLeaders(old(Tab()), Tab())
      ensures fp in old(Recs()) && Recs() == old(Recs())[fp := old(Recs())[fp].(flags := old(Recs())[fp].flags + {PNEEDNOTE})]
    {
      hide Closed, Jobs, Numbered, Currents, States, Cwds, Listed, Recs, OneState, OnlyJob;
      ghost var t := Tab();
      RecOf(fp);
      SetFlags(fp, fp.flags + {PNEEDNOTE});
      OneRecStates(t, Tab(), fp, t.recs[fp].flags + {PNEEDNOTE});
      OnlyOne(t, Tab(), fp, fp, t.recs[fp].(flags := t.recs[fp].flags + {PNEEDNOTE}));
    }

    // -------------------------------------------------------------- creating a record

    /** The record whose friends link closes the ring. */
    method LastFriend(l: Process) returns (fp: Process)
      requires Valid() && Leader(Tab(), l)
      ensures fp in procs && l in place && place[l].job != [] && fp == place[l].job[|place[l].job| - 1]
    {
      hide Jobs, Numbered, States, Cwds, Listed, Currents, Closed, Recs, Leader, OneState;
      ghost var t := Tab();
      RingHead(t, l);
      fp := l;
      Friend(t, fp);
      RecOf(fp);
      while fp.friends != l
        invariant fp in procs && place[fp].job == place[l].job
        invariant fp.friends in procs && place[fp.friends] == Place(place[l].job, Next(place[fp].pos, |place[l].job|))
        decreases |place[l].job| - place[fp].pos
      {
        fp := fp.friends;
        Friend(t, fp);
        RecOf(fp);
      }
    }

    /** The number of a new job, as a char: the next one up to BIGINDEX, else the smallest that no
        record shows. pmaxindex is a short and takes the number itself. */
    method NewIndex() returns (index: SChar)
      requires Known(Tab()) && Listed(Tab())
      modifies this`pmaxindex
      ensures index == ToChar(NewNumber(old(Tab())))
      ensures pmaxindex == if NewNumber(old(Tab())) > old(pmaxindex) then NewNumber(old(Tab())) else old(pmaxindex)
    {
      hide Recs, Known, Listed, FreeFrom, Taken, ToChar;
      ghost var t := Tab();
      if pmaxindex < BIGINDEX {
        pmaxindex := pmaxindex + 1;
        return ToChar(pmaxindex);
      }
      var i := 1;
      var taken := Shows(i);
      while taken
        invariant 1 <= i <= CHARMAX + 1 && taken == CshJobTable.Taken(t, i)
        invariant forall j :: 1 <= j < i ==> CshJobTable.Taken(t, j)
        invariant pmaxindex == old(pmaxindex)
        decreases CHARMAX + 1 - i
      {
        TakenIsChar(t, i);
        i := i + 1;
        taken := Shows(i);
      }
      index := ToChar(i);
      if i > pmaxindex {
        pmaxindex := i;
      }
    }

    method Shows(i: nat) returns (taken: bool)
      requires Known(Tab()) && Listed(Tab())
      ensures taken == CshJobTable.Taken(Tab(), i)
    {
      hide Known, Listed, Recs;
      Head();
      var np := first;
      ghost var k := 0;
      while np != null
        invariant k <= |procs| && np == Nth(procs, k)
        invariant forall j :: 0 <= j < k ==> procs[j].index != i
        decreases |procs| - k
      {
        assert np == procs[k] && np in procs;
        if np.index == i {
          RecOf(np);
          return true;
        }
        Step(k);
        np := np.next;
        k := k + 1;
      }
      NotShown(i);
      return false;
    }

    lemma NotShown(i: nat)
      requires Known(Tab()) && forall j :: 0 <= j < |procs| ==> procs[j].index != i
      ensures !CshJobTable.Taken(Tab(), i)
    {
    }

    /** palloc: a record for the process just forked, in the unfinished job or in a new one. */
    method Palloc(pid: nat, flags: set<Flag>, dcwd: Directory) returns (pp: Process)
      requires Valid() && pid != 0 && OneState(flags) && PRUNNING in flags
      requires forall p <- procs :: p.pid != pid
      modifies this, procs`friends, dcwd`count
      ensures Valid() && fresh(pp) && procs == [pp] + old(procs) && pp.pid == pid && pp.flags == flags
      ensures old(pcurrjob) != null ==> Joined(old(Tab()), Tab(), old(pcurrjob), pp, pp.Get()) && dcwd.count == old(dcwd.count)
      ensures old(pcurrjob) == null ==> Begun(old(Tab()), Tab(), pp, pp.Get()) && pp.cwd == dcwd && dcwd.count == old(dcwd.count) + SHORT
      ensures Numbers(Tab()) <==> Numbers(old(Tab())) && (old(pcurrjob) != null || Room(old(Tab())))
    {
      hide Jobs, Numbered, States, Cwds, Closed, OneState, Listed, JoinPlace, NewNumber, ToChar, Numbers, Room;
      ghost var t := Tab();
      if pcurrjob != null {
        pp := Join(pcurrjob, pid, flags);
        JoinGood(t, Tab(), t.pcurrjob, pp, pp.Get());
        JoinBasics(t, Tab(), t.pcurrjob, pp, pp.Get());
        NumbersIff(t);
        NumbersIff(Tab());
      } else {
        pp := Begin(pid, flags, dcwd);
        BeginGood(t, Tab(), pp, pp.Get());
        BeginFits(t, Tab(), pp, pp.Get());
      }
    }

    lemma NoPid(pid: nat)
      requires forall p <- procs :: p.pid != pid
      ensures forall p <- procs :: p in Recs() && Recs()[p].pid != pid
    {
    }

    method Join(l: Process, pid: nat, flags: set<Flag>) returns (pp: Process)
      requires Valid() && pid != 0 && OneState(flags) && pcurrjob == l
      requires forall p <- procs :: p.pid != pid
      modifies this`first, this`procs, this`place, procs`friends
      ensures fresh(pp) && procs == [pp] + old(procs) && pp.pid == pid && pp.flags == flags
      ensures Joined(old(Tab()), Tab(), l, pp, pp.Get())
    {
      hide Jobs, Numbered, States, Cwds, Closed, OneState, Listed, JoinPlace, Recs, Leader, Known, Joined;
      ghost var t := Tab();
      NoPid(pid);
      RingHead(t, l);
      RecOf(l);
      var fp := LastFriend(l);
      pp := NewMember(l, pid, flags);
      SetFriends(fp, pp);
      place := JoinPlace(place, place[l].job, pp);
      Insert(pp);
      JoinedIs(t, Tab(), l, pp, pp.Get());
    }

    method NewMember(l: Process, pid: nat, flags: set<Flag>) returns (pp: Process)
      ensures fresh(pp) && pp.Get() == Rec(null, l, null, flags, 0, l.index, pid, l.pid, 0)
    {
      pp := new Process(pid, flags);
      pp.index, pp.friends, pp.jobid := l.index, l, l.pid;
    }

    method SetFriends(p: Process, f: Process)
      requires p in procs
      modifies p`friends
      ensures Recs() == old(Recs())[p := old(Recs())[p].(friends := f)]
    {
      p.friends := f;
    }

    /** The record goes to the front of the list. */
    method Insert(pp: Process)
      requires pp !in procs
      modifies this`first, this`procs, pp`next
      ensures procs == [pp] + old(procs) && first == pp
      ensures pp.Get() == old(pp.Get()).(next := old(first))
      ensures Recs() == old(Recs())[pp := pp.Get()]
    {
      pp.next := first;
      first := pp;
      procs := [pp] + procs;
    }

    method Begin(pid: nat, flags: set<Flag>, dcwd: Directory) returns (pp: Process)
      requires Valid() && pid != 0 && OneState(flags) && pcurrjob == null
      requires forall p <- procs :: p.pid != pid
      modifies this, dcwd`count
      ensures fresh(pp) && procs == [pp] + old(procs) && pp.pid == pid && pp.flags == flags
      ensures Begun(old(Tab()), Tab(), pp, pp.Get()) && pp.cwd == dcwd && dcwd.count == old(dcwd.count) + SHORT
    {
      hide Jobs, Numbered, States, Cwds, Closed, OneState, Listed, Recs, Leader, Known, Begun, NewNumber, ToChar;
      ghost var t := Tab();
      NoPid(pid);
      pp := NewLeader(pid, flags, dcwd);
      Promote(pp);
      place := place[pp := Place([pp], 0)];
      Insert(pp);
      BegunIs(t, Tab(), pp, pp.Get());
    }

    method NewLeader(pid: nat, flags: set<Flag>, dcwd: Directory) returns (pp: Process)
      requires Valid()
      modifies this`pcurrjob, this`pmaxindex, dcwd`count
      ensures fresh(pp) && pp.Get() == Rec(null, pp, dcwd, flags, 0, ToChar(NewNumber(old(Tab()))), pid, pid, 0)
      ensures pmaxindex == if NewNumber(old(Tab())) > old(pmaxindex) then NewNumber(old(Tab())) else old(pmaxindex)
      ensures pcurrjob == pp && Recs() == old(Recs()) && dcwd.count == old(dcwd.count) + SHORT
    {
      hide Jobs, Numbered, States, Cwds, Closed, OneState, Listed, Recs, Leader, Known, NewNumber, ToChar;
      ghost var t := Tab();
      pp := new Process(pid, flags);
      pcurrjob := pp;
      pp.jobid, pp.friends, pp.cwd := pid, pp, dcwd;
      dcwd.count := dcwd.count + SHORT;
      SameRecords(t, Tab());
      SameNumber(t, Tab());
      var index := NewIndex();
      pp.index := index;
    }

    method Promote(pp: Process)
      modifies this`pcurrent, this`pprevious
      ensures pcurrent == if old(pcurrent) == null then pp else old(pcurrent)
      ensures pprevious == if old(pcurrent) != null && old(pprevious) == null then pp else old(pprevious)
    {
      if pcurrent == null {
        pcurrent := pp;
      } else if pprevious == null {
        pprevious := pp;
      }
    }

    /** pendjob: what is forked next begins a new job. */
    method Pendjob()
      requires Valid()
      modifies this`pcurrjob
      ensures Valid() && pcurrjob == null && Recs() == old(Recs())
    {
      hide Jobs, Numbered, States, Cwds, Closed, OneState, Listed, Recs, Known;
      ghost var t := Tab();
      pcurrjob := null;
      OnlyCurrents(t, Tab());
    }
  }

  /** 129 jobs of one process each: the 128th and the 129th both get the number -128. */
  method Crowd(dcwd: Directory) returns (j: JobTable, a: Process, b: Process)
    modifies dcwd`count
    ensures fresh(j) && j.Valid() && !Numbers(j.Tab())
    ensures a != b && Leader(j.Tab(), a) && Leader(j.Tab(), b) && a.index == b.index == -128
  {
    hide Good, Numbers, Leader, Crowding;
    j := new JobTable();
    var n := 0;
    NothingTaken(j);
    while n < CHARMAX
      invariant fresh(j) && fresh(j.procs) && j.Valid() && n <= CHARMAX && Crowding(j, n, n) && j.pmaxindex == n
    {
      var p := NextJob(j, n, n, dcwd);
      n := n + 1;
    }
    a := NextJob(j, n, n, dcwd);
    b := NextJob(j, n + 1, n, dcwd);
    j.LeaderTest(a);
    j.LeaderTest(b);
    NumbersIff(j.Tab());
  }

  /** No job is unfinished, the pids are those up to n, and the numbers up to m are taken. */
  ghost predicate Crowding(j: JobTable, n: nat, m: nat)
    reads j, j.procs
  {
    && j.pcurrjob == null && (forall p <- j.procs :: p.pid <= n)
    && Known(j.Tab()) && (forall i :: 1 <= i <= m ==> Taken(j.Tab(), i))
  }

  lemma NothingTaken(j: JobTable)
    requires j.Valid() && j.procs == [] && j.pcurrjob == null
    ensures Crowding(j, 0, 0)
  {
  }

  /** One more job where the numbers up to m are taken and no other is positive. */
  method NextJob(j: JobTable, n: nat, m: nat, dcwd: Directory) returns (p: Process)
    requires j.Valid() && Crowding(j, n, m) && m <= CHARMAX && (j.pmaxindex == m || (m == CHARMAX && j.pmaxindex > m))
    modifies j, j.procs`friends, dcwd`count
    ensures j.Valid() && Crowding(j, n + 1, if m < CHARMAX then m + 1 else m) && j.pmaxindex == m + 1
    ensures fresh(p) && j.procs == [p] + old(j.procs) && p.index == ToChar(m + 1) && p.pid == p.jobid == n + 1
  {
    hide Good, Begun, Taken, Numbers, NewNumber, Leader, Room, Joined, JobTable.Recs, ToChar, Known;
    ghost var t := j.Tab();
    OneFlag();
    p := j.Palloc(n + 1, {PRUNNING}, dcwd);
    ghost var t1 := j.Tab();
    OneMoreJob(t, t1, p, p.Get(), m);
    BegunShape(t, t1, p, p.Get());
    j.Pendjob();
    StillTaken(j, t1, if m < CHARMAX then m + 1 else m);
  }

  lemma OneMoreJob(t: Table, t1: Table, p: Process, r: Rec, m: nat)
    requires Good(t) && Good(t1) && Begun(t, t1, p, r) && m <= CHARMAX && (t.pmaxindex == m || (m == CHARMAX && t.pmaxindex > m))
    requires forall i :: 1 <= i <= m ==> Taken(t, i)
    ensures Known(t1) && r.index == ToChar(m + 1) && t1.pmaxindex == m + 1
    ensures forall i :: 1 <= i <= (if m < CHARMAX then m + 1 else m) ==> Taken(t1, i)
  {
    hide Closed, Jobs, Listed, Currents, States, Cwds, Begun, Taken, NewNumber;
    NextNumber(t, m);
    BegunNumber(t, t1, p, r);
    BegunTaken(t, t1, p, r);
  }

  lemma StillTaken(j: JobTable, t1: Table, m: nat)
    requires j.Valid() && Known(t1) && j.procs == t1.procs && j.Recs() == t1.recs && forall i :: 1 <= i <= m ==> Taken(t1, i)
    ensures Known(j.Tab()) && forall i :: 1 <= i <= m ==> Taken(j.Tab(), i)
  {
    hide Closed, Jobs, Listed, Currents, States, Cwds, Taken, Numbered;
    forall i | 1 <= i <= m
      ensures Taken(j.Tab(), i)
    {
      SameTaken(t1, j.Tab(), i);
    }
  }

  lemma OneFlag()
    ensures OneState({PRUNNING})
  {
    assert PRUNNING in {PRUNNING} * PALLSTATES;
  }

  lemma WhenSettled(t: Table, t1: Table, t': Table, p: Process, w: Status, ru: nat, notify: bool, jf: set<Flag>)
    requires Known(t) && Known(t1) && p in t.procs && p in t1.procs && p in t.recs && t1.pcurrjob == t.pcurrjob && t1.pmaxindex == t.pmaxindex
    requires t1.pcurrent == t.pcurrent && t1.pprevious == t.pprevious && t1.place == t.place
    requires SameStates(Told(t, p, w, ru), t1) && SameStates(t1, t') && OnlyJob(t, t1, p, false)
    requires Settled(t1, t', First(t1, p), jf, notify)
    requires var l := First(t1, p); OnlyJob(t1, t', p, !Leader(t', l)) && Kept(t1, t', l, !Leader(t', l))
    ensures SameStates(Told(t, p, w, ru), t') && Settled(t, t', First(t, p), jf, notify)
    ensures var gone := !Leader(t', First(t, p)); OnlyJob(t, t', p, gone) && Kept(t, t', First(t, p), gone)
  {
    hide SameStates, OnlyJob, Kept, Leader;
    var l := First(t, p);
    StatesTrans(Told(t, p, w, ru), t1, t');
    OnlyTrans(t, t1, t', p, !Leader(t', l));
    SameMaximum(t, t1);
    KeptTrans(t, t1, t', l, !Leader(t', l));
  }

  lemma OutcomeIs(t: Table, t': Table, p: Process, w: Status, ru: nat, notify: bool, jf: set<Flag>)
    requires Known(t) && p in t.procs && p in t.recs && Known(Told(t, p, w, ru))
    requires forall x :: x != PTIME ==> (x in jf <==> Any(Told(t, p, w, ru), p, x))
    requires StatesAfter(t, Told(t, p, w, ru), p, w) && SameStates(Told(t, p, w, ru), t')
    requires jf * {PRUNNING, PREPORTED} != {} ==> t'.pcurrent == t.pcurrent && t'.pprevious == t.pprevious && Leader(t', First(t, p))
    requires jf * {PRUNNING, PREPORTED} == {} ==> Settled(t, t', First(t, p), jf, notify)
    requires var gone := !Leader(t', First(t, p)); OnlyJob(t, t', p, gone) && Kept(t, t', First(t, p), gone)
    ensures Outcome(t, t', p, w, ru, notify)
  {
    hide Any, Leader, Settled, StatesAfter, OnlyJob, Kept;
    StatesChain(t, Told(t, p, w, ru), t', p, w);
    NeitherOf(jf, PRUNNING, PREPORTED);
    SettledIs(t, t', First(t, p), jf, notify);
  }

  lemma NeitherOf(jf: set<Flag>, x: Flag, y: Flag)
    ensures jf * {x, y} == {} <==> x !in jf && y !in jf
  {
    assert x in jf ==> x in jf * {x, y};
    assert y in jf ==> y in jf * {x, y};
  }

  lemma SettledIs(t: Table, t': Table, l: Process, jf: set<Flag>, notify: bool)
    requires Settled(t, t', l, jf, notify) || jf * {PRUNNING, PREPORTED} != {}
    ensures jf * {PRUNNING, PREPORTED} == {} ==>
              if PSTOPPED in jf then
                && t'.pcurrent == l && Leader(t', l)
                && t'.pprevious == (if t.pcurrent == null || t.pcurrent == l then t.pprevious else t.pcurrent)
              else
                && t'.pcurrent != l && t'.pprevious != l
                && (Leader(t', l) <==> PFOREGND in jf || (PNOTIFY !in jf && !notify))
  {
    hide Leader;
  }

  lemma StatesChain(t: Table, u: Table, t': Table, p: Process, w: Status)
    requires Known(t) && Known(u) && StatesAfter(t, u, p, w) && SameStates(u, t')
    ensures StatesAfter(t, t', p, w)
  {
  }

  /** The job with leader l has settled with the flags jf. */
  ghost predicate Settled(t: Table, t': Table, l: Process, jf: set<Flag>, notify: bool) {
    if PSTOPPED in jf then
      && t'.pcurrent == l && Leader(t', l)
      && t'.pprevious == (if t.pcurrent == null || t.pcurrent == l then t.pprevious else t.pcurrent)
    else
      && t'.pcurrent != l && t'.pprevious != l
      && (Leader(t', l) <==> PFOREGND in jf || (PNOTIFY !in jf && !notify))
  }

  lemma TimedState(t: Table, limit: Option<nat>)
    requires Known(t)
    ensures KeepsState(t, Timed(limit))
  {
  }

  lemma ReportedState(t: Table)
    requires Known(t)
    ensures KeepsState(t, Reported())
  {
  }

  lemma TellGood(t: Table, t1: Table, p: Process, w: Status, ru: nat)
    requires Good(t) && p in t.procs && p in t.recs && t1 == Told(t, p, w, ru) && t.recs[p].flags * {PRUNNING, PSTOPPED} != {}
    ensures Good(t1) && StatesAfter(t, t1, p, w)
    ensures SameLeaders(t, t1)
  {
    hide Closed, Jobs, Numbered, Currents, Cwds, Listed, OneState;
    assert OneState(t.recs[p].flags);
    StatusState(t.recs[p].flags, w);
    OneRecGood(t, t1, p, Recorded(t.recs[p], w, ru));
  }

  /** What was collected over the walk, flag by flag. */
  lemma GatheredAny(t: Table, p: Process, jobflags: set<Flag>)
    requires Known(t) && Closed(t) && p in t.procs && forall q <- Walk(t, p) :: q in t.recs
    requires jobflags - {PTIME} == Union(t.recs, Walk(t, p), |Walk(t, p)|) - {PTIME}
    ensures forall x :: x != PTIME ==> (x in jobflags <==> Any(t, p, x))
  {
    hide Closed, Walk;
    var u := Union(t.recs, Walk(t, p), |Walk(t, p)|);
    forall x | x != PTIME
      ensures x in jobflags <==> Any(t, p, x)
    {
      UnionAny(t, p, x);
      assert x in jobflags - {PTIME} <==> x in u - {PTIME};
    }
  }

  /** The table once the status is written. */
  ghost function Told(t: Table, p: Process, w: Status, ru: nat): Table
    requires p in t.recs
  {
    t.(recs := t.recs[p := Recorded(t.recs[p], w, ru)])
  }

  /** The state bits of all records, where one has changed state. */
  ghost predicate StatesAfter(t: Table, t': Table, p: Process, w: Status)
    requires Known(t) && Known(t')
  {
    && t'.procs == t.procs
    && (forall q <- t.procs :: t'.recs[q].flags * PALLSTATES == if q == p then {StateFlag(w)} else t.recs[q].flags * PALLSTATES)
  }

  /** The unfinished job is the same, unless it is the one with leader l and that is gone, and the
      numbers are as good as they were. */
  ghost predicate Kept(t: Table, t': Table, l: Process, gone: bool) {
    && t'.pcurrjob == (if gone && t.pcurrjob == l then null else t.pcurrjob)
    && (t'.pmaxindex <= CHARMAX <==> t.pmaxindex <= CHARMAX)
  }

  lemma KeptTrans(t: Table, t1: Table, t2: Table, l: Process, gone: bool)
    requires Kept(t, t1, l, false) && Kept(t1, t2, l, gone)
    ensures Kept(t, t2, l, gone)
  {
  }

  lemma SameMaximum(t: Table, t': Table)
    requires t'.pcurrjob == t.pcurrjob && t'.pmaxindex == t.pmaxindex
    ensures forall l: Process :: Kept(t, t', l, false)
  {
  }

  /** What a status does to the job it is for: its records alone change, and it is gone exactly
      when its leader no longer is one. */
  ghost predicate Outcome(t: Table, t': Table, p: Process, w: Status, ru: nat, notify: bool) {
    && Known(t) && Known(t') && p in t.procs && StatesAfter(t, t', p, w)
    && t'.procs == t.procs && t'.place == t.place
    && OnlyJob(t, t', p, !Leader(t', First(t, p))) && Kept(t, t', First(t, p), !Leader(t', First(t, p)))
    && var u, l := Told(t, p, w, ru), First(t, p);
       if Any(u, p, PRUNNING) || Any(u, p, PREPORTED) then
         t'.pcurrent == t.pcurrent && t'.pprevious == t.pprevious && Leader(t', l)
       else if Any(u, p, PSTOPPED) then
         && t'.pcurrent == l && Leader(t', l)
         && t'.pprevious == (if t.pcurrent == null || t.pcurrent == l then t.pprevious else t.pcurrent)
       else
         && t'.pcurrent != l && t'.pprevious != l
         && (Leader(t', l) <==> Any(u, p, PFOREGND) || (!Any(u, p, PNOTIFY) && !notify))
  }

  /** A record of the job after the first loop of pchild: here says that it is the one the status
      is for, alone that it is the only one. */
  ghost function Surveyed(r: Rec, here: bool, alone: bool, limit: Option<nat>): (s: Rec)
    ensures s.reason == r.reason && s.usage == r.usage
  {
    var late := r.flags * {PPTIME, PRUNNING, PSTOPPED} == {} && limit.Some? && r.usage >= limit.value;
    var f := if late then r.flags + {PTIME} else r.flags;
    r.(flags := if !here then f else if alone && PPTIME in f then f - {PFOREGND, PPTIME} + {PTIME} else f - {PFOREGND})
  }

  /** A record of a job that has settled. */
  ghost function SettledRec(r: Rec, leader: bool, stopped: bool, fore: bool, now: bool): (s: Rec)
    ensures s.reason == r.reason && s.usage == r.usage
  {
    var f := if PSTOPPED in r.flags then r.flags + {PREPORTED} else r.flags;
    if fore || (stopped && now) then r.(flags := f)
    else if now then r.(flags := f - {PNEEDNOTE}, pid := 0, index := 0)
    else r.(flags := if leader then f + {PNEEDNOTE} else f)
  }

  /** Every record after a status for p. */
  ghost function RecAfter(t: Table, p: Process, w: Status, ru: nat, limit: Option<nat>, notify: bool, q: Process): Rec
    requires Known(t) && p in t.procs && p in t.recs && q in t.procs && Known(Told(t, p, w, ru))
  {
    var u := Told(t, p, w, ru);
    var r := Surveyed(u.recs[q], q == p, t.recs[p].friends == p, limit);
    if t.place[q].job != t.place[p].job then t.recs[q]
    else if Any(u, p, PRUNNING) || Any(u, p, PREPORTED) then r
    else SettledRec(r, q == First(t, p), Any(u, p, PSTOPPED), Any(u, p, PFOREGND), Any(u, p, PNOTIFY) || notify)
  }

  ghost predicate AllMarked(t: Table, t': Table, p: Process) {
    && Known(t) && Known(t') && p in t.procs && t'.procs == t.procs && t'.place == t.place
    && (forall q <- t.procs :: t'.recs[q] == if t.place[q].job == t.place[p].job then Reported()(t.recs[q]) else t.recs[q])
  }

  lemma MarkedToo(t: Table, t1: Table, t': Table, p: Process)
    requires AllMarked(t, t1, p) && Known(t') && t'.procs == t1.procs && t'.place == t1.place && t'.recs == t1.recs
    ensures AllMarked(t, t', p)
  {
  }

  lemma AllMarkedIs(t: Table, t1: Table, t': Table, p: Process)
    requires Known(t) && Closed(t) && Known(t') && p in t.procs && t'.procs == t.procs && t'.place == t.place
    requires Changed(t, t1, p, Reported()) && t'.recs == t1.recs
    ensures AllMarked(t, t', p)
  {
    hide Closed, Changed, Reported;
    forall q <- t.procs
      ensures t'.recs[q] == if t.place[q].job == t.place[p].job then Reported()(t.recs[q]) else t.recs[q]
    {
      ChangedRec(t, t1, p, Reported(), q);
    }
  }

  ghost function TidiedRec(r: Rec, leader: bool, stopped: bool, now: bool): Rec {
    if now then (if stopped then r else Gone(r))
    else if leader then r.(flags := r.flags + {PNEEDNOTE}) else r
  }

  ghost predicate AllTidied(t: Table, t': Table, p: Process, stopped: bool, now: bool) {
    && Known(t) && Known(t') && p in t.procs && t'.procs == t.procs && t'.place == t.place
    && (forall q <- t.procs :: t'.recs[q] == if t.place[q].job == t.place[p].job
                                             then TidiedRec(t.recs[q], q == First(t, p), stopped, now) else t.recs[q])
  }

  lemma FlushTidies(t: Table, t': Table, l: Process, p: Process)
    requires Known(t) && Closed(t) && Known(t') && p in t.procs && l in t.procs && t'.procs == t.procs && t'.place == t.place
    requires t.place[l].job == t.place[p].job && Changed(t, t', l, Gone)
    ensures AllTidied(t, t', p, false, true)
  {
    hide Closed, Changed, Gone;
    forall q <- t.procs
      ensures t'.recs[q] == if t.place[q].job == t.place[p].job
                            then TidiedRec(t.recs[q], q == First(t, p), false, true) else t.recs[q]
    {
      ChangedRec(t, t', l, Gone, q);
    }
  }

  /** The records of a job that has settled. */
  ghost predicate AllSettled(t: Table, t': Table, p: Process, stopped: bool, fore: bool, now: bool) {
    && Known(t) && Known(t') && p in t.procs && t'.procs == t.procs && t'.place == t.place
    && (forall q <- t.procs :: t'.recs[q] == if t.place[q].job == t.place[p].job
                                             then SettledRec(t.recs[q], q == First(t, p), stopped, fore, now) else t.recs[q])
  }

  ghost predicate AllAfter(t: Table, t': Table, p: Process, w: Status, ru: nat, limit: Option<nat>, notify: bool) {
    && Known(t) && Known(t') && p in t.procs && p in t.recs && Known(Told(t, p, w, ru))
    && (forall q <- t.procs :: q in t'.recs && t'.recs[q] == RecAfter(t, p, w, ru, limit, notify, q))
  }

  lemma Reasons(t: Table, t': Table, p: Process, w: Status, ru: nat, limit: Option<nat>, notify: bool)
    requires AllAfter(t, t', p, w, ru, limit, notify)
    ensures forall q <- t.procs :: q in t.recs && q in t'.recs &&
              if q != p then t'.recs[q].reason == t.recs[q].reason && t'.recs[q].usage == t.recs[q].usage
              else t'.recs[q].reason == StatusReason(w) && (!w.Stopped? ==> t'.recs[q].usage == ru)
  {
    hide RecAfter, StatusReason;
    forall q <- t.procs
      ensures q in t.recs && t'.recs[q].reason == (if q == p then StatusReason(w) else t.recs[q].reason)
      ensures t'.recs[q].usage == if q == p && !w.Stopped? then ru else t.recs[q].usage
    {
      KnownAt(t, q);
      ReasonOf(t, p, w, ru, limit, notify, q);
    }
  }

  lemma ReasonOf(t: Table, p: Process, w: Status, ru: nat, limit: Option<nat>, notify: bool, q: Process)
    requires Known(t) && p in t.procs && p in t.recs && q in t.procs && q in t.recs && Known(Told(t, p, w, ru))
    ensures var r := RecAfter(t, p, w, ru, limit, notify, q);
            && r.reason == (if q == p then StatusReason(w) else t.recs[q].reason)
            && r.usage == (if q == p && !w.Stopped? then ru else t.recs[q].usage)
  {
    hide Any, StatusFlags, Surveyed, SettledRec;
  }

  lemma AllAfterIs(t: Table, t1: Table, t': Table, p: Process, w: Status, ru: nat, limit: Option<nat>, notify: bool, jf: set<Flag>)
    requires Known(t) && Known(t') && p in t.procs && p in t.recs && Known(Told(t, p, w, ru)) && Seen(Told(t, p, w, ru), t1, p, limit)
    requires forall x :: x != PTIME ==> (x in jf <==> Any(Told(t, p, w, ru), p, x))
    requires if jf * {PRUNNING, PREPORTED} == {} then AllSettled(t1, t', p, PSTOPPED in jf, PFOREGND in jf, PNOTIFY in jf || notify)
             else t'.recs == t1.recs && t'.procs == t1.procs
    ensures AllAfter(t, t', p, w, ru, limit, notify)
  {
    hide Any, Surveyed, SettledRec;
    NeitherOf(jf, PRUNNING, PREPORTED);
    forall q <- t.procs
      ensures q in t'.recs && t'.recs[q] == RecAfter(t, p, w, ru, limit, notify, q)
    {
    }
  }

  lemma MarkedSettles(t: Table, t1: Table, t': Table, p: Process, stopped: bool, fore: bool, now: bool)
    requires AllMarked(t, t1, p)
    requires if fore then t'.recs == t1.recs && t'.procs == t1.procs && t'.place == t1.place else AllTidied(t1, t', p, stopped, now)
    ensures AllSettled(t, t', p, stopped, fore, now)
  {
    forall q <- t.procs
      ensures t'.recs[q] == if t.place[q].job == t.place[p].job
                            then SettledRec(t.recs[q], q == First(t, p), stopped, fore, now) else t.recs[q]
    {
    }
  }

  ghost predicate Seen(t: Table, t': Table, p: Process, limit: Option<nat>) {
    && Known(t) && Known(t') && p in t.procs && t'.procs == t.procs && t'.place == t.place
    && (forall q <- t.procs :: t'.recs[q] == if t.place[q].job == t.place[p].job
                                             then Surveyed(t.recs[q], q == p, t.recs[p].friends == p, limit) else t.recs[q])
  }

  lemma SeenIs(t: Table, t1: Table, t': Table, p: Process, limit: Option<nat>)
    requires Known(t) && Closed(t) && Known(t') && p in t.procs && p in t.recs && p in t1.recs
    requires t1.procs == t.procs && t'.procs == t.procs && t'.place == t.place
    requires Changed(t, t1, p, Timed(limit)) && t'.recs == t1.recs[p := Ended(t1.recs[p], t.recs[p].friends == p)]
    ensures Seen(t, t', p, limit)
  {
    hide Closed, Changed, Timed, Ended, Surveyed;
    forall q <- t.procs
      ensures t'.recs[q] == if t.place[q].job == t.place[p].job
                            then Surveyed(t.recs[q], q == p, t.recs[p].friends == p, limit) else t.recs[q]
    {
      ChangedRec(t, t1, p, Timed(limit), q);
      SurveyedIs(t.recs[q], q == p, t.recs[p].friends == p, limit);
    }
  }

  ghost function Ended(r: Rec, alone: bool): Rec {
    var f := r.flags - {PFOREGND};
    r.(flags := if alone && PPTIME in f then f - {PPTIME} + {PTIME} else f)
  }

  lemma SurveyedIs(r: Rec, here: bool, alone: bool, limit: Option<nat>)
    ensures Surveyed(r, here, alone, limit) == if here then Ended(Timed(limit)(r), alone) else Timed(limit)(r)
  {
    var f := Timed(limit)(r).flags;
    assert f - {PFOREGND} - {PPTIME} + {PTIME} == f - {PFOREGND, PPTIME} + {PTIME};
  }

  lemma ButTime(f: set<Flag>, g: set<Flag>)
    ensures (f + g) - {PTIME} == (f - {PTIME}) + (g - {PTIME})
  {
  }

  function Timed(limit: Option<nat>): Rec -> Rec {
    (r: Rec) =>
      if r.flags * {PPTIME, PRUNNING, PSTOPPED} == {} && limit.Some? && r.usage >= limit.value
      then r.(flags := r.flags + {PTIME}) else r
  }

  function Reported(): Rec -> Rec {
    (r: Rec) => if PSTOPPED in r.flags then r.(flags := r.flags + {PREPORTED}) else r
  }

  function StartFlags(f: set<Flag>, foregnd: bool): set<Flag> {
    if f * {PRUNNING, PSTOPPED} == {} then f
    else
      var g := f + {PRUNNING} - {PSTOPPED};
      if foregnd then g + {PFOREGND} else g - {PFOREGND}
  }

  function Started(foregnd: bool): Rec -> Rec {
    (r: Rec) => r.(flags := StartFlags(r.flags, foregnd))
  }

  lemma GoneRecords(t: Table, t': Table, l: Process, p: Process)
    requires Known(t) && Closed(t) && l in t.procs && p in t.procs && t.place[l].job == t.place[p].job && Changed(t, t', l, Gone)
    ensures forall q <- t.procs :: q in t.recs && q in t.place && p in t.place && q in t'.recs &&
              t'.recs[q] == if t.place[q].job != t.place[p].job then t.recs[q]
                            else t.recs[q].(pid := 0, index := 0, flags := t.recs[q].flags - {PNEEDNOTE})
  {
    hide Closed, Changed;
    forall q <- t.procs
      ensures q in t'.recs && t'.recs[q] == if t.place[q].job != t.place[p].job then t.recs[q]
                                            else t.recs[q].(pid := 0, index := 0, flags := t.recs[q].flags - {PNEEDNOTE})
    {
      ChangedRec(t, t', l, Gone, q);
    }
  }

  lemma StartedFlags(t: Table, t': Table, p: Process, foregnd: bool)
    requires Known(t) && Closed(t) && p in t.procs && Changed(t, t', p, Started(foregnd))
    ensures forall q <- t.procs :: q in t.recs && q in t.place && p in t.place && q in t'.recs &&
              t'.recs[q].flags == if t.place[q].job != t.place[p].job || t.recs[q].flags * {PRUNNING, PSTOPPED} == {} then t.recs[q].flags
                                  else t.recs[q].flags - {PSTOPPED, PFOREGND} + {PRUNNING} + if foregnd then {PFOREGND} else {}
  {
    hide Closed, Changed;
    forall q <- t.procs
      ensures q in t'.recs && t'.recs[q].flags ==
              if t.place[q].job != t.place[p].job || t.recs[q].flags * {PRUNNING, PSTOPPED} == {} then t.recs[q].flags
              else t.recs[q].flags - {PSTOPPED, PFOREGND} + {PRUNNING} + if foregnd then {PFOREGND} else {}
    {
      ChangedRec(t, t', p, Started(foregnd), q);
    }
  }

  lemma StartedChange(t: Table, foregnd: bool)
    requires Known(t)
    ensures FlagChange(t, Started(foregnd))
  {
    forall p <- t.procs | OneState(t.recs[p].flags)
      ensures OneState(StartFlags(t.recs[p].flags, foregnd))
    {
      StartedState(t.recs[p].flags, foregnd);
    }
  }

  lemma StartedState(f: set<Flag>, foregnd: bool)
    requires OneState(f)
    ensures OneState(StartFlags(f, foregnd))
  {
    var g := StartFlags(f, foregnd);
    if f * {PRUNNING, PSTOPPED} != {} {
      assert forall a <- f :: a in PALLSTATES ==> a == PRUNNING || a == PSTOPPED;
      assert PRUNNING in g * PALLSTATES;
    }
  }
}
