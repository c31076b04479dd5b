/** Every map of the collector (ebpf/nvme_perf.bt) holds a count of the ledger: at each key what
    was submitted, completed or failed with that key. */
module Counters {
  import opened Tables
  import opened LogLines
  import opened History
  import opened Ledger
  import opened Conservation

  // ---- one argument for all maps ----

  lemma {:induction false} WeighIsSinceTick<K>(h: Run, f: Contribution<K>, keep: K -> bool, w: Weight)
    requires forall p, e :: Part(f(p, e), keep) == w(p, e)
    ensures Weigh(h, false, f, keep) == SinceTick(h, w)
  {
    if h.Next? {
      WeighIsSinceTick(h.before, f, keep, w);
    }
  }

  lemma {:induction false} WeighIsSinceStart<K>(h: Run, f: Contribution<K>, keep: K -> bool, w: Weight)
    requires forall p, e :: Part(f(p, e), keep) == w(p, e)
    ensures Weigh(h, true, f, keep) == SinceStart(h, w)
  {
    if h.Next? {
      WeighIsSinceStart(h.before, f, keep, w);
    }
  }

  /** The entries at the kept keys add up to the count of the events that contribute there. */
  lemma TotalCounts<K(!new)>(h: Run, f: Contribution<K>, keep: K -> bool, w: Weight)
    requires forall p, e :: Part(f(p, e), keep) == w(p, e)
    ensures Total(InTick(h, f), keep) == SinceTick(h, w)
  {
    TotalIsWeight(h, false, f, keep);
    WeighIsSinceTick(h, f, keep, w);
  }

  /** So one entry is the count at its key. */
  lemma EntryCounts<K(!new)>(h: Run, f: Contribution<K>, keep: K -> bool, k: K, w: Weight)
    requires forall p, e :: Part(f(p, e), keep) == w(p, e)
    requires forall j :: keep(j) <==> j == k
    ensures Get(InTick(h, f), k) == SinceTick(h, w)
  {
    TotalOne(InTick(h, f), keep, k);
    TotalCounts(h, f, keep, w);
  }

  ghost predicate HasKey<K(!new)>(m: map<K, nat>, keep: K -> bool) {
    exists k :: k in m && keep(k)
  }

  /** There is a key just when something was counted there. */
  lemma {:induction false} KeyMeans<K(!new)>(h: Run, f: Contribution<K>, keep: K -> bool, w: Weight)
    requires forall p, e :: w(p, e) >= 0 && (w(p, e) > 0 <==> f(p, e).Some? && keep(f(p, e).value.0))
    ensures SinceTick(h, w) >= 0 && (HasKey(InTick(h, f), keep) <==> SinceTick(h, w) > 0)
  {
    if h.Next? && !h.event.Tick? {
      var p, e := h.before, h.event;
      KeyMeans(p, f, keep, w);
      assert w(p, e) >= 0 && (w(p, e) > 0 <==> f(p, e).Some? && keep(f(p, e).value.0));
      if HasKey(InTick(p, f), keep) {
        var k :| k in InTick(p, f) && keep(k);
        assert k in InTick(h, f);
      }
      if w(p, e) > 0 {
        assert f(p, e).value.0 in InTick(h, f);
      }
    }
  }

  lemma {:induction false} KeyNeeds<K(!new)>(h: Run, f: Contribution<K>, keep: K -> bool, w: Weight)
    requires forall p, e :: w(p, e) >= 0 && (f(p, e).Some? && keep(f(p, e).value.0) ==> w(p, e) > 0)
    ensures SinceTick(h, w) >= 0 && (HasKey(InTick(h, f), keep) ==> SinceTick(h, w) > 0)
  {
    if h.Next? && !h.event.Tick? {
      var p, e := h.before, h.event;
      KeyNeeds(p, f, keep, w);
      assert w(p, e) >= 0 && (f(p, e).Some? && keep(f(p, e).value.0) ==> w(p, e) > 0);
      if k :| k in InTick(h, f) && keep(k) && k in InTick(p, f) {
        assert HasKey(InTick(p, f), keep);
      }
    }
  }

  lemma {:induction false} MovedMeans(h: Run, want: Command -> bool)
    ensures SinceTick(h, Reads(want)) >= 0 && SinceTick(h, Writes(want)) >= 0 && SinceTick(h, Moved(want)) >= 0
    ensures SinceTick(h, Moved(want)) > 0 <==> SinceTick(h, Reads(want)) + SinceTick(h, Writes(want)) > 0
    ensures SinceTick(h, Reads(want)) + SinceTick(h, Writes(want)) <= SinceTick(h, Sent(want))
  {
    if h.Next? {
      MovedMeans(h.before, want);
      if h.event.Submit? {
        assert BlockCount(h.event.cmd) >= 1;
      }
    }
  }

  lemma SizesAre()
    ensures forall c :: BytesOf(c) == 512 * BlockCount(c)
  {
    forall c
      ensures BytesOf(c) == 512 * BlockCount(c)
    {
      FieldsOf(c);
    }
  }

  // ---- submissions ----

  /** `@read_count`, `@write_count` and `@bytes_sum`: reads, writes and bytes of a queue. */
  lemma QueueReads(h: Run, ctrl: int, qid: int)
    ensures Get(Map2(h, ReadCount), (ctrl, qid)) == SinceTick(h, Reads(OnQueue(ctrl, qid)))
  {
    EntryCounts(h, ReadCountOf, At2(ctrl, qid), (ctrl, qid), Reads(OnQueue(ctrl, qid)));
  }

  lemma QueueWrites(h: Run, ctrl: int, qid: int)
    ensures Get(Map2(h, WriteCount), (ctrl, qid)) == SinceTick(h, Writes(OnQueue(ctrl, qid)))
  {
    EntryCounts(h, WriteCountOf, At2(ctrl, qid), (ctrl, qid), Writes(OnQueue(ctrl, qid)));
  }

  lemma QueueBytes(h: Run, ctrl: int, qid: int)
    ensures Get(Map2(h, BytesSum), (ctrl, qid)) == SinceTick(h, Moved(OnQueue(ctrl, qid)))
  {
    SizesAre();
    EntryCounts(h, BytesSumOf, At2(ctrl, qid), (ctrl, qid), Moved(OnQueue(ctrl, qid)));
  }

  /** The same for all queues of a controller. */
  lemma CtrlReads(h: Run, ctrl: int)
    ensures Total(Map2(h, ReadCount), Ctrl2(ctrl)) == SinceTick(h, Reads(OnCtrl(ctrl)))
  {
    TotalCounts(h, ReadCountOf, Ctrl2(ctrl), Reads(OnCtrl(ctrl)));
  }

  lemma CtrlWrites(h: Run, ctrl: int)
    ensures Total(Map2(h, WriteCount), Ctrl2(ctrl)) == SinceTick(h, Writes(OnCtrl(ctrl)))
  {
    TotalCounts(h, WriteCountOf, Ctrl2(ctrl), Writes(OnCtrl(ctrl)));
  }

  lemma CtrlBytes(h: Run, ctrl: int)
    ensures Total(Map2(h, BytesSum), Ctrl2(ctrl)) == SinceTick(h, Moved(OnCtrl(ctrl)))
  {
    SizesAre();
    TotalCounts(h, BytesSumOf, Ctrl2(ctrl), Moved(OnCtrl(ctrl)));
  }

  /** `@proc_rd`, `@proc_wr` and `@proc_bytes`: the same for a process. */
  lemma ProcessReads(h: Run, ctrl: int, pid: int)
    ensures Get(Map2(h, ProcRd), (ctrl, pid)) == SinceTick(h, Reads(ByProcess(ctrl, pid)))
  {
    EntryCounts(h, ProcRdOf, At2(ctrl, pid), (ctrl, pid), Reads(ByProcess(ctrl, pid)));
  }

  lemma ProcessWrites(h: Run, ctrl: int, pid: int)
    ensures Get(Map2(h, ProcWr), (ctrl, pid)) == SinceTick(h, Writes(ByProcess(ctrl, pid)))
  {
    EntryCounts(h, ProcWrOf, At2(ctrl, pid), (ctrl, pid), Writes(ByProcess(ctrl, pid)));
  }

  lemma ProcessBytes(h: Run, ctrl: int, pid: int)
    ensures Get(Map2(h, ProcBytes), (ctrl, pid)) == SinceTick(h, Moved(ByProcess(ctrl, pid)))
  {
    SizesAre();
    EntryCounts(h, ProcBytesOf, At2(ctrl, pid), (ctrl, pid), Moved(ByProcess(ctrl, pid)));
  }

  /** `@proc_bs`: the reads and writes of each size. */
  lemma ProcessSizes(h: Run, ctrl: int, pid: int, bytes: int)
    ensures Get(Map3(h, ProcBs), (ctrl, pid, bytes)) == SinceTick(h, MovedAtOnce(ByProcess(ctrl, pid), bytes))
  {
    SizesAre();
    EntryCounts(h, ProcBsOf, (k: (int, int, int)) => k == (ctrl, pid, bytes), (ctrl, pid, bytes),
      MovedAtOnce(ByProcess(ctrl, pid), bytes));
  }

  /** `@proc_q`: the submissions to each queue. */
  lemma ProcessQueues(h: Run, ctrl: int, pid: int, qid: int)
    ensures Get(Map3(h, ProcQ), (ctrl, pid, qid)) == SinceTick(h, Sent(ByProcessOn(ctrl, pid, qid)))
  {
    EntryCounts(h, ProcQOf, (k: (int, int, int)) => k == (ctrl, pid, qid), (ctrl, pid, qid), Sent(ByProcessOn(ctrl, pid, qid)));
  }

  /** `@proc_ops` and `@thr_ops`: the submissions under each name. */
  lemma ProcessSubmissions(h: Run, ctrl: int, pid: int, comm: string)
    ensures Get(InTick(h, ProcOpsOf), (ctrl, pid, comm)) == SinceTick(h, Sent(ByName(ctrl, pid, comm)))
  {
    EntryCounts(h, ProcOpsOf, (k: (int, int, string)) => k == (ctrl, pid, comm), (ctrl, pid, comm), Sent(ByName(ctrl, pid, comm)));
  }

  lemma ThreadSubmissions(h: Run, ctrl: int, pid: int, tid: int, comm: string)
    ensures Get(InTick(h, ThrOpsOf), (ctrl, pid, tid, comm)) == SinceTick(h, Sent(ByThread(ctrl, pid, tid, comm)))
  {
    EntryCounts(h, ThrOpsOf, (k: (int, int, int, string)) => k == (ctrl, pid, tid, comm), (ctrl, pid, tid, comm),
      Sent(ByThread(ctrl, pid, tid, comm)));
  }

  /** `@last_lba_end`: the block behind the process's last read or write. */
  lemma {:induction false} LastEndExact(h: Run, ctrl: int, pid: int)
    ensures Get(LastEnd(h), (ctrl, pid)) == NextBlock(h, ctrl, pid)
  {
    if h.Next? {
      LastEndExact(h.before, ctrl, pid);
      if h.event.Submit? {
        FieldsOf(h.event.cmd);
      }
    }
  }

  lemma ContinuesExact(p: Run, c: Command)
    ensures Continues(p, c) <==> Adjoins(p, c)
  {
    LastEndExact(p, c.ctrl, c.pid);
    FieldsOf(c);
  }

  lemma Adjoining(p: Run, e: Event, ctrl: int, pid: int)
    ensures Part(ProcSeqOf(p, e), At2(ctrl, pid)) == InSequence(ByProcess(ctrl, pid))(p, e)
    ensures Part(ProcRandOf(p, e), At2(ctrl, pid)) == OutOfSequence(ByProcess(ctrl, pid))(p, e)
  {
    if e.Submit? {
      ContinuesExact(p, e.cmd);
    }
  }

  /** `@proc_seq` and `@proc_rand`: reads and writes that start where the one before ended, and the
      others. */
  lemma ProcessPattern(h: Run, ctrl: int, pid: int)
    ensures Get(Map2(h, ProcSeq), (ctrl, pid)) == SinceTick(h, InSequence(ByProcess(ctrl, pid)))
    ensures Get(Map2(h, ProcRand), (ctrl, pid)) == SinceTick(h, OutOfSequence(ByProcess(ctrl, pid)))
  {
    var at, k, near, far := At2(ctrl, pid), (ctrl, pid), InSequence(ByProcess(ctrl, pid)), OutOfSequence(ByProcess(ctrl, pid));
    forall p, e
      ensures Part(ProcSeqOf(p, e), at) == near(p, e) && Part(ProcRandOf(p, e), at) == far(p, e)
    {
      Adjoining(p, e, ctrl, pid);
    }
    EntryCounts(h, ProcSeqOf, at, k, near);
    EntryCounts(h, ProcRandOf, at, k, far);
  }

  // ---- completions ----

  /** The seen command an event completes is the one outstanding under its id. */
  lemma FinishedIs(p: Run, e: Event)
    requires e.Complete?
    ensures Finished(p, e) == Outstanding(p, e.done.ctrl, e.done.qid, e.done.cid)
  {
    PendingIsOutstanding(p, e.done.ctrl, e.done.qid, e.done.cid);
  }

  lemma {:induction false} OutstandingHas(p: Run, ctrl: int, qid: int, cid: nat)
    requires Outstanding(p, ctrl, qid, cid).Some?
    ensures var c := Outstanding(p, ctrl, qid, cid).value; c.ctrl == ctrl && c.qid == qid && c.cid == cid
  {
    if Outstanding(p.before, ctrl, qid, cid).Some? {
      OutstandingHas(p.before, ctrl, qid, cid);
    }
  }

  lemma QueueAnswer(p: Run, e: Event, ctrl: int, qid: int)
    ensures Part(LatCountOf(p, e), At2(ctrl, qid)) == Answered(OnQueue(ctrl, qid))(p, e)
    ensures Part(LatSumOf(p, e), At2(ctrl, qid)) == Waited(OnQueue(ctrl, qid))(p, e)
  {
    if e.Complete? {
      FinishedIs(p, e);
      if Finished(p, e).Some? {
        OutstandingHas(p, e.done.ctrl, e.done.qid, e.done.cid);
      }
    }
  }

  /** `@op_count`, `@lat_count` and `@lat_sum`: the completions of a queue and what they took. */
  lemma QueueLatencies(h: Run, ctrl: int, qid: int)
    ensures Get(Map2(h, OpCount), (ctrl, qid)) == SinceTick(h, Answered(OnQueue(ctrl, qid)))
    ensures Get(Map2(h, LatCount), (ctrl, qid)) == SinceTick(h, Answered(OnQueue(ctrl, qid)))
    ensures Get(Map2(h, LatSum), (ctrl, qid)) == SinceTick(h, Waited(OnQueue(ctrl, qid)))
  {
    var at, k, count, sum := At2(ctrl, qid), (ctrl, qid), Answered(OnQueue(ctrl, qid)), Waited(OnQueue(ctrl, qid));
    forall p, e
      ensures Part(LatCountOf(p, e), at) == count(p, e) && Part(LatSumOf(p, e), at) == sum(p, e)
    {
      QueueAnswer(p, e, ctrl, qid);
    }
    EntryCounts(h, LatCountOf, at, k, count);
    EntryCounts(h, LatSumOf, at, k, sum);
  }

  lemma ProcessAnswer(p: Run, e: Event, ctrl: int, pid: int)
    requires pid != 0
    ensures Part(ProcLatCntOf(p, e), At2(ctrl, pid)) == Answered(ByProcess(ctrl, pid))(p, e)
    ensures Part(ProcLatSumOf(p, e), At2(ctrl, pid)) == Waited(ByProcess(ctrl, pid))(p, e)
  {
    if e.Complete? {
      FinishedIs(p, e);
      if Finished(p, e).Some? {
        OutstandingHas(p, e.done.ctrl, e.done.qid, e.done.cid);
      }
    }
  }

  /** `@proc_lat_cnt` and `@proc_lat_sum`: the same for the process that submitted the command. */
  lemma ProcessLatencies(h: Run, ctrl: int, pid: int)
    requires pid != 0
    ensures Get(Map2(h, ProcLatCnt), (ctrl, pid)) == SinceTick(h, Answered(ByProcess(ctrl, pid)))
    ensures Get(Map2(h, ProcLatSum), (ctrl, pid)) == SinceTick(h, Waited(ByProcess(ctrl, pid)))
  {
    var at, k, count, sum := At2(ctrl, pid), (ctrl, pid), Answered(ByProcess(ctrl, pid)), Waited(ByProcess(ctrl, pid));
    forall p, e
      ensures Part(ProcLatCntOf(p, e), at) == count(p, e) && Part(ProcLatSumOf(p, e), at) == sum(p, e)
    {
      ProcessAnswer(p, e, ctrl, pid);
    }
    EntryCounts(h, ProcLatCntOf, at, k, count);
    EntryCounts(h, ProcLatSumOf, at, k, sum);
  }

  /** Commands of pid 0 are charged to no process. */
  lemma {:induction false} IdleUncharged(h: Run, ctrl: int)
    ensures (ctrl, 0) !in Map2(h, ProcLatCnt) && (ctrl, 0) !in Map2(h, ProcLatSum)
  {
    if h.Next? {
      IdleUncharged(h.before, ctrl);
    }
  }

  lemma CtrlAnswer(p: Run, e: Event, ctrl: int)
    ensures Part(LatCountOf(p, e), Ctrl2(ctrl)) == Answered(OnCtrl(ctrl))(p, e)
  {
    if e.Complete? {
      FinishedIs(p, e);
      if Finished(p, e).Some? {
        OutstandingHas(p, e.done.ctrl, e.done.qid, e.done.cid);
      }
    }
  }

  /** All completions of a controller. */
  lemma CtrlAnswers(h: Run, ctrl: int)
    ensures Total(Map2(h, LatCount), Ctrl2(ctrl)) == SinceTick(h, Answered(OnCtrl(ctrl)))
  {
    var count := Answered(OnCtrl(ctrl));
    forall p, e
      ensures Part(LatCountOf(p, e), Ctrl2(ctrl)) == count(p, e)
    {
      CtrlAnswer(p, e, ctrl);
    }
    TotalCounts(h, LatCountOf, Ctrl2(ctrl), count);
  }

  // ---- errors ----

  lemma StatusCode(s: nat, sct: int, sc: int)
    ensures (s / 0x100 % 8 == sct && s % 0x100 == sc) <==> (0 <= sc < 0x100 && s % 0x800 == 0x100 * sct + sc)
  {
    var t := s % 0x800;
    assert s == 0x800 * (s / 0x800) + t;
    assert s / 0x100 / 8 == s / 0x800;
    assert t == 0x100 * (s / 0x100 % 8) + s % 0x100;
  }

  lemma ErrorAt(p: Run, e: Event, ctrl: int, sct: int, sc: int)
    ensures Part(ErrCountOf(p, e), (k: (int, int, int)) => k == (ctrl, sct, sc)) == Failed(FailedWith(ctrl, sct, sc))(p, e)
  {
    if e.Complete? {
      StatusCode(e.done.status, sct, sc);
    }
  }

  /** `@err_count`: at each controller, status type and status code the failed completions with them,
      since the collector attached. There is an entry exactly where there was one. */
  lemma ErrorCounts(h: Run, ctrl: int, sct: int, sc: int)
    ensures Get(Map3(h, ErrCount), (ctrl, sct, sc)) == SinceStart(h, Failed(FailedWith(ctrl, sct, sc)))
    ensures (ctrl, sct, sc) in Map3(h, ErrCount) <==> SinceStart(h, Failed(FailedWith(ctrl, sct, sc))) > 0
    ensures (ctrl, sct, sc) in Map3(h, ErrCount) ==> 0 <= sct < 8 && 0 <= sc < 0x100
  {
    var at, w := (k: (int, int, int)) => k == (ctrl, sct, sc), Failed(FailedWith(ctrl, sct, sc));
    forall p, e
      ensures Part(ErrCountOf(p, e), at) == w(p, e)
    {
      ErrorAt(p, e, ctrl, sct, sc);
    }
    TotalIsWeight(h, true, ErrCountOf, at);
    WeighIsSinceStart(h, ErrCountOf, at, w);
    TotalOne(Ever(h, ErrCountOf), at, (ctrl, sct, sc));
    ErrorEntries(h, ctrl, sct, sc);
  }

  lemma {:induction false} ErrorEntries(h: Run, ctrl: int, sct: int, sc: int)
    ensures (ctrl, sct, sc) in Ever(h, ErrCountOf) ==>
              Ever(h, ErrCountOf)[(ctrl, sct, sc)] > 0 && 0 <= sct < 8 && 0 <= sc < 0x100
  {
    if h.Next? {
      ErrorEntries(h.before, ctrl, sct, sc);
    }
  }
}
