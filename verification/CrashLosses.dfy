/** What a crash or a lost message can cost: transactions that stay undecided, and committed writes that recovery does not bring back. */
module CrashLosses {
  import opened Records
  import opened ResourceManager
  import opened Coordinator
  import opened CrashRecovery
  import opened CrashTheorems

  // ---- Transactions without a decision ----

  /** An orphan left prepare records and nothing else, on file and in memory, and is not the current transaction. */
  ghost predicate IsOrphan(s: State, id: Int32) {
    && id < s.next && (s.stage != NoTxn ==> id != s.cur)
    && OfTxn(s.disk, id) != [] && !IsDecided(OfTxn(s.disk, id)) && !IsDecided(Entry(s.txnLog, id))
  }

  ghost predicate OrphansAre(s: State) {
    forall id | id in s.orphans :: IsOrphan(s, id)
  }

  lemma AppendKeepsOrphan(s: State, more: seq<LogRec>, t: State, id: Int32)
    requires IsOrphan(s, id) && s.stage != NoTxn
    requires t == s.(disk := s.disk + more, pc := t.pc, stage := t.stage) && (t.stage != NoTxn ==> s.stage != NoTxn)
    requires forall r | r in more :: r.txn == s.cur
    ensures IsOrphan(t, id)
  {
    OfTxnConcat(s.disk, more, id);
    OfTxnAll(more, id, s.cur);
    assert OfTxn(s.disk, id) + [] == OfTxn(s.disk, id);
  }

  lemma StepKeepsOrphan(s: State, e: Event, id: Int32)
    requires Shape(s) && Enabled(s, e) && e != Crash && IsOrphan(s, id)
    ensures IsOrphan(Next(s, e), id)
  {
    hide OfTxn, IsDecided, Paired, NewTxnLog, CommitRecs, RecOps, Group, LogBelow;
    match e
    case AppendPrepare => AppendKeepsOrphan(s, s.recs, Next(s, e), id);
    case AppendAbort => AppendKeepsOrphan(s, [AbortRec(s.cur)], Next(s, e), id);
    case AppendCommit =>
      CommitRecsAre(s.cur, s.recs);
      AppendKeepsOrphan(s, CommitRecs(s.cur, s.recs), Next(s, e), id);
    case Install =>
      NewTxnLogIs(s.cur, s.recs);
      NothingDecided();
    case _ =>
  }

  /** The transaction whose decision is lost is the one new orphan, unless it has no writes. */
  lemma LoseDecisionKeepsOrphans(s: State)
    requires Shape(s) && OrphansAre(s) && Enabled(s, LoseDecision)
    ensures OrphansAre(Next(s, LoseDecision))
  {
    CurrentOnFile(s);
    hide OfTxn, IsDecided;
    var t := Next(s, LoseDecision);
    forall id | id in t.orphans
      ensures IsOrphan(t, id)
    {
      assert id == s.cur || IsOrphan(s, id);
      assert id == s.cur ==> Entry(s.txnLog, id) == s.recs == OfTxn(s.disk, id);
    }
  }

  lemma NothingDecided()
    ensures !IsDecided([])
  {
  }

  lemma OrphanAfterCrash(s: State, id: Int32)
    requires id < s.next && OfTxn(s.disk, id) != [] && !IsDecided(OfTxn(s.disk, id))
    ensures IsOrphan(Next(s, Crash), id)
  {
    hide IsDecided, OfTxn, HalfDurable, Undecided, Group;
    GroupIs(s.disk, id);
  }

  lemma OrphanInCrash(s: State, id: Int32)
    requires Shape(s) && (IsOrphan(s, id) || (Undecided(s) && id == s.cur))
    ensures IsOrphan(Next(s, Crash), id)
  {
    if Undecided(s) && id == s.cur {
      CurrentOnFile(s);
    }
    hide IsDecided, OfTxn, HalfDurable, Group, LogBelow, Paired, CommitRecs;
    OrphanAfterCrash(s, id);
  }

  lemma CrashKeepsOrphans(s: State)
    requires Shape(s) && OrphansAre(s)
    ensures OrphansAre(Next(s, Crash))
  {
    hide IsOrphan, HalfDurable, Undecided, Shape, Group;
    forall id | id in Next(s, Crash).orphans
      ensures IsOrphan(Next(s, Crash), id)
    {
      OrphanInCrash(s, id);
    }
  }

  lemma StepKeepsOrphans(s: State, e: Event)
    requires Shape(s) && Enabled(s, e) && OrphansAre(s)
    ensures OrphansAre(Next(s, e))
  {
    hide IsOrphan, Shape;
    if e == Crash {
      CrashKeepsOrphans(s);
    } else if e == LoseDecision {
      LoseDecisionKeepsOrphans(s);
    } else {
      forall id | id in s.orphans
        ensures IsOrphan(Next(s, e), id)
      {
        StepKeepsOrphan(s, e, id);
      }
    }
  }

  // ---- Committed writes that recovery does not bring back ----

  /** Commit records of the transaction are on file. */
  predicate CommitOnFile(s: State, id: Int32) {
    CommittedOps(OfTxn(s.disk, id)) != []
  }

  ghost predicate IsLost(s: State, id: Int32) {
    CommitOnFile(s, id) && id !in s.ids && id < s.next && (s.stage != NoTxn ==> id != s.cur)
  }

  ghost predicate LostAre(s: State) {
    && (forall id | id in s.lost :: IsLost(s, id))
    && (forall id | CommitOnFile(s, id) :: id in s.ids || id in s.lost || (HalfDurable(s) && id == s.cur))
  }

  lemma CommitOnFileAppended(s: State, more: seq<LogRec>, id: Int32)
    requires forall r | r in more :: r.txn == s.cur
    ensures var after := CommittedOps(OfTxn(s.disk + more, id));
            after == CommittedOps(OfTxn(s.disk, id)) + if id == s.cur then CommittedOps(more) else []
  {
    OfTxnConcat(s.disk, more, id);
    OfTxnAll(more, id, s.cur);
    CommittedOpsConcat(OfTxn(s.disk, id), OfTxn(more, id));
    NoCommits();
  }

  lemma AppendKeepsLost(s: State, more: seq<LogRec>, t: State)
    requires LostAre(s) && s.stage != NoTxn && s.pc != Appended
    requires t == s.(disk := s.disk + more, pc := t.pc, stage := t.stage)
    requires forall r | r in more :: r.txn == s.cur
    requires CommittedOps(more) == if t.pc == Appended then RecOps(s.recs) else []
    ensures LostAre(t)
  {
    hide OfTxn, CommittedOps;
    forall id
      ensures CommittedOps(OfTxn(t.disk, id))
              == CommittedOps(OfTxn(s.disk, id)) + if id == s.cur then CommittedOps(more) else []
    {
      CommitOnFileAppended(s, more, id);
    }
    forall id | CommitOnFile(t, id)
      ensures id in t.ids || id in t.lost || (HalfDurable(t) && id == t.cur)
    {
      assert id != s.cur || CommittedOps(more) == [] ==> CommitOnFile(s, id);
    }
    forall id | id in t.lost
      ensures IsLost(t, id)
    {
      assert IsLost(s, id);
    }
  }

  /** The current transaction between its commit records and the rewrite. */
  lemma HalfDurableOnFile(s: State)
    requires Shape(s) && WholeTxns(s) && HalfDurable(s)
    ensures CommitOnFile(s, s.cur) && s.cur !in s.ids
  {
    CommitIsWhole(s.disk, s.cur, s.recs);
    assert |RecOps(s.recs)| == |s.recs|;
  }

  /** Steps that leave the file alone. */
  lemma QuietKeepsLost(s: State, e: Event)
    requires LostAre(s) && Enabled(s, e) && Next(s, e).disk == s.disk
    requires HalfDurable(s) ==> CommitOnFile(s, s.cur) && s.cur !in s.ids && s.cur < s.next
    requires e == Issue ==> !CommitOnFile(s, s.next)
    requires e == Rewrite && s.recs == [] ==> !CommitOnFile(s, s.cur)
    requires e == Rewrite ==> s.stage != NoTxn
    ensures LostAre(Next(s, e))
  {
    hide OfTxn, CommittedOps, NewTxnLog, Group, RecOps, InsertPrepared, PrepareRecs, Vote, UpdateValue, CommitRecs;
    match e
    case Crash =>
    case _ =>
  }

  lemma StepKeepsLost(s: State, e: Event)
    requires Shape(s) && WholeTxns(s) && Enabled(s, e) && LostAre(s)
    ensures LostAre(Next(s, e))
  {
    if HalfDurable(s) {
      HalfDurableOnFile(s);
    }
    NoCommits();
    hide OfTxn, CommittedOps, Paired, NewTxnLog, CommitRecs, Group, LogBelow, RecOps, IsWhole, Undecided, LostAre, WholeTxns;
    match e
    case AppendPrepare =>
      CommittedOpsOfOthers(s.recs);
      AppendKeepsLost(s, s.recs, Next(s, e));
    case AppendAbort =>
      CommittedOpsOfOthers([AbortRec(s.cur)]);
      AppendKeepsLost(s, [AbortRec(s.cur)], Next(s, e));
    case AppendCommit =>
      CommitRecsAre(s.cur, s.recs);
      CommittedOpsOfCommit(s.cur, s.recs);
      AppendKeepsLost(s, CommitRecs(s.cur, s.recs), Next(s, e));
    case Issue =>
      NoRecordsYet(s.disk, s.next);
      QuietKeepsLost(s, e);
    case Rewrite =>
      CommitRecsAre(s.cur, s.recs);
      QuietKeepsLost(s, e);
    case _ => QuietKeepsLost(s, e);
  }

  // ---- Over every run ----

  ghost predicate Accounted(base: Store, s: State) {
    Inv(base, s) && OrphansAre(s) && LostAre(s)
  }

  lemma StepKeepsAccounted(base: Store, s: State, e: Event)
    requires Accounted(base, s) && Enabled(s, e)
    ensures Accounted(base, Next(s, e))
  {
    StepKeepsInv(base, s, e);
    hide Shape, ThreeViews, Consistent, LogsAgree, WholeTxns, OrphansAre, LostAre;
    StepKeepsOrphans(s, e);
    StepKeepsLost(s, e);
  }

  lemma {:induction false} RunsKeepAccounted(base: Store, s: State, events: seq<Event>)
    requires Accounted(base, s)
    ensures Trace(s, events).Ended? ==> Accounted(base, Trace(s, events).s)
    decreases |events|
  {
    hide Accounted;
    if events != [] && Enabled(s, events[0]) {
      StepKeepsAccounted(base, s, events[0]);
      RunsKeepAccounted(base, Next(s, events[0]), events[1..]);
    }
  }

  lemma AccountedReached(base: Store, events: seq<Event>, s: State)
    requires Reaches(base, events, s)
    ensures Accounted(base, s)
  {
    InitInv(base);
    assert Accounted(base, Init(base)) by {
      NoCommits();
    }
    RunsKeepAccounted(base, Init(base), events);
  }

  /** The events that cut a prepared transaction off from its decision. */
  predicate NothingCut(events: seq<Event>) {
    Crash !in events && LoseDecision !in events
  }

  lemma {:induction false} NothingCutNoOrphans(s: State, events: seq<Event>)
    requires s.orphans == {} && NothingCut(events)
    ensures Trace(s, events).Ended? ==> Trace(s, events).s.orphans == {}
    decreases |events|
  {
    hide NewTxnLog, Group, PrepareRecs, ValidPrefix, InsertPrepared, RecOps, CommitRecs;
    if events != [] && Enabled(s, events[0]) {
      assert events[0] in events && forall e | e in events[1..] :: e in events;
      NothingCutNoOrphans(Next(s, events[0]), events[1..]);
    }
  }

  lemma {:induction false} NoCrashNothingLost(s: State, events: seq<Event>)
    requires s.lost == {} && Crash !in events
    ensures Trace(s, events).Ended? ==> Trace(s, events).s.lost == {}
    decreases |events|
  {
    hide NewTxnLog, Group, PrepareRecs, ValidPrefix, InsertPrepared, RecOps, CommitRecs;
    if events != [] && Enabled(s, events[0]) {
      assert events[0] in events && forall e | e in events[1..] :: e in events;
      NoCrashNothingLost(Next(s, events[0]), events[1..]);
    }
  }

  /** A transaction with records on file stays undecided exactly when a crash or a lost decision cut it off, or it is
      the current one and its decision has not been written yet. */
  lemma UndecidedExactlyOrphans(base: Store, events: seq<Event>, s: State, id: Int32)
    requires Reaches(base, events, s) && OfTxn(s.disk, id) != []
    ensures !IsDecided(OfTxn(s.disk, id)) <==> id in s.orphans || (id == s.cur && Undecided(s))
  {
    AccountedReached(base, events, s);
    if s.stage == Logged {
      CurrentOnFile(s);
    }
    hide IsDecided, LostAre, ThreeViews, LogsAgree, WholeTxns, Shape, Reaches, OfTxn, Undecided;
    assert OfTxn(s.disk, id)[0] in OfTxn(s.disk, id);
  }

  lemma OrphanEntries(s: State, id: Int32)
    requires Consistent(s) && OrphansAre(s) && id in s.txnLog && s.txnLog[id] != [] && (s.stage == Logged ==> id != s.cur)
    ensures !IsDecided(s.txnLog[id]) <==> id in s.orphans
  {
    hide IsDecided, OfTxn;
    assert id in s.orphans ==> IsOrphan(s, id);
  }

  /** What the table a commit throws away holds besides its own transaction: an entry with records in it is undecided
      exactly when a crash or a lost decision cut it off, so without either nothing undecided is thrown away. */
  lemma CommitDiscardsOnlyDecided(base: Store, events: seq<Event>, s: State, id: Int32)
    requires Reaches(base, events, s) && s.pc.Writing? && id in s.txnLog && s.txnLog[id] != [] && id != s.cur
    ensures !IsDecided(s.txnLog[id]) <==> id in s.orphans
    ensures NothingCut(events) ==> IsDecided(s.txnLog[id])
  {
    AccountedReached(base, events, s);
    hide LogsAgree, ThreeViews, WholeTxns, Shape, LostAre, Consistent, OrphansAre, OfTxn, IsDecided, Trace;
    OrphanEntries(s, id);
    if NothingCut(events) {
      NothingCutNoOrphans(Init(base), events);
    }
  }

  /** Recovery brings back every transaction with commit records on file exactly when no crash, nor one now, falls
      between those records and the rewrite of the record file. */
  lemma AllCommittedRecovered(base: Store, events: seq<Event>, s: State)
    requires Reaches(base, events, s)
    ensures (forall id | CommitOnFile(s, id) :: id in s.ids) <==> s.lost == {} && !HalfDurable(s)
    ensures Crash !in events ==> s.lost == {}
  {
    AccountedReached(base, events, s);
    if HalfDurable(s) {
      HalfDurableOnFile(s);
    }
    hide CommitOnFile, OrphansAre, Inv, HalfDurable, Trace;
    if Crash !in events {
      NoCrashNothingLost(Init(base), events);
    }
    if s.lost != {} {
      var id :| id in s.lost;
      assert IsLost(s, id);
    }
  }

  // ---- Both losses happen ----

  function OneOrder(id: Int32, cid: Int32): Txn {
    Txn(id, [], [Order(cid, 1, 1)])
  }

  function OneRec(id: Int32, cid: Int32): LogRec {
    PrepareRec(id, Order(cid, 1, 1))
  }

  /** The transaction is issued and logged, after a vote or as a copy. */
  function PrepareOne(id: Int32, cid: Int32, copied: bool): seq<Event> {
    [Issue, if copied then Copy(OneOrder(id, cid)) else PrepareYes(OneOrder(id, cid)), AppendPrepare]
  }

  function AfterPrepare(s: State, cid: Int32): State
    requires s.next < 0x7fff_ffff
  {
    var recs := [OneRec(s.next, cid)];
    s.(cur := s.next, next := s.next + 1, stage := Logged, recs := recs,
       txnLog := s.txnLog[s.next := recs], disk := s.disk + recs)
  }

  lemma OneOrderRecs(id: Int32, cid: Int32)
    requires cid != -1
    ensures PrepareRecs(id, ValidPrefix(OneOrder(id, cid).writeSet)) == [OneRec(id, cid)]
  {
    var ws := OneOrder(id, cid).writeSet;
    assert ValidPrefix(ws[1..]) == [];
    assert ValidPrefix(ws) == ws;
  }

  lemma PrepareOneRuns(s: State, cid: Int32, copied: bool, rest: seq<Event>)
    requires s.pc == Idle && s.stage == NoTxn && s.next < 0x7fff_ffff && s.next !in s.txnLog && cid != -1
    ensures Trace(s, PrepareOne(s.next, cid, copied) + rest) == Trace(AfterPrepare(s, cid), rest)
  {
    hide Trace, ValidPrefix, PrepareRecs;
    var txn := OneOrder(s.next, cid);
    OneOrderRecs(s.next, cid);
    var e := if copied then Copy(txn) else PrepareYes(txn);
    var s1 := Next(s, Issue);
    var s2 := Next(s1, e);
    assert PrepareOne(s.next, cid, copied) + rest == [Issue] + ([e] + ([AppendPrepare] + rest));
    TraceStep(s, Issue, [e] + ([AppendPrepare] + rest));
    TraceStep(s1, e, [AppendPrepare] + rest);
    TraceStep(s2, AppendPrepare, rest);
  }

  lemma GroupOne(r: LogRec)
    ensures Group([r]) == map[r.txn := [r]]
  {
    assert [r][..0] == [] && [] + [r] == [r];
    assert Group([r]) == UpdateValue(Group([]), r.txn, r);
  }

  /** A transaction prepared after a vote or as a copy, a crash or a lost decision, then the next transaction's
      commit: the first one's entry is thrown away although its fate was never decided. */
  lemma DiscardsAnUndecided(copied: bool, cut: Event)
    requires cut == Crash || cut == LoseDecision
    ensures var events := PrepareOne(0, 7, copied) + ([cut] + (PrepareOne(1, 8, false) + ([Commit] + [])));
            var end := Trace(Init(map[]), events);
            && end.Ended? && end.s.pc == Writing(0) && end.s.cur == 1
            && 0 in end.s.txnLog && end.s.txnLog[0] != [] && !IsDecided(end.s.txnLog[0]) && 0 in end.s.orphans
            && 0 !in NewTxnLog(1, Entry(end.s.txnLog, 1))
  {
    hide Trace, Group;
    var s0 := Init(map[]);
    PrepareOneRuns(s0, 7, copied, [cut] + (PrepareOne(1, 8, false) + ([Commit] + [])));
    var s1 := AfterPrepare(s0, 7);
    TraceStep(s1, cut, PrepareOne(1, 8, false) + ([Commit] + []));
    var s2 := Next(s1, cut);
    assert s1.disk == [OneRec(0, 7)];
    GroupOne(OneRec(0, 7));
    assert s2.txnLog == map[0 := [OneRec(0, 7)]];
    PrepareOneRuns(s2, 8, false, [Commit] + []);
    var s3 := AfterPrepare(s2, 8);
    TraceStep(s3, Commit, []);
    TraceEnd(Next(s3, Commit));
    NewTxnLogIs(1, [OneRec(1, 8)]);
  }

  /** A crash between commit records and rewrite: the file says committed, the recovered table has no such order. */
  lemma LosesACommittedWrite()
    ensures var events := PrepareOne(0, 7, false) + ([Commit] + ([WriteOne] + ([Install] + ([AppendCommit] + ([Crash] + [])))));
            var end := Trace(Init(map[]), events);
            && end.Ended? && CommitOnFile(end.s, 0) && 7 !in end.s.record && 0 in end.s.lost
  {
    hide Trace, Group, NewTxnLog, OfTxn, CommittedOps;
    var s0 := Init(map[]);
    var t0 := [WriteOne] + ([Install] + ([AppendCommit] + ([Crash] + [])));
    PrepareOneRuns(s0, 7, false, [Commit] + t0);
    var s1 := AfterPrepare(s0, 7);
    TraceStep(s1, Commit, t0);
    var s2 := Next(s1, Commit);
    TraceStep(s2, WriteOne, [Install] + ([AppendCommit] + ([Crash] + [])));
    var s3 := Next(s2, WriteOne);
    TraceStep(s3, Install, [AppendCommit] + ([Crash] + []));
    var s4 := Next(s3, Install);
    TraceStep(s4, AppendCommit, [Crash] + []);
    var s5 := Next(s4, AppendCommit);
    TraceStep(s5, Crash, []);
    TraceEnd(Next(s5, Crash));
    CommitRecsAre(0, s5.recs);
    CommitOnFileAppended(s4, CommitRecs(0, s4.recs), 0);
    CommittedOpsOfCommit(0, s4.recs);
    OpsOfOne(OneRec(0, 7));
  }
}
