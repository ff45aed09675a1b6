/** What holds in every state of every run of the crashing resource manager. */
module CrashTheorems {
  import opened Records
  import opened TextFiles
  import opened ResourceManager
  import opened Coordinator
  import opened CrashRecovery

  // ---- Three views of one history, and crash atomicity ----

  function Flatten(history: seq<seq<MapOp>>): seq<MapOp> {
    if history == [] then [] else Flatten(history[..|history| - 1]) + history[|history| - 1]
  }

  /** The (customer, order) pairs of the commit records of a log. */
  function CommittedOps(recs: seq<LogRec>): seq<MapOp> {
    if recs == [] then [] else
      var r := recs[|recs| - 1];
      CommittedOps(recs[..|recs| - 1]) + if r.op == COMMIT then [OpOf(r.cid, r.num)] else []
  }

  /** The part of the commit in progress that has reached the customer records. */
  function InFlight(s: State): seq<MapOp> {
    if s.pc.Writing? && s.pc.k <= |s.recs| then RecOps(s.recs[..s.pc.k])
    else if s.pc == Installed || s.pc == Appended then RecOps(s.recs)
    else []
  }

  ghost predicate ThreeViews(base: Store, s: State) {
    && s.diskRec == Fold(base, Flatten(s.history)) == Fold(s.boot, s.done)
    && s.record == Fold(s.boot, s.smr) && s.smr == s.done + InFlight(s)
    && s.bootDisk <= |s.disk|
    && CommittedOps(s.disk[s.bootDisk..]) == s.done + if s.pc == Appended then RecOps(s.recs) else []
  }

  lemma {:induction false} CommittedOpsConcat(a: seq<LogRec>, b: seq<LogRec>)
    ensures CommittedOps(a + b) == CommittedOps(a) + CommittedOps(b)
  {
    if b == [] {
      assert a + b == a;
    } else {
      CommittedOpsConcat(a, b[..|b| - 1]);
      assert (a + b)[..|a + b| - 1] == a + b[..|b| - 1];
    }
  }

  lemma {:induction false} CommittedOpsOfCommit(id: Int32, recs: seq<LogRec>)
    ensures CommittedOps(CommitRecs(id, recs)) == RecOps(recs)
  {
    if recs != [] {
      var n := |recs| - 1;
      CommittedOpsOfCommit(id, recs[..n]);
      assert CommitRecs(id, recs)[..n] == CommitRecs(id, recs[..n]);
      RecOpsStep(recs);
    }
  }

  lemma {:induction false} CommittedOpsOfOthers(recs: seq<LogRec>)
    requires forall r | r in recs :: r.op != COMMIT
    ensures CommittedOps(recs) == []
  {
    if recs != [] {
      assert forall r | r in recs[..|recs| - 1] :: r in recs;
      assert recs[|recs| - 1] in recs;
      CommittedOpsOfOthers(recs[..|recs| - 1]);
    }
  }

  lemma AppendKeepsViews(base: Store, s: State, more: seq<LogRec>, t: State)
    requires ThreeViews(base, s) && s.pc != Appended
    requires t == s.(disk := s.disk + more, pc := t.pc, stage := t.stage) && InFlight(t) == InFlight(s)
    requires CommittedOps(more) == if t.pc == Appended then RecOps(s.recs) else []
    ensures ThreeViews(base, t)
  {
    hide Fold, Flatten, RecOps, CommittedOps;
    CommittedOpsConcat(s.disk[s.bootDisk..], more);
    assert (s.disk + more)[s.bootDisk..] == s.disk[s.bootDisk..] + more;
    assert s.done + [] == s.done;
  }

  lemma FlattenSnoc(history: seq<seq<MapOp>>, ops: seq<MapOp>)
    ensures Flatten(history + [ops]) == Flatten(history) + ops
  {
    assert (history + [ops])[..|history|] == history;
  }

  lemma RewriteKeepsViews(base: Store, s: State)
    requires ThreeViews(base, s) && s.pc == Appended
    ensures ThreeViews(base, Next(s, Rewrite))
  {
    hide Fold, Flatten, CommittedOps, RecOps;
    var ops := RecOps(s.recs);
    FoldConcat(s.boot, s.done, ops);
    FoldConcat(base, Flatten(s.history), ops);
    FlattenSnoc(s.history, ops);
    assert s.done + ops + [] == s.done + ops;
  }

  lemma WriteKeepsViews(base: Store, s: State)
    requires ThreeViews(base, s) && Enabled(s, WriteOne) && Entry(s.txnLog, s.cur) == s.recs
    ensures ThreeViews(base, Next(s, WriteOne))
  {
    hide Fold, Flatten, CommittedOps, RecOps;
    var k := s.pc.k;
    assert s.recs[..k + 1][..k] == s.recs[..k];
    RecOpsStep(s.recs[..k + 1]);
    var op := OpOf(s.recs[k].cid, s.recs[k].num);
    FoldSnoc(s.boot, s.smr, op);
    assert s.smr + [op] == s.done + (RecOps(s.recs[..k]) + [op]);
  }

  lemma QuietKeepsViews(base: Store, s: State, e: Event)
    requires ThreeViews(base, s) && Enabled(s, e)
    requires e.Issue? || e.Drop? || e.PrepareYes? || e.Copy? || e.LoseDecision? || e.Commit? || e.Install? || e.Abort? || e.Crash?
    requires e.Install? ==> Entry(s.txnLog, s.cur) == s.recs
    ensures ThreeViews(base, Next(s, e))
  {
    hide Flatten, NewTxnLog, Group, InsertPrepared, CommittedOps, RecOps, PrepareRecs, ValidPrefix, Vote;
    if e == Install {
      assert s.recs[..|s.recs|] == s.recs;
    } else if e == Commit {
      NoOps(s.recs);
    } else if e == Crash {
      assert s.disk[|s.disk|..] == [];
      NoCommits();
    }
  }

  lemma NoOps(recs: seq<LogRec>)
    ensures RecOps(recs[..0]) == []
  {
  }

  lemma NoCommits()
    ensures CommittedOps([]) == []
  {
  }

  lemma ViewsKept(base: Store, s: State, e: Event)
    requires Shape(s) && ThreeViews(base, s) && Enabled(s, e)
    ensures ThreeViews(base, Next(s, e))
  {
    hide ThreeViews, CommittedOps, OfTxn, Paired, CommitRecs, RecOps, NewTxnLog, LogBelow;
    match e
    case WriteOne => WriteKeepsViews(base, s);
    case Rewrite => RewriteKeepsViews(base, s);
    case AppendPrepare =>
      CommittedOpsOfOthers(s.recs);
      AppendKeepsViews(base, s, s.recs, Next(s, e));
    case AppendAbort =>
      CommittedOpsOfOthers([AbortRec(s.cur)]);
      AppendKeepsViews(base, s, [AbortRec(s.cur)], Next(s, e));
    case AppendCommit =>
      CommittedOpsOfCommit(s.cur, s.recs);
      AppendKeepsViews(base, s, CommitRecs(s.cur, s.recs), Next(s, e));
    case _ =>
      QuietKeepsViews(base, s, e);
  }

  // ---- Decisions ----

  ghost predicate FileConsistent(disk: seq<LogRec>) {
    && (forall r, q | r in disk && q in disk && r.op == COMMIT && q.op == ABORT :: r.txn != q.txn)
    && (forall i | 0 <= i < |disk| && disk[i].op == COMMIT :: disk[i].(op := PREPARE) in disk[..i])
  }

  ghost predicate Consistent(s: State) {
    && FileConsistent(s.disk)
    && (forall id | id in s.txnLog && s.txnLog[id] != [] ::
          IsDecided(s.txnLog[id]) || (s.stage == Logged && id == s.cur) || id in s.orphans)
    && (forall r | r in s.disk :: IsDecided(OfTxn(s.disk, r.txn)) || (s.stage == Logged && r.txn == s.cur) || r.txn in s.orphans)
  }

  lemma {:induction false} FoundOfTxn(recs: seq<LogRec>, r: LogRec)
    requires r in recs
    ensures r in OfTxn(recs, r.txn)
  {
    if r in recs[..|recs| - 1] {
      FoundOfTxn(recs[..|recs| - 1], r);
    }
  }

  /** As long as the current transaction is undecided on disk, the file holds no decision about it. */
  lemma NoDecisionYet(s: State, r: LogRec)
    requires Shape(s) && s.stage != NoTxn && s.pc != Appended && r in s.disk && r.txn == s.cur
    ensures r.op == PREPARE && r in s.recs
  {
    FoundOfTxn(s.disk, r);
  }

  lemma AppendKeepsDecided(disk: seq<LogRec>, more: seq<LogRec>, id: Int32)
    requires IsDecided(OfTxn(disk, id)) || IsDecided(OfTxn(more, id))
    ensures IsDecided(OfTxn(disk + more, id))
  {
    OfTxnConcat(disk, more, id);
    var (a, b) := (OfTxn(disk, id), OfTxn(more, id));
    if IsDecided(a) {
      var r :| r in a && r.op != PREPARE;
      assert r in a + b;
    } else {
      var r :| r in b && r.op != PREPARE;
      assert r in a + b;
    }
  }

  /** Appending records of the current transaction to the file. */
  lemma AppendKeepsConsistent(s: State, more: seq<LogRec>, t: State)
    requires Shape(s) && Consistent(s) && s.stage != NoTxn && s.pc != Appended
    requires forall r | r in more :: r.txn == s.cur
    requires forall r, q | r in more && q in more && r.op == COMMIT :: q.op != ABORT
    requires forall r | r in more && r.op == COMMIT :: r.(op := PREPARE) in s.disk
    requires t == s.(disk := s.disk + more, pc := t.pc, stage := t.stage)
    requires t.stage == Logged || (t.stage == NoTxn && IsDecided(more))
    requires t.stage == Logged ==> s.stage == Logged
    requires t.stage == NoTxn && s.cur in s.txnLog ==> IsDecided(s.txnLog[s.cur])
    ensures Consistent(t)
  {
    hide IsDecided, Paired, CommitRecs, LogBelow;
    forall r, q | r in t.disk && q in t.disk && r.op == COMMIT && q.op == ABORT
      ensures r.txn != q.txn
    {
      if r in s.disk && r.txn == s.cur {
        NoDecisionYet(s, r);
      }
      if q in s.disk && q.txn == s.cur {
        NoDecisionYet(s, q);
      }
    }
    forall i | 0 <= i < |t.disk| && t.disk[i].op == COMMIT
      ensures t.disk[i].(op := PREPARE) in t.disk[..i]
    {
      if i < |s.disk| {
        assert t.disk[..i] == s.disk[..i];
      } else {
        assert t.disk[i] in more;
        assert t.disk[..i][..|s.disk|] == s.disk;
      }
    }
    forall r | r in t.disk
      ensures IsDecided(OfTxn(t.disk, r.txn)) || (t.stage == Logged && r.txn == t.cur) || r.txn in t.orphans
    {
      OfTxnAll(more, r.txn, s.cur);
      if r.txn != s.cur {
        assert r in s.disk;
      }
      if IsDecided(OfTxn(s.disk, r.txn)) || IsDecided(OfTxn(more, r.txn)) {
        AppendKeepsDecided(s.disk, more, r.txn);
      }
    }
  }

  lemma ConsistentKept(s: State, e: Event)
    requires Shape(s) && Consistent(s) && Enabled(s, e)
    ensures Consistent(Next(s, e))
  {
    hide OfTxn, Paired, CommitRecs, NewTxnLog, IsDecided, Consistent;
    match e
    case AppendPrepare =>
      AppendKeepsConsistent(s, s.recs, Next(s, e));
    case AppendCommit =>
      CommitHasPrepare(s.disk, s.cur, s.recs);
      CommitRecsAre(s.cur, s.recs);
      AppendKeepsConsistent(s, CommitRecs(s.cur, s.recs), Next(s, e));
    case AppendAbort =>
      AbortDecides([], s.cur);
      AbortDecides(s.recs, s.cur);
      AppendKeepsConsistent(s, [AbortRec(s.cur)], Next(s, e));
    case Rewrite =>
      RewriteKeepsConsistent(s);
    case Crash => CrashKeepsConsistent(s);
    case Abort =>
      AbortDecides(Entry(s.txnLog, s.cur), s.cur);
      QuietKeepsConsistent(s, e);
    case Install =>
      NewTxnLogIs(s.cur, s.recs);
      QuietKeepsConsistent(s, e);
    case LoseDecision =>
      if s.recs == [] {
        NothingOnFile(s);
      }
      QuietKeepsConsistent(s, e);
    case _ => QuietKeepsConsistent(s, e);
  }

  /** A transaction without writes leaves nothing on file. */
  lemma NothingOnFile(s: State)
    requires Shape(s) && s.stage == Logged && s.pc == Idle && s.recs == []
    ensures forall r | r in s.disk :: r.txn != s.cur
  {
    forall r | r in s.disk && r.txn == s.cur
      ensures false
    {
      FoundOfTxn(s.disk, r);
    }
  }

  lemma AbortDecides(recs: seq<LogRec>, id: Int32)
    ensures IsDecided(recs + [AbortRec(id)]) && [] + [AbortRec(id)] == [AbortRec(id)]
  {
    assert AbortRec(id) in recs + [AbortRec(id)];
  }

  lemma CommitRecsAre(id: Int32, recs: seq<LogRec>)
    ensures forall r | r in CommitRecs(id, recs) :: r.txn == id && r.op == COMMIT
  {
  }

  lemma QuietKeepsConsistent(s: State, e: Event)
    requires Consistent(s) && Enabled(s, e)
    requires e.Issue? || e.Drop? || e.PrepareYes? || e.Copy? || e.LoseDecision? || e.AppendPrepare? || e.Commit? || e.WriteOne? || e.Install? || e.Abort?
    requires s.disk == Next(s, e).disk
    requires e.Install? ==> s.stage == Logged && Next(s, e).txnLog.Keys <= {s.cur}
    requires e.Abort? ==> IsDecided(Next(s, e).txnLog[s.cur])
    requires s.stage != Logged || e.Commit? || e.WriteOne? || e.Install? || e.Abort? || e.LoseDecision?
    requires e.LoseDecision? ==> Undecided(s) || ((forall r | r in s.disk :: r.txn != s.cur) && Entry(s.txnLog, s.cur) == [])
    ensures Consistent(Next(s, e))
  {
    hide OfTxn, IsDecided, NewTxnLog, PrepareRecs, ValidPrefix, Vote, FileConsistent;
  }

  lemma CommitHasPrepare(disk: seq<LogRec>, id: Int32, recs: seq<LogRec>)
    requires AllPrepare(recs, id) && OfTxn(disk, id) == recs
    ensures forall r | r in CommitRecs(id, recs) :: r.(op := PREPARE) in disk
  {
    forall r | r in CommitRecs(id, recs)
      ensures r.(op := PREPARE) in disk
    {
      var i :| 0 <= i < |recs| && r == CommitRec(id, recs[i]);
      assert recs[i] in OfTxn(disk, id);
    }
  }

  lemma RewriteKeepsConsistent(s: State)
    requires Consistent(s) && s.pc == Appended && s.stage == Logged
    requires OfTxn(s.disk, s.cur) == s.recs + CommitRecs(s.cur, s.recs)
    requires s.txnLog == if s.recs == [] then map[] else map[s.cur := Paired(s.cur, s.recs)]
    ensures Consistent(Next(s, Rewrite))
  {
    hide Paired, CommitRecs, OfTxn, FileConsistent;
    if s.recs == [] {
      forall r | r in s.disk && r.txn == s.cur
        ensures false
      {
        FoundOfTxn(s.disk, r);
      }
    } else {
      LastIsCommit(s.cur, s.recs);
      var c := CommitRec(s.cur, s.recs[|s.recs| - 1]);
      assert c in OfTxn(s.disk, s.cur);
    }
  }

  lemma LastIsCommit(id: Int32, recs: seq<LogRec>)
    requires recs != []
    ensures var c := CommitRec(id, recs[|recs| - 1]); c in Paired(id, recs) && c in CommitRecs(id, recs)
  {
    assert CommitRecs(id, recs)[|recs| - 1] == CommitRec(id, recs[|recs| - 1]);
  }

  /** What the file knows of the current transaction after a yes vote. */
  lemma CurrentOnFile(s: State)
    requires Shape(s) && s.stage == Logged
    ensures OfTxn(s.disk, s.cur) == [] || IsDecided(OfTxn(s.disk, s.cur)) || Undecided(s)
    ensures Undecided(s) ==> OfTxn(s.disk, s.cur) != [] && !IsDecided(OfTxn(s.disk, s.cur))
  {
    hide OfTxn, Paired;
    if s.pc == Appended && s.recs != [] {
      assert CommitRecs(s.cur, s.recs)[0] in s.recs + CommitRecs(s.cur, s.recs);
    }
  }

  /** Recovery makes no entry that the file does not account for. */
  lemma RecoveredDecided(disk: seq<LogRec>, orphans: set<Int32>)
    requires forall r | r in disk :: IsDecided(OfTxn(disk, r.txn)) || r.txn in orphans
    ensures forall id | id in Group(disk) :: IsDecided(Group(disk)[id]) || id in orphans
  {
    hide IsDecided, Group, OfTxn;
    forall id | id in Group(disk)
      ensures IsDecided(Group(disk)[id]) || id in orphans
    {
      GroupIs(disk, id);
      assert OfTxn(disk, id)[0] in OfTxn(disk, id);
    }
  }

  lemma RecordAfterCrash(s: State, r: LogRec)
    requires Shape(s) && r in s.disk
    requires IsDecided(OfTxn(s.disk, r.txn)) || (s.stage == Logged && r.txn == s.cur) || r.txn in s.orphans
    ensures IsDecided(OfTxn(s.disk, r.txn)) || r.txn in Next(s, Crash).orphans
  {
    hide IsDecided, Undecided, HalfDurable, Shape, Group, OfTxn;
    FoundOfTxn(s.disk, r);
    if s.stage == Logged && r.txn == s.cur {
      CurrentOnFile(s);
    }
  }

  /** After a crash every record on file is decided or its transaction is an orphan. */
  lemma FileAfterCrash(s: State)
    requires Shape(s) && Consistent(s)
    ensures forall r | r in s.disk :: IsDecided(OfTxn(s.disk, r.txn)) || r.txn in Next(s, Crash).orphans
  {
    hide IsDecided, Undecided, HalfDurable, Shape, Group, OfTxn, FileConsistent;
    forall r | r in s.disk
      ensures IsDecided(OfTxn(s.disk, r.txn)) || r.txn in Next(s, Crash).orphans
    {
      RecordAfterCrash(s, r);
    }
  }

  lemma CrashKeepsConsistent(s: State)
    requires Shape(s) && Consistent(s)
    ensures Consistent(Next(s, Crash))
  {
    FileAfterCrash(s);
    hide IsDecided, Undecided, HalfDurable, Shape, Group, OfTxn, FileConsistent;
    RecoveredDecided(s.disk, Next(s, Crash).orphans);
  }

  // ---- The recovered log and the live log ----

  function Decisions(recs: seq<LogRec>): seq<LogRec> {
    if recs == [] then [] else
      var r := recs[|recs| - 1];
      Decisions(recs[..|recs| - 1]) + if r.op != PREPARE then [r] else []
  }

  /** The same prepares in the same order, the same decisions in the same order, the same records in all. */
  ghost predicate SameRecords(a: seq<LogRec>, b: seq<LogRec>) {
    Prepares(a) == Prepares(b) && Decisions(a) == Decisions(b) && multiset(a) == multiset(b)
  }

  lemma {:induction false} FilterConcat(a: seq<LogRec>, b: seq<LogRec>)
    ensures Prepares(a + b) == Prepares(a) + Prepares(b) && Decisions(a + b) == Decisions(a) + Decisions(b)
  {
    if b == [] {
      assert a + b == a;
    } else {
      var n := |b| - 1;
      assert Prepares(b) == Prepares(b[..n]) + if b[n].op == PREPARE then [b[n]] else [];
      assert Decisions(b) == Decisions(b[..n]) + if b[n].op != PREPARE then [b[n]] else [];
      FilterConcat(a, b[..n]);
      assert (a + b)[..|a + b| - 1] == a + b[..|b| - 1];
    }
  }

  lemma CommitRecsSnoc(id: Int32, recs: seq<LogRec>)
    requires recs != []
    ensures CommitRecs(id, recs) == CommitRecs(id, recs[..|recs| - 1]) + [CommitRec(id, recs[|recs| - 1])]
  {
  }

  lemma AllPrepareInit(id: Int32, recs: seq<LogRec>)
    requires recs != [] && AllPrepare(recs, id)
    ensures AllPrepare(recs[..|recs| - 1], id) && recs[|recs| - 1].op == PREPARE
  {
    assert recs[|recs| - 1] in recs && forall q | q in recs[..|recs| - 1] :: q in recs;
  }

  lemma {:induction false} PairedParts(id: Int32, recs: seq<LogRec>)
    requires AllPrepare(recs, id)
    ensures Prepares(Paired(id, recs)) == recs && Decisions(Paired(id, recs)) == CommitRecs(id, recs)
  {
    if recs != [] {
      var (init, r) := (recs[..|recs| - 1], recs[|recs| - 1]);
      hide Prepares, Decisions, CommitRecs, AllPrepare;
      assert Paired(id, recs) == Paired(id, init) + [r, CommitRec(id, r)];
      hide Paired;
      CommitRecsSnoc(id, recs);
      AllPrepareInit(id, recs);
      assert recs == init + [r];
      PairedParts(id, init);
      PairFilters(r, CommitRec(id, r));
      FilterConcat(Paired(id, init), [r, CommitRec(id, r)]);
    }
  }

  lemma {:induction false} PairedMultiset(id: Int32, recs: seq<LogRec>)
    requires AllPrepare(recs, id)
    ensures multiset(Paired(id, recs)) == multiset(recs + CommitRecs(id, recs))
  {
    if recs != [] {
      var (init, r) := (recs[..|recs| - 1], recs[|recs| - 1]);
      hide CommitRecs, AllPrepare;
      assert Paired(id, recs) == Paired(id, init) + [r, CommitRec(id, r)];
      hide Paired;
      CommitRecsSnoc(id, recs);
      AllPrepareInit(id, recs);
      assert recs == init + [r];
      PairedMultiset(id, init);
      PairAdded(Paired(id, init), init, CommitRecs(id, init), r, CommitRec(id, r));
    }
  }

  lemma PairAdded(paired: seq<LogRec>, init: seq<LogRec>, commits: seq<LogRec>, r: LogRec, c: LogRec)
    requires multiset(paired) == multiset(init + commits)
    ensures multiset(paired + [r, c]) == multiset(init + [r] + (commits + [c]))
  {
    var m := multiset(init) + multiset(commits);
    assert multiset(init + commits) == m;
    assert multiset(init + [r]) == multiset(init) + multiset{r};
    assert multiset(commits + [c]) == multiset(commits) + multiset{c};
    assert multiset(init + [r] + (commits + [c])) == m + multiset{r} + multiset{c};
    assert multiset(paired + [r, c]) == multiset(paired) + multiset{r, c};
  }

  /** Interleaving each prepare with its commit, as memory does, against grouping them, as the file does. */
  lemma PairedAgrees(id: Int32, recs: seq<LogRec>)
    requires AllPrepare(recs, id)
    ensures SameRecords(Paired(id, recs), recs + CommitRecs(id, recs))
  {
    PairedParts(id, recs);
    PairedMultiset(id, recs);
    FilterConcat(recs, CommitRecs(id, recs));
    CommitsAreDecisions(id, recs);
    PreparesAreNot(id, recs);
  }

  lemma {:induction false} PreparesAreNot(id: Int32, recs: seq<LogRec>)
    requires AllPrepare(recs, id)
    ensures Prepares(recs) == recs && Decisions(recs) == []
  {
    if recs != [] {
      var (init, r) := (recs[..|recs| - 1], recs[|recs| - 1]);
      assert r in recs && forall q | q in init :: q in recs;
      PreparesAreNot(id, init);
      assert recs == init + [r];
    }
  }

  lemma PairFilters(r: LogRec, c: LogRec)
    requires r.op == PREPARE && c.op != PREPARE
    ensures Prepares([r]) == [r] && Decisions([r]) == [] && Prepares([c]) == [] && Decisions([c]) == [c]
    ensures Prepares([r, c]) == [r] && Decisions([r, c]) == [c]
  {
    assert [r][..0] == [] && [c][..0] == [];
    assert [r, c] == [r] + [c];
    FilterConcat([r], [c]);
  }

  lemma {:induction false} CommitsAreDecisions(id: Int32, recs: seq<LogRec>)
    ensures Prepares(CommitRecs(id, recs)) == [] && Decisions(CommitRecs(id, recs)) == CommitRecs(id, recs)
  {
    if recs != [] {
      var n := |recs| - 1;
      var (init, c) := (CommitRecs(id, recs[..n]), CommitRec(id, recs[n]));
      assert CommitRecs(id, recs) == init + [c];
      CommitsAreDecisions(id, recs[..n]);
      hide CommitRecs;
      assert (init + [c])[..|init|] == init;
    }
  }

  /** Every entry in memory has the records of the file, except the one being written at this moment. */
  ghost predicate LogsAgree(s: State) {
    forall id | id in s.txnLog ::
      (id == s.cur && (s.pc == Inserted || s.pc == Installed || s.pc == Noted))
      || SameRecords(s.txnLog[id], OfTxn(s.disk, id))
  }

  lemma AppendKeepsAgreement(s: State, more: seq<LogRec>, t: State)
    requires LogsAgree(s) && t == s.(disk := s.disk + more, pc := t.pc, stage := t.stage)
    requires forall r | r in more :: r.txn == s.cur
    requires s.cur in s.txnLog ==> SameRecords(s.txnLog[s.cur], OfTxn(s.disk, s.cur) + more)
    ensures LogsAgree(t)
  {
    forall id | id in t.txnLog
      ensures SameRecords(t.txnLog[id], OfTxn(t.disk, id))
    {
      OfTxnConcat(s.disk, more, id);
      OfTxnAll(more, id, s.cur);
      assert OfTxn(s.disk, id) + [] == OfTxn(s.disk, id);
      hide OfTxn, SameRecords;
    }
  }

  lemma QuietKeepsAgreement(s: State, e: Event)
    requires LogsAgree(s) && Enabled(s, e)
    requires e.Issue? || e.Drop? || e.PrepareYes? || e.Copy? || e.LoseDecision? || e.Commit? || e.WriteOne? || e.Install? || e.Abort? || e.Rewrite?
    requires s.pc != Installed && s.pc != Noted
    requires e.Install? ==> Next(s, e).txnLog.Keys <= {s.cur}
    ensures LogsAgree(Next(s, e))
  {
    hide SameRecords, NewTxnLog, PrepareRecs, ValidPrefix, OfTxn, Vote;
  }

  lemma CrashKeepsAgreement(s: State)
    ensures LogsAgree(Next(s, Crash))
  {
    var t := Next(s, Crash);
    forall id | id in t.txnLog
      ensures SameRecords(t.txnLog[id], OfTxn(t.disk, id))
    {
      GroupIs(s.disk, id);
    }
  }

  lemma LogsAgreeKept(s: State, e: Event)
    requires Shape(s) && LogsAgree(s) && Enabled(s, e)
    ensures LogsAgree(Next(s, e))
  {
    hide LogsAgree, OfTxn, SameRecords, Paired, CommitRecs, NewTxnLog;
    match e
    case AppendPrepare =>
      assert [] + s.recs == s.recs;
      SameAsItself(s.recs);
      AppendKeepsAgreement(s, s.recs, Next(s, e));
    case AppendCommit =>
      PairedAgrees(s.cur, s.recs);
      CommitRecsAre(s.cur, s.recs);
      AppendKeepsAgreement(s, CommitRecs(s.cur, s.recs), Next(s, e));
    case AppendAbort =>
      SameAsItself(s.recs + [AbortRec(s.cur)]);
      AppendKeepsAgreement(s, [AbortRec(s.cur)], Next(s, e));
    case Crash => CrashKeepsAgreement(s);
    case Install =>
      NewTxnLogIs(s.cur, s.recs);
      QuietKeepsAgreement(s, e);
    case _ => QuietKeepsAgreement(s, e);
  }

  lemma SameAsItself(recs: seq<LogRec>)
    ensures SameRecords(recs, recs)
  {
  }

  // ---- The transactions behind the record file ----

  /** `ops` is what the file says transaction `id` wrote, prepare by prepare and commit by commit. */
  ghost predicate IsWhole(disk: seq<LogRec>, id: Int32, ops: seq<MapOp>) {
    ops == RecOps(Prepares(OfTxn(disk, id))) && ops == CommittedOps(OfTxn(disk, id))
  }

  ghost predicate WholeTxns(s: State) {
    && |s.ids| == |s.history|
    && (forall i | 0 <= i < |s.ids| :: s.ids[i] < s.next && (s.stage != NoTxn ==> s.ids[i] < s.cur))
    && (forall i, j | 0 <= i < j < |s.ids| :: s.ids[i] < s.ids[j])
    && (forall i | 0 <= i < |s.ids| :: IsWhole(s.disk, s.ids[i], s.history[i]))
  }

  lemma AppendKeepsWhole(s: State, more: seq<LogRec>, t: State)
    requires WholeTxns(s) && s.stage != NoTxn && t == s.(disk := s.disk + more, pc := t.pc, stage := t.stage)
    requires forall r | r in more :: r.txn == s.cur
    ensures WholeTxns(t)
  {
    hide IsWhole, OfTxn;
    forall i | 0 <= i < |t.ids|
      ensures IsWhole(t.disk, t.ids[i], t.history[i])
    {
      OfTxnConcat(s.disk, more, s.ids[i]);
      OfTxnAll(more, s.ids[i], s.cur);
      assert OfTxn(s.disk, s.ids[i]) + [] == OfTxn(s.disk, s.ids[i]);
      SameWhole(s.disk, t.disk, s.ids[i], s.history[i]);
    }
  }

  lemma SameWhole(d: seq<LogRec>, e: seq<LogRec>, id: Int32, ops: seq<MapOp>)
    requires OfTxn(d, id) == OfTxn(e, id) && IsWhole(d, id, ops)
    ensures IsWhole(e, id, ops)
  {
  }

  lemma CommitIsWhole(disk: seq<LogRec>, id: Int32, recs: seq<LogRec>)
    requires AllPrepare(recs, id) && OfTxn(disk, id) == recs + CommitRecs(id, recs)
    ensures IsWhole(disk, id, RecOps(recs))
  {
    hide OfTxn, CommitRecs, Prepares, Decisions, CommittedOps, RecOps;
    FilterConcat(recs, CommitRecs(id, recs));
    CommitsAreDecisions(id, recs);
    PreparesAreNot(id, recs);
    assert recs + [] == recs;
    CommittedOpsConcat(recs, CommitRecs(id, recs));
    CommittedOpsOfOthers(recs);
    CommittedOpsOfCommit(id, recs);
    assert [] + RecOps(recs) == RecOps(recs);
  }

  lemma QuietKeepsWhole(s: State, t: State)
    requires WholeTxns(s) && t.disk == s.disk && t.ids == s.ids && t.history == s.history
    requires t.next >= s.next && (t.stage == NoTxn || (s.stage != NoTxn && t.cur == s.cur) || t.cur == s.next)
    ensures WholeTxns(t)
  {
    hide IsWhole;
  }

  lemma AppendWholeKept(s: State, e: Event)
    requires Shape(s) && WholeTxns(s) && Enabled(s, e) && (e == AppendPrepare || e == AppendCommit || e == AppendAbort)
    ensures WholeTxns(Next(s, e))
  {
    CommitRecsAre(s.cur, s.recs);
    hide WholeTxns, OfTxn, Paired, CommitRecs, LogBelow;
    if e == AppendPrepare {
      AppendKeepsWhole(s, s.recs, Next(s, e));
    } else if e == AppendAbort {
      AppendKeepsWhole(s, [AbortRec(s.cur)], Next(s, e));
    } else {
      AppendKeepsWhole(s, CommitRecs(s.cur, s.recs), Next(s, e));
    }
  }

  lemma OneMoreWhole(s: State, t: State, ops: seq<MapOp>)
    requires WholeTxns(s) && s.stage != NoTxn && s.cur < s.next && IsWhole(s.disk, s.cur, ops)
    requires t.disk == s.disk && t.ids == s.ids + [s.cur] && t.history == s.history + [ops]
    requires t.next == s.next && t.stage == NoTxn
    ensures WholeTxns(t)
  {
    hide IsWhole;
  }

  lemma AppendedShape(s: State)
    requires Shape(s) && s.pc == Appended
    ensures s.stage == Logged && s.cur < s.next && AllPrepare(s.recs, s.cur)
    ensures OfTxn(s.disk, s.cur) == s.recs + CommitRecs(s.cur, s.recs)
  {
    hide OfTxn, CommitRecs, Paired, LogBelow;
  }

  lemma RewriteKeepsWhole(s: State)
    requires Shape(s) && WholeTxns(s) && Enabled(s, Rewrite)
    ensures WholeTxns(Next(s, Rewrite))
  {
    hide Shape, WholeTxns, IsWhole, OfTxn, CommitRecs, RecOps, AllPrepare;
    AppendedShape(s);
    CommitIsWhole(s.disk, s.cur, s.recs);
    OneMoreWhole(s, Next(s, Rewrite), RecOps(s.recs));
  }

  lemma WholeKept(s: State, e: Event)
    requires Shape(s) && WholeTxns(s) && Enabled(s, e)
    ensures WholeTxns(Next(s, e))
  {
    hide WholeTxns, OfTxn, Paired, CommitRecs, NewTxnLog, Group, LogBelow, RecOps, Undecided, HalfDurable, PrepareRecs,
      InsertPrepared, ValidPrefix, Vote;
    match e
    case AppendPrepare => AppendWholeKept(s, e);
    case AppendAbort => AppendWholeKept(s, e);
    case AppendCommit => AppendWholeKept(s, e);
    case Rewrite => RewriteKeepsWhole(s);
    case _ => QuietKeepsWhole(s, Next(s, e));
  }

  // ---- All of it, over every run ----

  ghost predicate Inv(base: Store, s: State) {
    Shape(s) && ThreeViews(base, s) && Consistent(s) && LogsAgree(s) && WholeTxns(s)
  }

  lemma InitInv(base: Store)
    ensures Inv(base, Init(base))
  {
  }

  lemma StepKeepsInv(base: Store, s: State, e: Event)
    requires Inv(base, s) && Enabled(s, e)
    ensures Inv(base, Next(s, e))
  {
    hide Shape, ThreeViews, Consistent, LogsAgree, WholeTxns;
    ShapeKept(s, e);
    ViewsKept(base, s, e);
    ConsistentKept(s, e);
    LogsAgreeKept(s, e);
    WholeKept(s, e);
  }

  lemma {:induction false} RunsKeepInv(base: Store, s: State, events: seq<Event>)
    requires Inv(base, s)
    ensures Trace(s, events).Ended? ==> Inv(base, Trace(s, events).s)
    decreases |events|
  {
    hide Inv;
    if events != [] && Enabled(s, events[0]) {
      StepKeepsInv(base, s, events[0]);
      RunsKeepInv(base, Next(s, events[0]), events[1..]);
    }
  }

  /** `s` is a state some run ends in. */
  predicate Reaches(base: Store, events: seq<Event>, s: State) {
    Trace(Init(base), events) == Ended(s)
  }

  lemma Reached(base: Store, events: seq<Event>, s: State)
    requires Reaches(base, events, s)
    ensures Inv(base, s)
  {
    InitInv(base);
    RunsKeepInv(base, Init(base), events);
  }

  /** The log file's write sets of the given transactions, one after the other. */
  ghost function WriteSets(disk: seq<LogRec>, ids: seq<Int32>): seq<MapOp> {
    if ids == [] then [] else
      WriteSets(disk, ids[..|ids| - 1]) + RecOps(Prepares(OfTxn(disk, ids[|ids| - 1])))
  }

  lemma {:induction false} FlattenIsWriteSets(disk: seq<LogRec>, ids: seq<Int32>, history: seq<seq<MapOp>>)
    requires |ids| == |history| && forall i | 0 <= i < |ids| :: IsWhole(disk, ids[i], history[i])
    ensures Flatten(history) == WriteSets(disk, ids)
  {
    if ids != [] {
      var n := |ids| - 1;
      FlattenIsWriteSets(disk, ids[..n], history[..n]);
      assert IsWhole(disk, ids[n], history[n]);
    }
  }

  /** Crash atomicity: wherever a run crashes, the records recovery rebuilds are the fold of the complete logged
      write sets of an increasing list of transactions, each with all its commit records on file; nothing of a
      commit cut short survives. */
  lemma CrashAtomicity(base: Store, events: seq<Event>, s: State)
    requires Reaches(base, events, s)
    ensures Next(s, Crash).record == Fold(base, WriteSets(s.disk, s.ids))
    ensures Next(s, Crash).disk == s.disk && Next(s, Crash).ids == s.ids
    ensures forall i, j | 0 <= i < j < |s.ids| :: s.ids[i] < s.ids[j]
    ensures forall i | 0 <= i < |s.ids| :: CommittedOps(OfTxn(s.disk, s.ids[i])) == RecOps(Prepares(OfTxn(s.disk, s.ids[i])))
  {
    hide Reaches, Fold, WriteSets, CommittedOps, OfTxn, RecOps, Prepares, Group, Shape, ThreeViews, Consistent, LogsAgree, WholeTxns;
    Reached(base, events, s);
    CrashLeavesWhole(base, s);
  }

  lemma CrashLeavesWhole(base: Store, s: State)
    requires ThreeViews(base, s) && WholeTxns(s)
    ensures s.diskRec == Fold(base, WriteSets(s.disk, s.ids))
    ensures forall i, j | 0 <= i < j < |s.ids| :: s.ids[i] < s.ids[j]
    ensures forall i | 0 <= i < |s.ids| :: CommittedOps(OfTxn(s.disk, s.ids[i])) == RecOps(Prepares(OfTxn(s.disk, s.ids[i])))
  {
    hide Fold, Flatten, CommittedOps, InFlight, WriteSets, OfTxn, RecOps, Prepares;
    FlattenIsWriteSets(s.disk, s.ids, s.history);
    forall i | 0 <= i < |s.ids|
      ensures CommittedOps(OfTxn(s.disk, s.ids[i])) == RecOps(Prepares(OfTxn(s.disk, s.ids[i])))
    {
      assert IsWhole(s.disk, s.ids[i], s.history[i]);
    }
  }

  /** Between messages the replicated log, the commit records written since the boot and the committed write sets
      are one sequence, and the customer records are its fold; mid-commit the log leads by the applied prefix. */
  lemma OneHistory(base: Store, events: seq<Event>, s: State)
    requires Reaches(base, events, s)
    ensures s.record == Fold(s.boot, s.smr) && s.smr == s.done + InFlight(s) && s.bootDisk <= |s.disk|
    ensures s.pc == Idle ==> s.smr == CommittedOps(s.disk[s.bootDisk..]) == s.done
  {
    hide Reaches, Fold, CommittedOps, RecOps, Flatten, Shape, Consistent, LogsAgree, WholeTxns;
    Reached(base, events, s);
  }

  /** No transaction is both committed and aborted, and every commit on file was prepared before. */
  lemma DecisionsConsistent(base: Store, events: seq<Event>, s: State)
    requires Reaches(base, events, s)
    ensures forall r, q | r in s.disk && q in s.disk && r.op == COMMIT && q.op == ABORT :: r.txn != q.txn
    ensures forall i | 0 <= i < |s.disk| && s.disk[i].op == COMMIT :: s.disk[i].(op := PREPARE) in s.disk[..i]
    ensures (forall r | r in s.disk :: r.txn < s.next) && (forall id | id in s.txnLog :: id < s.next)
  {
    hide Reaches, LogsAgree, ThreeViews, WholeTxns, OfTxn, Paired, CommitRecs, IsDecided;
    Reached(base, events, s);
  }

  /** Between messages, rebuilding the table from the file gives every transaction in memory the same prepares,
      the same decisions and the same records; a missing entry counts as empty. */
  lemma RecoveredLogAgrees(base: Store, events: seq<Event>, s: State, id: Int32)
    requires Reaches(base, events, s) && s.pc == Idle && id in s.txnLog
    ensures SameRecords(s.txnLog[id], Entry(Group(s.disk), id))
  {
    hide Reaches, Shape, Consistent, ThreeViews, WholeTxns, OfTxn, SameRecords, Group;
    Reached(base, events, s);
    GroupIs(s.disk, id);
  }

  /** A crash step is what booting from the two text files does. */
  lemma BootReadsFiles(s: State)
    ensures Next(s, Crash).txnLog == Group(ParseLog(PrintLog(s.disk)))
    ensures Next(s, Crash).record == ParseStore(PrintStore(s.diskRec))
  {
    hide PrintLog, ParseLog, PrintStore, ParseStore, Group;
    LogRoundTrip(s.disk);
    StoreRoundTrip(s.diskRec);
  }

  // ---- The steps of a commit add up to the commit of the class ----

  function Writes(n: nat): seq<Event> {
    if n == 0 then [] else [WriteOne] + Writes(n - 1)
  }

  function CommitEvents(n: nat): seq<Event> {
    [Commit] + (Writes(n) + [Install, AppendCommit, Rewrite])
  }

  /** The state with all the remaining writes of the commit applied. */
  function AfterWrites(s: State): State
    requires s.pc.Writing? && s.pc.k <= |Entry(s.txnLog, s.cur)|
  {
    var ops := RecOps(Entry(s.txnLog, s.cur)[s.pc.k..]);
    s.(record := Fold(s.record, ops), smr := s.smr + ops, pc := Writing(|Entry(s.txnLog, s.cur)|))
  }

  lemma WriteThenRest(s: State)
    requires Enabled(s, WriteOne)
    ensures AfterWrites(Next(s, WriteOne)) == AfterWrites(s)
  {
    var (recs, k) := (Entry(s.txnLog, s.cur), s.pc.k);
    var op := OpOf(recs[k].cid, recs[k].num);
    var rest := RecOps(recs[k + 1..]);
    assert RecOps(recs[k..]) == [op] + rest;
    hide RecOps;
    FoldSnoc(s.record, [], op);
    FoldConcat(s.record, [op], rest);
    assert [] + [op] == [op];
    assert s.smr + ([op] + rest) == s.smr + [op] + rest;
  }

  lemma TraceEnd(s: State)
    ensures Trace(s, []) == Ended(s)
  {
  }

  lemma TraceStep(s: State, e: Event, rest: seq<Event>)
    requires Enabled(s, e)
    ensures Trace(s, [e] + rest) == Trace(Next(s, e), rest)
  {
    assert ([e] + rest)[1..] == rest;
  }

  lemma {:induction false} WritesRun(s: State, n: nat, tail: seq<Event>)
    requires s.pc.Writing? && s.pc.k + n == |Entry(s.txnLog, s.cur)|
    ensures Trace(s, Writes(n) + tail) == Trace(AfterWrites(s), tail)
    decreases n
  {
    if n == 0 {
      assert Entry(s.txnLog, s.cur)[s.pc.k..] == [];
      assert Writes(0) + tail == tail && s.smr + [] == s.smr;
      NoOps(Entry(s.txnLog, s.cur));
    } else {
      assert Writes(n) + tail == [WriteOne] + (Writes(n - 1) + tail);
      WriteThenRest(s);
      hide Trace, AfterWrites, Writes;
      TraceStep(s, WriteOne, Writes(n - 1) + tail);
      WritesRun(Next(s, WriteOne), n - 1, tail);
    }
  }

  lemma FinishRun(a: State)
    requires a.pc == Writing(|Entry(a.txnLog, a.cur)|)
    ensures Trace(a, [Install, AppendCommit, Rewrite])
            == Ended(Next(Next(Next(a, Install), AppendCommit), Rewrite))
  {
    var b := Next(a, Install);
    var c := Next(b, AppendCommit);
    hide Trace, NewTxnLog, CommitRecs, RecOps;
    assert [Install, AppendCommit, Rewrite] == [Install] + ([AppendCommit] + ([Rewrite] + []));
    TraceStep(a, Install, [AppendCommit] + ([Rewrite] + []));
    TraceStep(b, AppendCommit, [Rewrite] + []);
    TraceStep(c, Rewrite, []);
    TraceEnd(Next(c, Rewrite));
  }

  /** Run without a crash, the steps of a commit reach exactly the state the whole commit is specified by. */
  lemma CommitStepsRefine(s: State, n: Node, nets: nat -> Net)
    requires s.stage == Logged && s.pc == Idle && Entry(s.txnLog, s.cur) == s.recs
    requires n.Valid() && n.Gap() == 0 && n.record == s.record && n.smr == s.smr && n.txnLog == s.txnLog
    ensures var end := Trace(s, CommitEvents(|s.recs|));
            var r := Committed(n, s.cur, nets);
            && end.Ended?
            && end.s.record == r.record == end.s.diskRec && end.s.smr == r.smr && end.s.txnLog == r.txnLog
            && end.s.disk == s.disk + CommitRecs(s.cur, Entry(s.txnLog, s.cur))
  {
    hide Trace, RecOps, Fold, NewTxnLog, CommitRecs, AdminRun, Writes;
    var tail := [Install, AppendCommit, Rewrite];
    TraceStep(s, Commit, Writes(|s.recs|) + tail);
    WritesRun(Next(s, Commit), |s.recs|, tail);
    assert s.recs[0..] == s.recs;
    FinishRun(AfterWrites(Next(s, Commit)));
    AdminRunFolds(n, s.recs, nets);
  }

  // ---- The steps of a prepare, a copy and an abort add up to those of the class ----

  /** The table and the file agree with those of node `n`. */
  predicate Stands(s: State, n: Node, disk: seq<LogRec>) {
    s.record == n.record && s.smr == n.smr && s.txnLog == n.txnLog && s.disk == disk && s.pc == Idle
  }

  lemma TwoSteps(s: State, e: Event, f: Event)
    requires Enabled(s, e) && Enabled(Next(s, e), f)
    ensures Trace(s, [e, f]) == Ended(Next(Next(s, e), f))
  {
    hide NewTxnLog, CommitRecs, RecOps, Group, InsertPrepared, PrepareRecs;
    assert [e, f] == [e] + ([f] + []);
    TraceStep(s, e, [f] + []);
    TraceStep(Next(s, e), f, []);
    TraceEnd(Next(Next(s, e), f));
  }

  /** A yes vote: what `TMPrepare` makes of the node, and one prepare record for each logged order behind the file. */
  lemma PrepareStepsRefine(s: State, n: Node, txn: Txn, connect: nat -> bool)
    requires n.Valid() && Stands(s, n, s.disk) && Enabled(s, PrepareYes(txn))
    ensures var end := Trace(s, [PrepareYes(txn), AppendPrepare]);
            var orders := ValidPrefix(txn.writeSet);
            && end.Ended?
            && Stands(end.s, Prepared(n, txn, connect),
                      s.disk + seq(|orders|, i requires 0 <= i < |orders| =>
                                               LogRec(txn.id, 1, orders[i].cid, orders[i].num, orders[i].typ)))
  {
    hide Trace, ValidPrefix;
    TwoSteps(s, PrepareYes(txn), AppendPrepare);
  }

  /** A refused prepare changes nothing, in memory or on file. */
  lemma RefusalRefines(n: Node, txn: Txn, connect: nat -> bool)
    requires n.Valid() && !Vote(n.record, txn.readSet)
    ensures Prepared(n, txn, connect) == n
  {
  }

  /** A copied prepare, received as `ReceiveFlow` does. */
  lemma CopyStepsRefine(s: State, n: Node, mode: Mode, txn: Txn)
    requires n.Valid() && Stands(s, n, s.disk) && Enabled(s, Copy(txn)) && mode == Copying
    ensures var end := Trace(s, [Copy(txn), AppendPrepare]);
            var message := Msg.Prepare(txn);
            && end.Ended?
            && Stands(end.s, ReceiveOne(Peer(n, mode), message).node, s.disk + CopiedRecs(Peer(n, mode), [message]))
  {
    hide Trace, ValidPrefix, PrepareRecs;
    TwoSteps(s, Copy(txn), AppendPrepare);
    assert [Msg.Prepare(txn)][..0] == [];
    assert [] + PrepareRecs(txn.id, ValidPrefix(txn.writeSet)) == PrepareRecs(txn.id, ValidPrefix(txn.writeSet));
  }

  /** An abort, of a transaction that was prepared here or not: the record it adds, to the table and to the file. */
  lemma AbortStepsRefine(s: State, n: Node)
    requires n.Valid() && Stands(s, n, s.disk) && Enabled(s, Abort)
    ensures var end := Trace(s, [Abort, AppendAbort]);
            && end.Ended? && Stands(end.s, Aborted(n, s.cur), s.disk + [LogRec(s.cur, 3, -1, -1, -1)])
            && Entry(end.s.txnLog, s.cur) == Entry(s.txnLog, s.cur) + [LogRec(s.cur, 3, -1, -1, -1)]
  {
    hide Trace;
    TwoSteps(s, Abort, AppendAbort);
  }

  /** What the class appends to its file for these records is what the machine appends to its log. */
  lemma FileText(disk: seq<LogRec>, more: seq<LogRec>)
    ensures ParseLog(PrintLog(disk) + PrintLog(more)) == disk + more
  {
    hide PrintLog, ParseLog;
    AppendLog(disk, more);
    LogRoundTrip(disk + more);
  }

  /** What a step of the machine does to the files. */
  function FileStep(s: State, e: Event): seq<FileOp>
    requires Enabled(s, e)
  {
    match e
    case AppendPrepare => [LogAppended(Next(s, e).disk[|s.disk|..])]
    case AppendCommit => [LogAppended(Next(s, e).disk[|s.disk|..])]
    case AppendAbort => [LogAppended(Next(s, e).disk[|s.disk|..])]
    case Rewrite => [RecordsWritten(Next(s, e).diskRec)]
    case _ => []
  }

  function FileSteps(s: State, events: seq<Event>): seq<FileOp>
    decreases |events|
  {
    if events == [] || !Enabled(s, events[0]) then [] else FileStep(s, events[0]) + FileSteps(Next(s, events[0]), events[1..])
  }

  lemma FirstFileStep(s: State, e: Event, rest: seq<Event>)
    requires Enabled(s, e)
    ensures FileSteps(s, [e] + rest) == FileStep(s, e) + FileSteps(Next(s, e), rest)
  {
    assert ([e] + rest)[1..] == rest;
  }

  lemma NothingLeft(s: State)
    requires s.pc.Writing? && s.pc.k == |Entry(s.txnLog, s.cur)|
    ensures AfterWrites(s) == s
  {
    assert Entry(s.txnLog, s.cur)[s.pc.k..] == [];
    assert s.smr + [] == s.smr;
    NoOps(Entry(s.txnLog, s.cur));
  }

  lemma {:induction false} WritesTouchNoFile(s: State, n: nat, tail: seq<Event>)
    requires s.pc.Writing? && s.pc.k + n == |Entry(s.txnLog, s.cur)|
    ensures FileSteps(s, Writes(n) + tail) == FileSteps(AfterWrites(s), tail)
    decreases n
  {
    hide FileSteps, Fold, RecOps;
    if n == 0 {
      assert Writes(0) + tail == tail;
      NothingLeft(s);
    } else {
      assert Writes(n) + tail == [WriteOne] + (Writes(n - 1) + tail);
      WriteThenRest(s);
      hide AfterWrites, Writes;
      FirstFileStep(s, WriteOne, Writes(n - 1) + tail);
      WritesTouchNoFile(Next(s, WriteOne), n - 1, tail);
      assert [] + FileSteps(AfterWrites(s), tail) == FileSteps(AfterWrites(s), tail);
    }
  }

  /** The machine changes the files in the order in which `TMCommit` does: commit records first, then the table with all
      writes applied. */
  lemma CommitFilesRefine(s: State, n: Node, nets: nat -> Net)
    requires s.stage == Logged && s.pc == Idle && Entry(s.txnLog, s.cur) == s.recs
    requires n.Valid() && n.Gap() == 0 && n.record == s.record && n.smr == s.smr && n.txnLog == s.txnLog
    ensures FileSteps(s, CommitEvents(|s.recs|))
            == [LogAppended(CommitRecs(s.cur, Entry(s.txnLog, s.cur))), RecordsWritten(Committed(n, s.cur, nets).record)]
  {
    hide FileSteps, RecOps, Fold, NewTxnLog, CommitRecs, AdminRun, Writes;
    var tail := [Install, AppendCommit, Rewrite];
    FirstFileStep(s, Commit, Writes(|s.recs|) + tail);
    WritesTouchNoFile(Next(s, Commit), |s.recs|, tail);
    assert s.recs[0..] == s.recs;
    FinishFiles(AfterWrites(Next(s, Commit)));
    AdminRunFolds(n, s.recs, nets);
  }

  lemma FinishFiles(a: State)
    requires a.pc == Writing(|Entry(a.txnLog, a.cur)|)
    ensures FileSteps(a, [Install, AppendCommit, Rewrite]) == [LogAppended(CommitRecs(a.cur, a.recs)), RecordsWritten(a.record)]
  {
    var b := Next(a, Install);
    var c := Next(b, AppendCommit);
    hide FileSteps, NewTxnLog, CommitRecs, RecOps;
    assert [Install, AppendCommit, Rewrite] == [Install] + ([AppendCommit] + ([Rewrite] + []));
    FirstFileStep(a, Install, [AppendCommit] + ([Rewrite] + []));
    FirstFileStep(b, AppendCommit, [Rewrite] + []);
    FirstFileStep(c, Rewrite, []);
    NoFileSteps(Next(c, Rewrite));
    assert c.disk[|b.disk|..] == CommitRecs(a.cur, a.recs);
  }

  lemma NoFileSteps(s: State)
    ensures FileSteps(s, []) == []
  {
  }
}
