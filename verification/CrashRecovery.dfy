/** One resource manager, write by write and file by file, with a crash possible between any two steps. */
module CrashRecovery {
  import opened Records
  import opened TextFiles
  import opened ResourceManager
  import opened Coordinator

  /** Where the node is inside the handling of a message. */
  datatype Pc =
    | Idle
    | Inserted            // prepare: in the table, not yet in the log file
    | Writing(k: nat)     // commit: k of the writes applied
    | Installed           // commit: table replaced, not yet in the log file
    | Appended            // commit: in the log file, record file not yet rewritten
    | Noted               // abort: in the table, not yet in the log file

  /** What has become of the current id at this node: nothing, issued by the manager, prepared here. */
  datatype Stage = NoTxn | Open | Logged

  /** `disk` and `diskRec` are durable. The last three lines only record what happened: the current prepare
      records, the state at the last boot, the operations committed since then, the write sets and ids of the
      transactions whose commit ran to its end, the ids that a crash or a lost decision cut off between their
      prepare records and a decision on file, and those a crash cut off between their commit records and the
      rewrite. */
  datatype State = State(
    record: Store, smr: seq<MapOp>, txnLog: TxnLog, disk: seq<LogRec>, diskRec: Store,
    pc: Pc, stage: Stage, cur: Int32, next: Int32,
    recs: seq<LogRec>, boot: Store, bootDisk: nat, done: seq<MapOp>,
    history: seq<seq<MapOp>>, ids: seq<Int32>,
    orphans: set<Int32>, lost: set<Int32>)

  /** `Drop`: the id never gets prepared here and no decision about it arrives. `Copy`: a primary's copy of a
      prepare arrives. `LoseDecision`: no decision about a prepared transaction arrives, because the connection broke,
      or because this node only got the copy. */
  datatype Event =
    | Issue | Drop
    | PrepareYes(txn: Txn) | Copy(txn: Txn) | AppendPrepare | LoseDecision
    | Commit | WriteOne | Install | AppendCommit | Rewrite
    | Abort | AppendAbort
    | Crash

  function Init(base: Store): State {
    State(base, [], map[], [], base, Idle, NoTxn, -1, 0, [], base, 0, [], [], [], {}, {})
  }

  /** Prepare records of the current transaction are on file, but no decision is. */
  predicate Undecided(s: State) {
    s.stage == Logged && s.recs != [] && s.pc != Inserted && s.pc != Appended
  }

  /** Commit records of the current transaction are on file, but the record file lacks its writes. */
  predicate HalfDurable(s: State) {
    s.pc == Appended && s.recs != []
  }

  predicate Enabled(s: State, e: Event) {
    match e
    case Issue => s.pc == Idle && s.stage == NoTxn && s.next < 0x7fff_ffff
    case Drop => s.pc == Idle && s.stage == Open
    case PrepareYes(txn) => s.pc == Idle && s.stage == Open && txn.id == s.cur && Vote(s.record, txn.readSet)
    case Copy(txn) => s.pc == Idle && s.stage == Open && txn.id == s.cur
    case AppendPrepare => s.pc == Inserted
    case LoseDecision => s.pc == Idle && s.stage == Logged
    case Commit => s.pc == Idle && s.stage == Logged
    case WriteOne => s.pc.Writing? && s.pc.k < |Entry(s.txnLog, s.cur)|
    case Install => s.pc.Writing? && s.pc.k == |Entry(s.txnLog, s.cur)|
    case AppendCommit => s.pc == Installed
    case Rewrite => s.pc == Appended
    case Abort => s.pc == Idle && s.stage != NoTxn
    case AppendAbort => s.pc == Noted
    case Crash => true
  }

  function Prepare(s: State, txn: Txn): State {
    s.(txnLog := InsertPrepared(s.txnLog, txn), pc := Inserted, stage := Logged,
       recs := PrepareRecs(txn.id, ValidPrefix(txn.writeSet)))
  }

  function Next(s: State, e: Event): State
    requires Enabled(s, e)
  {
    match e
    case Issue => s.(cur := s.next, next := s.next + 1, stage := Open, recs := [])
    case Drop => s.(stage := NoTxn)
    case PrepareYes(txn) => Prepare(s, txn)
    case Copy(txn) => Prepare(s, txn)
    case AppendPrepare => s.(disk := s.disk + s.recs, pc := Idle)
    case LoseDecision => s.(stage := NoTxn, orphans := if Undecided(s) then s.orphans + {s.cur} else s.orphans)
    case Commit => s.(pc := Writing(0))
    case WriteOne =>
      var r := Entry(s.txnLog, s.cur)[s.pc.k];
      var op := OpOf(r.cid, r.num);
      s.(record := Apply(s.record, op), smr := s.smr + [op], pc := Writing(s.pc.k + 1))
    case Install => s.(txnLog := NewTxnLog(s.cur, Entry(s.txnLog, s.cur)), pc := Installed)
    case AppendCommit => s.(disk := s.disk + CommitRecs(s.cur, s.recs), pc := Appended)
    case Rewrite =>
      s.(diskRec := s.record, pc := Idle, stage := NoTxn,
         done := s.done + RecOps(s.recs), history := s.history + [RecOps(s.recs)], ids := s.ids + [s.cur])
    case Abort => s.(txnLog := UpdateValue(s.txnLog, s.cur, AbortRec(s.cur)), pc := Noted)
    case AppendAbort => s.(disk := s.disk + [AbortRec(s.cur)], pc := Idle, stage := NoTxn)
    case Crash =>
      s.(record := s.diskRec, smr := [], txnLog := Group(s.disk), pc := Idle, stage := NoTxn,
         boot := s.diskRec, bootDisk := |s.disk|, done := [],
         orphans := if Undecided(s) then s.orphans + {s.cur} else s.orphans,
         lost := if HalfDurable(s) then s.lost + {s.cur} else s.lost)
  }

  datatype Outcome = Ended(s: State) | Impossible

  function Trace(s: State, events: seq<Event>): Outcome
    decreases |events|
  {
    if events == [] then Ended(s)
    else if !Enabled(s, events[0]) then Impossible
    else Trace(Next(s, events[0]), events[1..])
  }

  /** The records of one transaction, in order. */
  function OfTxn(recs: seq<LogRec>, id: Int32): (out: seq<LogRec>)
    ensures forall r | r in out :: r in recs && r.txn == id
  {
    if recs == [] then [] else
      var n := |recs| - 1;
      OfTxn(recs[..n], id) + if recs[n].txn == id then [recs[n]] else []
  }

  lemma OfTxnNone(id: Int32)
    ensures OfTxn([], id) == []
  {
  }

  lemma OfTxnStep(recs: seq<LogRec>, id: Int32)
    requires recs != []
    ensures var n := |recs| - 1; OfTxn(recs, id) == OfTxn(recs[..n], id) + if recs[n].txn == id then [recs[n]] else []
  {
  }

  lemma {:induction false} OfTxnConcat(a: seq<LogRec>, b: seq<LogRec>, id: Int32)
    ensures OfTxn(a + b, id) == OfTxn(a, id) + OfTxn(b, id)
  {
    hide OfTxn;
    if b == [] {
      OfTxnNone(id);
      assert a + b == a;
    } else {
      OfTxnConcat(a, b[..|b| - 1], id);
      OfTxnStep(a + b, id);
      OfTxnStep(b, id);
      assert (a + b)[..|a + b| - 1] == a + b[..|b| - 1];
    }
  }

  lemma {:induction false} OfTxnAll(recs: seq<LogRec>, id: Int32, of: Int32)
    requires forall r | r in recs :: r.txn == of
    ensures OfTxn(recs, id) == if id == of then recs else []
  {
    hide OfTxn;
    OfTxnNone(id);
    if recs != [] {
      var (init, r) := (recs[..|recs| - 1], recs[|recs| - 1]);
      OfTxnStep(recs, id);
      assert r in recs && forall q | q in init :: q in recs;
      OfTxnAll(init, id, of);
      assert recs == init + [r];
    }
  }

  /** Recovery files every record of the log under its transaction, in file order. */
  lemma {:induction false} GroupIs(recs: seq<LogRec>, id: Int32)
    ensures id in Group(recs) <==> OfTxn(recs, id) != []
    ensures Entry(Group(recs), id) == OfTxn(recs, id)
  {
    if recs != [] {
      GroupIs(recs[..|recs| - 1], id);
    }
  }

  // ---- The base invariant: what the table and the file hold of the current transaction ----

  predicate AllPrepare(recs: seq<LogRec>, id: Int32) {
    forall r | r in recs :: r.txn == id && r.op == PREPARE
  }

  ghost predicate Shape(s: State) {
    && LogBelow(s.txnLog, s.next)
    && (forall r | r in s.disk :: r.txn < s.next)
    && (s.stage == NoTxn ==> s.pc == Idle)
    && (s.stage != NoTxn ==> s.cur < s.next)
    && (s.stage == Open ==> (s.pc == Idle || s.pc == Noted) && s.recs == [] && OfTxn(s.disk, s.cur) == [])
    && (s.stage == Open && s.pc == Idle ==> s.cur !in s.txnLog)
    && (s.stage == Logged ==> AllPrepare(s.recs, s.cur))
    && (s.stage == Logged && (s.pc == Idle || s.pc == Inserted || s.pc.Writing?) ==>
          s.cur in s.txnLog && s.txnLog[s.cur] == s.recs)
    && (s.stage == Logged ==>
          OfTxn(s.disk, s.cur) == if s.pc == Inserted then []
                                  else if s.pc == Appended then s.recs + CommitRecs(s.cur, s.recs) else s.recs)
    && (s.pc.Writing? ==> s.pc.k <= |s.recs|)
    && (s.pc == Installed || s.pc == Appended ==>
          s.txnLog == if s.recs == [] then map[] else map[s.cur := Paired(s.cur, s.recs)])
    && (s.pc == Noted ==> s.cur in s.txnLog && s.txnLog[s.cur] == s.recs + [AbortRec(s.cur)])
  }

  lemma NoRecordsYet(disk: seq<LogRec>, id: Int32)
    requires forall r | r in disk :: r.txn < id
    ensures OfTxn(disk, id) == []
  {
    if OfTxn(disk, id) != [] {
      assert OfTxn(disk, id)[0] in OfTxn(disk, id);
    }
  }

  lemma CommitRecsOf(id: Int32, recs: seq<LogRec>, of: Int32)
    ensures OfTxn(CommitRecs(id, recs), of) == if of == id then CommitRecs(id, recs) else []
  {
    OfTxnAll(CommitRecs(id, recs), of, id);
  }

  lemma GroupBelow(disk: seq<LogRec>, next: Int32)
    requires forall r | r in disk :: r.txn < next
    ensures LogBelow(Group(disk), next)
  {
    forall id | id in Group(disk)
      ensures id < next && forall r | r in Group(disk)[id] :: r.txn == id
    {
      GroupIs(disk, id);
      assert OfTxn(disk, id)[0] in OfTxn(disk, id);
    }
  }

  lemma CrashKeepsShape(s: State)
    requires Shape(s)
    ensures Shape(Next(s, Crash))
  {
    hide OfTxn, Paired, CommitRecs, Group, Undecided, HalfDurable;
    GroupBelow(s.disk, s.next);
  }

  /** Steps that append to the file. */
  lemma AppendKeepsShape(s: State, e: Event)
    requires Shape(s) && Enabled(s, e) && (e == AppendPrepare || e == AppendCommit || e == AppendAbort)
    ensures Shape(Next(s, e))
  {
    hide OfTxn, Paired;
    OfTxnNone(s.cur);
    if e == AppendPrepare {
      OfTxnConcat(s.disk, s.recs, s.cur);
      OfTxnAll(s.recs, s.cur, s.cur);
      assert [] + s.recs == s.recs;
    } else if e == AppendCommit {
      OfTxnConcat(s.disk, CommitRecs(s.cur, s.recs), s.cur);
      CommitRecsOf(s.cur, s.recs, s.cur);
    }
  }

  lemma PrepareKeepsShape(s: State, txn: Txn)
    requires Shape(s) && s.pc == Idle && s.stage == Open && txn.id == s.cur
    ensures Shape(Prepare(s, txn))
  {
    hide OfTxn, Paired, CommitRecs, ValidPrefix, NewTxnLog;
  }

  /** The table a commit installs. */
  lemma Installs(cur: Int32, recs: seq<LogRec>, next: Int32)
    requires cur < next && forall r | r in recs :: r.txn == cur
    ensures NewTxnLog(cur, recs) == if recs == [] then map[] else map[cur := Paired(cur, recs)]
    ensures LogBelow(NewTxnLog(cur, recs), next)
  {
    hide NewTxnLog, Paired;
    NewTxnLogIs(cur, recs);
    PairedAllOf(cur, recs);
  }

  lemma InstallKeepsShape(s: State)
    requires Shape(s) && Enabled(s, Install)
    ensures Shape(Next(s, Install))
  {
    assert Entry(s.txnLog, s.cur) == s.recs;
    hide OfTxn, NewTxnLog, Paired, CommitRecs, LogBelow;
    Installs(s.cur, s.recs, s.next);
  }

  lemma WriteKeepsShape(s: State)
    requires Shape(s) && Enabled(s, WriteOne)
    ensures Shape(Next(s, WriteOne))
  {
    hide OfTxn, Paired, CommitRecs, LogBelow;
  }

  lemma ShapeKept(s: State, e: Event)
    requires Shape(s) && Enabled(s, e)
    ensures Shape(Next(s, e))
  {
    hide OfTxn, NewTxnLog, Paired, CommitRecs, Group, RecOps, Vote, ValidPrefix, PrepareRecs, InsertPrepared, Prepare, Undecided, HalfDurable;
    match e
    case Issue =>
      NoRecordsYet(s.disk, s.next);
    case PrepareYes(txn) => PrepareKeepsShape(s, txn);
    case Copy(txn) => PrepareKeepsShape(s, txn);
    case WriteOne => WriteKeepsShape(s);
    case Install => InstallKeepsShape(s);
    case Crash => CrashKeepsShape(s);
    case AppendPrepare => AppendKeepsShape(s, e);
    case AppendCommit => AppendKeepsShape(s, e);
    case AppendAbort => AppendKeepsShape(s, e);
    case _ =>
  }
}
