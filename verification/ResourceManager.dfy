/** A resource manager: the tables it keeps, its replicated log, and its part in two-phase commit. */
module ResourceManager {
  import opened Records
  import opened TextFiles

  /** Transaction id to the records logged for it. */
  type TxnLog = map<Int32, seq<LogRec>>

  datatype RepReq = RepReq(factory: Int32, committed: int, last: int, op: MapOp)

  /** What travels over the connection to a peer, in order. */
  datatype Msg = Ident(tag: string) | Prepare(txn: Txn) | Replicate(req: RepReq)

  /** What the network does during one admin request, peer by peer. */
  datatype Net = Net(onPromotion: nat -> bool, reconnect: nat -> bool, acked: nat -> bool)

  /** One change of a file. */
  datatype FileOp = LogAppended(recs: seq<LogRec>) | RecordsWritten(store: Store)

  datatype LaptopInfo = LaptopInfo(cid: Int32, num: Int32, typ: Int32, engineer: Int32, admin: Int32)

  datatype AdminRequest = AdminRequest(laptop: LaptopInfo, cid: Int32, num: Int32)

  /** The volatile state of a node. */
  datatype Node = Node(record: Store, smr: seq<MapOp>, last: int, committed: int,
                       primary: Int32, factory: Int32, live: seq<bool>, wire: seq<seq<Msg>>, txnLog: TxnLog) {
    /** The indices describe the log, so no access to it is out of range. */
    predicate Valid() {
      |smr| == last + 1 && -1 <= committed <= last && |live| == |wire|
    }

    /** The number of log entries not yet counted as committed. */
    function Gap(): int { last - committed }
  }

  function AllDead(peers: nat): (live: seq<bool>)
    ensures |live| == peers
  {
    seq(peers, _ => false)
  }

  function AllSilent(peers: nat): (wire: seq<seq<Msg>>)
    ensures |wire| == peers
  {
    seq(peers, _ => [])
  }

  /** A node that has just booted with the given tables. */
  function Booted(record: Store, txnLog: TxnLog, factory: Int32, peers: nat): (n: Node)
    ensures n.Valid() && n.Gap() == 0
  {
    Node(record, [], -1, -1, -1, factory, AllDead(peers), AllSilent(peers), txnLog)
  }

  // ---- Voting and the transaction log ----

  /** A read is contradicted only by a customer that is present with another last order. */
  predicate Agrees(record: Store, r: CustRec) {
    r.cid in record ==> record[r.cid] == r.last
  }

  predicate Vote(record: Store, readSet: seq<CustRec>) {
    forall r | r in readSet :: Agrees(record, r)
  }

  function PrepareRec(id: Int32, o: Order): LogRec {
    LogRec(id, PREPARE, o.cid, o.num, o.typ)
  }

  function PrepareRecs(id: Int32, orders: seq<Order>): (recs: seq<LogRec>)
    ensures |recs| == |orders|
  {
    seq(|orders|, i requires 0 <= i < |orders| => PrepareRec(id, orders[i]))
  }

  function CommitRec(id: Int32, r: LogRec): LogRec {
    LogRec(id, COMMIT, r.cid, r.num, r.typ)
  }

  function CommitRecs(id: Int32, recs: seq<LogRec>): (out: seq<LogRec>)
    ensures |out| == |recs|
  {
    seq(|recs|, i requires 0 <= i < |recs| => CommitRec(id, recs[i]))
  }

  function AbortRec(id: Int32): LogRec {
    LogRec(id, ABORT, -1, -1, -1)
  }

  function Entry(d: TxnLog, id: Int32): seq<LogRec> {
    if id in d then d[id] else []
  }

  function UpdateValue(d: TxnLog, key: Int32, v: LogRec): TxnLog {
    d[key := Entry(d, key) + [v]]
  }

  /** The log table rebuilt from a run of records. */
  function Group(recs: seq<LogRec>): TxnLog {
    if recs == [] then map[] else
      var r := recs[|recs| - 1];
      UpdateValue(Group(recs[..|recs| - 1]), r.txn, r)
  }

  function InsertPrepared(d: TxnLog, txn: Txn): TxnLog {
    if txn.id in d then d else d[txn.id := PrepareRecs(txn.id, ValidPrefix(txn.writeSet))]
  }

  /** The table `TMCommit` puts in the place of the old one: each record followed by its commit record. */
  function NewTxnLog(id: Int32, recs: seq<LogRec>): TxnLog {
    if recs == [] then map[] else
      var r := recs[|recs| - 1];
      UpdateValue(UpdateValue(NewTxnLog(id, recs[..|recs| - 1]), r.txn, r), r.txn, CommitRec(id, r))
  }

  // ---- The replicated log ----

  /** What promotion does about the uncommitted tail: it applies the last entry once per missing step. */
  function Settle(n: Node): (r: Node)
    requires n.Valid()
    ensures r.Valid() && r.Gap() == 0
  {
    if n.committed < n.last then n.(record := Apply(n.record, n.smr[n.last]), committed := n.last) else n
  }

  /** Connecting to the peers: each one reached gets the greeting and counts as live. */
  function Greeted(n: Node, connect: nat -> bool, hello: seq<Msg>): (r: Node)
    requires n.Valid()
    ensures r.Valid() && r.Gap() == n.Gap()
  {
    n.(live := seq(|n.live|, i requires 0 <= i < |n.live| => n.live[i] || connect(i)),
       wire := seq(|n.live|, i requires 0 <= i < |n.live| => n.wire[i] + if connect(i) then hello else []))
  }

  function Promote(n: Node, connect: nat -> bool): (r: Node)
    requires n.Valid()
    ensures r.Valid() && r.Gap() == 0
  {
    Settle(Greeted(n.(primary := n.factory), connect, [Ident("PFA")]))
  }

  function Append(n: Node, op: MapOp): (r: Node)
    requires n.Valid()
    ensures r.Valid() && r.Gap() == n.Gap()
  {
    n.(smr := n.smr + [op], last := n.last + 1, record := Apply(n.record, op), committed := n.committed + 1)
  }

  /** The whole log as catch-up streams it: entry `i` announces index `i - 1` as committed. */
  function AllRequests(factory: Int32, smr: seq<MapOp>): (ms: seq<Msg>)
    ensures |ms| == |smr|
  {
    seq(|smr|, i requires 0 <= i < |smr| => Replicate(RepReq(factory, i - 1, i, smr[i])))
  }

  function PeerTraffic(n: Node, op: MapOp, i: nat, net: Net): seq<Msg>
    requires i < |n.live|
  {
    if n.live[i] then [Replicate(RepReq(n.factory, n.committed, n.last, op))]
    else if net.reconnect(i) then [Ident("PFA")] + AllRequests(n.factory, n.smr)
    else []
  }

  function Replicated(n: Node, op: MapOp, net: Net): (r: Node)
    requires n.Valid()
    ensures r.Valid() && r.Gap() == n.Gap()
  {
    n.(live := seq(|n.live|, i requires 0 <= i < |n.live| => if n.live[i] then net.acked(i) else net.reconnect(i)),
       wire := seq(|n.live|, i requires 0 <= i < |n.live| => n.wire[i] + PeerTraffic(n, op, i, net)))
  }

  function Led(n: Node, net: Net): (r: Node)
    requires n.Valid()
    ensures r.Valid()
  {
    if n.primary != n.factory then Promote(n, net.onPromotion) else n
  }

  /** One request through the admin thread. */
  function Admin(n: Node, cid: Int32, num: Int32, net: Net): (r: Node)
    requires n.Valid()
    ensures r.Valid()
  {
    Replicated(Append(Led(n, net), OpOf(cid, num)), OpOf(cid, num), net)
  }

  /** The requests of a queue, in its order. */
  function AdminQueueRun(n: Node, reqs: seq<AdminRequest>, nets: nat -> Net): (r: Node)
    requires n.Valid()
    ensures r.Valid()
  {
    if reqs == [] then n else
      var k := |reqs| - 1;
      Admin(AdminQueueRun(n, reqs[..k], nets), reqs[k].cid, reqs[k].num, nets(k))
  }

  /** The requests of one commit, in the order of its records. */
  function AdminRun(n: Node, recs: seq<LogRec>, nets: nat -> Net): (r: Node)
    requires n.Valid()
    ensures r.Valid()
  {
    if recs == [] then n else
      var k := |recs| - 1;
      Admin(AdminRun(n, recs[..k], nets), recs[k].cid, recs[k].num, nets(k))
  }

  datatype IfaEnd = Serving | Closed | OutOfRange

  /** One message at a backup. A default request (factory -1) is what a closed connection yields. */
  function IfaStep(n: Node, req: RepReq): (r: (Node, IfaEnd))
    requires n.Valid()
    ensures r.0.Valid()
  {
    if req.factory == -1 then (n.(primary := -1), Closed) else
      var p := n.(primary := req.factory, smr := n.smr + [req.op], last := n.last + 1);
      if req.committed < 0 then (p, Serving)
      else if req.committed >= |p.smr| then (p, OutOfRange)
      else (p.(record := Apply(p.record, p.smr[req.committed]), committed := p.committed + 1), Serving)
  }

  /** A run of messages; the flow stops at a closed connection or at an index outside the log. */
  function IfaRun(n: Node, reqs: seq<RepReq>): (r: (Node, IfaEnd))
    requires n.Valid()
    ensures r.0.Valid()
  {
    if reqs == [] then (n, Serving) else
      var (m, end) := IfaRun(n, reqs[..|reqs| - 1]);
      if end == Serving then IfaStep(m, reqs[|reqs| - 1]) else (m, end)
  }

  // ---- What a node makes of what a peer sends it ----

  /** Where the thread of a connection is: waiting for an identification, in the flow of a primary, before the body of
      a copied prepare, at its end; or the process has ended with an exception. */
  datatype Mode = Waiting | Replicating | Copying | Shut | Dead

  datatype Peer = Peer(node: Node, mode: Mode)

  /** A peer identifies itself exactly when it opens a connection, so an identification also ends the flow of the
      connection before. What does not fit the state of the thread ends it. */
  function ReceiveOne(r: Peer, m: Msg): (s: Peer)
    requires r.node.Valid()
    ensures s.node.Valid()
  {
    if r.mode == Dead then r else
      match m
      case Ident(tag) =>
        Peer(if r.mode == Replicating then r.node.(primary := -1) else r.node,
             if tag == "PFA" then Replicating else if tag == "PrPrepare" then Copying else Shut)
      case Prepare(txn) =>
        if r.mode == Copying then Peer(r.node.(txnLog := InsertPrepared(r.node.txnLog, txn)), Waiting)
        else r.(mode := Shut)
      case Replicate(req) =>
        if r.mode == Replicating then
          var (n, end) := IfaStep(r.node, req);
          Peer(n, if end == Serving then Replicating else if end == Closed then Shut else Dead)
        else r.(mode := Shut)
  }

  function Receive(r: Peer, ms: seq<Msg>): (s: Peer)
    requires r.node.Valid()
    ensures s.node.Valid()
  {
    if ms == [] then r else ReceiveOne(Receive(r, ms[..|ms| - 1]), ms[|ms| - 1])
  }

  /** The records of the copied prepares among the messages. */
  function CopiedRecs(r: Peer, ms: seq<Msg>): seq<LogRec>
    requires r.node.Valid()
  {
    if ms == [] then [] else
      var k := |ms| - 1;
      CopiedRecs(r, ms[..k])
      + if ms[k].Prepare? && Receive(r, ms[..k]).mode == Copying
        then PrepareRecs(ms[k].txn.id, ValidPrefix(ms[k].txn.writeSet)) else []
  }

  // ---- Reads ----

  const READ: Int32 := 2

  /** The answer to a read. */
  function ReadOf(s: Store, c: Int32): CustRec {
    if c in s then CustRec(c, s[c]) else NO_RECORD
  }

  /** The answers of one connection: requests of another type get none, and the first unfilled one ends it. */
  function Answers(s: Store, orders: seq<Order>): seq<CustRec> {
    if orders == [] || !orders[0].IsValid() then []
    else (if orders[0].typ == READ then [ReadOf(s, orders[0].cid)] else []) + Answers(s, orders[1..])
  }

  // ---- The three messages of the transaction manager ----

  function CopiedToPeers(n: Node, txn: Txn, connect: nat -> bool): (r: Node)
    requires n.Valid()
    ensures r.Valid()
  {
    Greeted(n, connect, [Ident("PrPrepare"), Prepare(txn)])
  }

  function Prepared(n: Node, txn: Txn, connect: nat -> bool): (r: Node)
    requires n.Valid()
    ensures r.Valid()
  {
    if Vote(n.record, txn.readSet)
    then CopiedToPeers(n.(txnLog := InsertPrepared(n.txnLog, txn)), txn, connect)
    else n
  }

  function Committed(n: Node, id: Int32, nets: nat -> Net): (r: Node)
    requires n.Valid()
    ensures r.Valid()
  {
    var recs := Entry(n.txnLog, id);
    AdminRun(n, recs, nets).(txnLog := NewTxnLog(id, recs))
  }

  function Aborted(n: Node, id: Int32): (r: Node)
    requires n.Valid()
    ensures r.Valid()
  {
    n.(txnLog := UpdateValue(n.txnLog, id, AbortRec(id)))
  }

  lemma {:induction false} AdminRunKeeps(n: Node, recs: seq<LogRec>, nets: nat -> Net)
    requires n.Valid()
    ensures var r := AdminRun(n, recs, nets);
            r.factory == n.factory && r.txnLog == n.txnLog && |r.live| == |n.live|
            && (n.Gap() == 0 ==> r.Gap() == 0)
  {
    if recs != [] {
      AdminRunKeeps(n, recs[..|recs| - 1], nets);
    }
  }

  /** On a node without a gap a commit is the fold of its records, whoever was primary before. */
  lemma {:induction false} AdminRunFolds(n: Node, recs: seq<LogRec>, nets: nat -> Net)
    requires n.Valid() && n.Gap() == 0
    ensures var r := AdminRun(n, recs, nets);
            r.record == Fold(n.record, RecOps(recs)) && r.smr == n.smr + RecOps(recs)
  {
    if recs != [] {
      var k := |recs| - 1;
      AdminRunFolds(n, recs[..k], nets);
      AdminRunKeeps(n, recs[..k], nets);
      assert RecOps(recs)[..k] == RecOps(recs[..k]);
      assert RecOps(recs) == RecOps(recs[..k]) + [OpOf(recs[k].cid, recs[k].num)];
    }
  }

  lemma RecOpsStep(recs: seq<LogRec>)
    requires recs != []
    ensures var k := |recs| - 1; RecOps(recs) == RecOps(recs[..k]) + [OpOf(recs[k].cid, recs[k].num)]
  {
  }

  lemma RecOpsOfPrepare(id: Int32, orders: seq<Order>)
    ensures RecOps(PrepareRecs(id, orders)) == OrderOps(orders)
  {
    assert forall i | 0 <= i < |orders| :: RecOps(PrepareRecs(id, orders))[i] == OrderOps(orders)[i];
  }

  lemma CommitStart(n: Node, id: Int32, nets: nat -> Net)
    requires n.Valid()
    ensures AdminRun(n, [], nets) == n && NewTxnLog(id, []) == map[] && CommitRecs(id, []) == []
  {
  }

  lemma CommitStep(n: Node, id: Int32, recs: seq<LogRec>, i: nat, nets: nat -> Net)
    requires n.Valid() && i < |recs|
    ensures AdminRun(n, recs[..i + 1], nets) == Admin(AdminRun(n, recs[..i], nets), recs[i].cid, recs[i].num, nets(i))
    ensures NewTxnLog(id, recs[..i + 1])
            == UpdateValue(UpdateValue(NewTxnLog(id, recs[..i]), recs[i].txn, recs[i]), recs[i].txn, CommitRec(id, recs[i]))
    ensures CommitRecs(id, recs[..i + 1]) == CommitRecs(id, recs[..i]) + [CommitRec(id, recs[i])]
  {
    assert recs[..i + 1][..i] == recs[..i];
  }

  lemma GroupOneMore(done: seq<seq<Int32>>, line: seq<Int32>)
    requires AllOfWidth(done, 5) && |line| == 5
    ensures AllOfWidth(done + [line], 5)
    ensures Group(LogOf(done + [line])) == UpdateValue(Group(LogOf(done)), RecOf(line).txn, RecOf(line))
  {
    assert LogOf(done + [line])[..|done|] == LogOf(done);
  }

  lemma ParseOneMore(done: seq<seq<Int32>>, rest: string)
    requires ReadFields(rest, 5).Some?
    ensures var (line, end) := ReadFields(rest, 5).value;
            done + ParseLines(rest, 5) == done + [line] + ParseLines(end, 5)
  {
  }

  /** A node: the fields are those of the source's class, the two files are texts. */
  class LaptopFactory {
    var arq: seq<AdminRequest>
    var customerRecord: Store
    var smrLog: seq<MapOp>
    var lastIndex: int
    var committedIndex: int
    var primaryId: Int32
    var factoryId: Int32
    var livePeers: seq<bool>
    var wire: seq<seq<Msg>>
    var txnLog: TxnLog
    var logFile: string
    var custRecFile: string
    ghost var fileOps: seq<FileOp>   // the changes of both files, in the order in which they were made

    function View(): Node
      reads this
    {
      Node(customerRecord, smrLog, lastIndex, committedIndex, primaryId, factoryId, livePeers, wire, txnLog)
    }

    ghost predicate Valid()
      reads this
    {
      View().Valid()
    }

    /** Booting from whatever the two files hold; a missing file reads as an empty one. */
    constructor (peerCount: nat, id: Int32, logText: string, recText: string)
      ensures Valid() && arq == []
      ensures View() == Booted(ParseStore(recText), Group(ParseLog(logText)), id, peerCount)
      ensures logFile == logText && custRecFile == recText && fileOps == []
    {
      fileOps := [];
      arq := [];
      smrLog, lastIndex, committedIndex, primaryId, factoryId := [], -1, -1, -1, id;
      livePeers, wire := AllDead(peerCount), AllSilent(peerCount);
      customerRecord, txnLog := map[], map[];
      logFile, custRecFile := logText, recText;
      new;
      hide ParseStore, ParseLog, Group, AllDead, AllSilent;
      Recover();
    }

    method Recover()
      requires customerRecord == map[] && txnLog == map[]
      modifies `customerRecord, `txnLog
      ensures customerRecord == ParseStore(custRecFile) && txnLog == Group(ParseLog(logFile))
    {
      hide ParseStore, ParseLog, Group;
      RecoveryCustRec();
      RecoveryTxnLog();
    }

    method RecoveryTxnLog()
      requires txnLog == map[]
      modifies `txnLog
      ensures txnLog == Group(ParseLog(logFile))
    {
      var rest := logFile;
      ghost var done: seq<seq<Int32>> := [];
      var next := ReadFields(rest, 5);
      while next.Some?
        invariant AllOfWidth(done, 5) && next == ReadFields(rest, 5)
        invariant ParseLines(logFile, 5) == done + ParseLines(rest, 5)
        invariant txnLog == Group(LogOf(done))
        decreases |rest|
      {
        var rec := RecOf(next.value.0);
        GroupOneMore(done, next.value.0);
        txnLog := UpdateValue(txnLog, rec.txn, rec);
        ParseOneMore(done, rest);
        done := done + [next.value.0];
        rest := next.value.1;
        next := ReadFields(rest, 5);
      }
      assert done + [] == done;
    }

    method RecoveryCustRec()
      requires customerRecord == map[]
      modifies `customerRecord
      ensures customerRecord == ParseStore(custRecFile)
    {
      var rest := custRecFile;
      var next := ReadFields(rest, 2);
      while next.Some?
        invariant next == ReadFields(rest, 2)
        invariant ParseStore(custRecFile) == InsertAll(customerRecord, ParseLines(rest, 2))
        decreases |rest|
      {
        var (cid, last) := (next.value.0[0], next.value.0[1]);
        if cid !in customerRecord {
          customerRecord := customerRecord[cid := last];
        }
        rest := next.value.1;
        next := ReadFields(rest, 2);
      }
    }

    method StoreTxnLogRecord(recs: seq<LogRec>)
      modifies `logFile, `fileOps
      ensures logFile == old(logFile) + PrintLog(recs) && fileOps == old(fileOps) + [LogAppended(recs)]
    {
      var text := "";
      for i := 0 to |recs|
        invariant text == PrintLog(recs[..i]) && logFile == old(logFile) && fileOps == old(fileOps)
      {
        text := text + PrintLine(LogFields(recs[i]));
        OneMoreRecord(recs[..i], recs[i]);
        assert recs[..i + 1] == recs[..i] + [recs[i]];
      }
      assert recs[..|recs|] == recs;
      logFile := logFile + text;
      fileOps := fileOps + [LogAppended(recs)];
    }

    static method FirstKey(m: Store) returns (k: Int32)
      requires m.Keys != {}
      ensures k == MinKey(m.Keys)
    {
      ghost var smallest := MinKey(m.Keys);
      k :| k in m.Keys && forall j | j in m.Keys :: k <= j;
    }

    method StoreCustRecTxn()
      modifies `custRecFile, `fileOps
      ensures custRecFile == PrintStore(customerRecord) && fileOps == old(fileOps) + [RecordsWritten(customerRecord)]
    {
      hide PrintStore, PrintLine, MinKey;
      var rest := customerRecord;
      custRecFile := "";
      while rest != map[]
        invariant PrintStore(customerRecord) == custRecFile + PrintStore(rest) && fileOps == old(fileOps)
        decreases |rest|
      {
        assert rest.Keys != {};
        var k := FirstKey(rest);
        PrintFirstEntry(rest);
        custRecFile := custRecFile + PrintLine([k, rest[k]]);
        rest := rest - {k};
      }
      PrintNoEntries();
      assert custRecFile + "" == custRecFile;
      fileOps := fileOps + [RecordsWritten(customerRecord)];
    }

    method StoreTxnLogInTxnMap(txn: Txn)
      modifies `txnLog, `logFile, `fileOps
      ensures txnLog == InsertPrepared(old(txnLog), txn)
      ensures logFile == old(logFile) + PrintLog(PrepareRecs(txn.id, ValidPrefix(txn.writeSet)))
      ensures fileOps == old(fileOps) + [LogAppended(PrepareRecs(txn.id, ValidPrefix(txn.writeSet)))]
    {
      hide PrintLog;
      var recs: seq<LogRec> := [];
      var i := 0;
      while i < |txn.writeSet|
        invariant 0 <= i <= |txn.writeSet| && txnLog == old(txnLog) && logFile == old(logFile) && fileOps == old(fileOps)
        invariant ValidPrefix(txn.writeSet) == txn.writeSet[..i] + ValidPrefix(txn.writeSet[i..])
        invariant recs == PrepareRecs(txn.id, txn.writeSet[..i])
      {
        var order := txn.writeSet[i];
        if !order.IsValid() {
          break;
        }
        assert txn.writeSet[i..][1..] == txn.writeSet[i + 1..];
        assert txn.writeSet[..i + 1] == txn.writeSet[..i] + [order];
        recs := recs + [PrepareRec(txn.id, order)];
        i := i + 1;
      }
      assert ValidPrefix(txn.writeSet[i..]) == [];
      assert txn.writeSet[..i] == ValidPrefix(txn.writeSet);
      if txn.id !in txnLog {
        txnLog := txnLog[txn.id := recs];
      }
      StoreTxnLogRecord(recs);
    }

    method Greet(connect: nat -> bool, hello: seq<Msg>)
      requires Valid()
      modifies `livePeers, `wire
      ensures View() == Greeted(old(View()), connect, hello)
    {
      ghost var after := Greeted(View(), connect, hello);
      for i := 0 to |livePeers|
        invariant |livePeers| == |wire| == |old(livePeers)|
        invariant forall j | 0 <= j < |wire| :: livePeers[j] == if j < i then after.live[j] else old(livePeers)[j]
        invariant forall j | 0 <= j < |wire| :: wire[j] == if j < i then after.wire[j] else old(wire)[j]
      {
        assert wire[i] + [] == wire[i];
        if connect(i) {
          wire := wire[i := wire[i] + hello];
          livePeers := livePeers[i := true];
        }
      }
    }

    method CopyTranlogReplica(txn: Txn, connect: nat -> bool)
      requires Valid()
      modifies `livePeers, `wire
      ensures View() == CopiedToPeers(old(View()), txn, connect)
    {
      Greet(connect, [Ident("PrPrepare"), Prepare(txn)]);
    }

    method TMPrepare(txn: Txn, connect: nat -> bool) returns (reply: string)
      requires Valid()
      modifies this
      ensures Valid() && arq == old(arq) && custRecFile == old(custRecFile)
      ensures reply == if Vote(old(customerRecord), txn.readSet) then "Ok" else "No"
      ensures View() == Prepared(old(View()), txn, connect)
      ensures logFile == old(logFile) + if Vote(old(customerRecord), txn.readSet)
                                        then PrintLog(PrepareRecs(txn.id, ValidPrefix(txn.writeSet))) else ""
      ensures fileOps == old(fileOps) + if Vote(old(customerRecord), txn.readSet)
                                        then [LogAppended(PrepareRecs(txn.id, ValidPrefix(txn.writeSet)))] else []
    {
      var allOk := true;
      for i := 0 to |txn.readSet|
        invariant allOk
        invariant forall j | 0 <= j < i :: Agrees(customerRecord, txn.readSet[j])
      {
        var record := txn.readSet[i];
        if record.cid in customerRecord && record.last != customerRecord[record.cid] {
          allOk := false;
          assert !Agrees(customerRecord, txn.readSet[i]);
          break;
        }
      }
      if allOk {
        StoreTxnLogInTxnMap(txn);
        CopyTranlogReplica(txn, connect);
        reply := "Ok";
      } else {
        assert logFile + "" == logFile;
        reply := "No";
      }
    }

    /** A backup stores a replicated prepare without validating it. */
    method PeerPrepare(txn: Txn) returns (reply: string)
      requires Valid()
      modifies `txnLog, `logFile, `fileOps
      ensures Valid() && reply == "Ok"
      ensures View() == old(View()).(txnLog := InsertPrepared(old(txnLog), txn))
      ensures logFile == old(logFile) + PrintLog(PrepareRecs(txn.id, ValidPrefix(txn.writeSet)))
      ensures fileOps == old(fileOps) + [LogAppended(PrepareRecs(txn.id, ValidPrefix(txn.writeSet)))]
    {
      StoreTxnLogInTxnMap(txn);
      reply := "Ok";
    }

    method UpdateCustomerRecord(op: MapOp)
      modifies `customerRecord, `committedIndex
      ensures customerRecord == Apply(old(customerRecord), op) && committedIndex == old(committedIndex) + 1
    {
      customerRecord := customerRecord[op.arg1 := op.arg2];
      committedIndex := committedIndex + 1;
    }

    method BecomePrimary(connect: nat -> bool)
      requires Valid()
      modifies `primaryId, `livePeers, `wire, `customerRecord, `committedIndex
      ensures View() == Promote(old(View()), connect)
    {
      primaryId := factoryId;
      Greet(connect, [Ident("PFA")]);
      ghost var greeted := View();
      while committedIndex < lastIndex
        invariant greeted.committed <= committedIndex <= lastIndex
        invariant View() == greeted.(committed := committedIndex, record := customerRecord)
        invariant customerRecord == if committedIndex == greeted.committed then greeted.record
                                    else Apply(greeted.record, smrLog[lastIndex])
      {
        UpdateCustomerRecord(smrLog[lastIndex]);
      }
    }

    method SendAllRequests(peer: nat)
      requires Valid() && peer < |wire|
      modifies `wire
      ensures wire == old(wire)[peer := old(wire)[peer] + AllRequests(factoryId, smrLog)]
    {
      ghost var all := AllRequests(factoryId, smrLog);
      for i := 0 to |smrLog|
        invariant |wire| == |old(wire)| && wire[peer] == old(wire)[peer] + all[..i]
        invariant forall j | 0 <= j < |wire| && j != peer :: wire[j] == old(wire)[j]
      {
        assert all[..i + 1] == all[..i] + [all[i]];
        var req := Replicate(RepReq(factoryId, i - 1, i, smrLog[i]));
        wire := wire[peer := wire[peer] + [req]];
      }
      assert all[..|smrLog|] == all;
    }

    /** One peer's share of a request. */
    method ReplicateTo(i: nat, op: MapOp, net: Net)
      requires Valid() && i < |livePeers|
      modifies `livePeers, `wire
      ensures livePeers == old(livePeers)[i := Replicated(old(View()), op, net).live[i]]
      ensures wire == old(wire)[i := Replicated(old(View()), op, net).wire[i]]
    {
      assert wire[i] + [] == wire[i];
      if !livePeers[i] {
        if net.reconnect(i) {
          wire := wire[i := wire[i] + [Ident("PFA")]];
          livePeers := livePeers[i := true];
          SendAllRequests(i);
          assert wire[i] == old(wire)[i] + ([Ident("PFA")] + AllRequests(factoryId, smrLog));
        }
      } else {
        wire := wire[i := wire[i] + [Replicate(RepReq(factoryId, committedIndex, lastIndex, op))]];
        if !net.acked(i) {
          livePeers := livePeers[i := false];
        }
      }
    }

    method ReplicateToPeers(op: MapOp, net: Net)
      requires Valid()
      modifies `livePeers, `wire
      ensures View() == Replicated(old(View()), op, net)
    {
      ghost var after := Replicated(View(), op, net);
      for i := 0 to |livePeers|
        invariant |livePeers| == |wire| == |old(livePeers)|
        invariant forall j | 0 <= j < |wire| :: livePeers[j] == if j < i then after.live[j] else old(livePeers)[j]
        invariant forall j | 0 <= j < |wire| :: wire[j] == if j < i then after.wire[j] else old(wire)[j]
      {
        ReplicateTo(i, op, net);
      }
    }

    method Lead(net: Net)
      requires Valid()
      modifies `primaryId, `livePeers, `wire, `customerRecord, `committedIndex
      ensures View() == Led(old(View()), net)
    {
      if primaryId != factoryId {
        BecomePrimary(net.onPromotion);
      }
    }

    method AppendOp(op: MapOp)
      requires Valid()
      modifies `smrLog, `lastIndex, `customerRecord, `committedIndex
      ensures View() == Append(old(View()), op)
    {
      smrLog := smrLog + [op];
      lastIndex := lastIndex + 1;
      customerRecord := customerRecord[op.arg1 := op.arg2];
      committedIndex := committedIndex + 1;
    }

    /** One turn of the admin thread: it serves the request at the head of the queue. */
    method AdminTurn(id: Int32, net: Net) returns (laptop: LaptopInfo)
      requires Valid() && arq != []
      modifies this
      ensures Valid() && logFile == old(logFile) && custRecFile == old(custRecFile) && fileOps == old(fileOps)
      ensures arq == old(arq)[1..]
      ensures View() == Admin(old(View()), old(arq)[0].cid, old(arq)[0].num, net)
      ensures laptop == old(arq)[0].laptop.(admin := id)
    {
      hide Led, Append, Replicated;
      var req := arq[0];
      arq := arq[1..];
      Lead(net);
      var op := OpOf(req.cid, req.num);
      AppendOp(op);
      ReplicateToPeers(op, net);
      laptop := req.laptop.(admin := id);
    }

    /** Enqueue one order and wait for it: the admin thread first serves what other producers have enqueued. */
    method CreateRegularLaptop(order: Order, engineer: Int32, nets: nat -> Net) returns (laptop: LaptopInfo)
      requires Valid()
      modifies this
      ensures Valid() && arq == [] && logFile == old(logFile) && custRecFile == old(custRecFile) && fileOps == old(fileOps)
      ensures View() == Admin(AdminQueueRun(old(View()), old(arq), nets), order.cid, order.num, nets(|old(arq)|))
      ensures laptop == LaptopInfo(order.cid, order.num, order.typ, engineer, 0)
    {
      hide Admin;
      laptop := LaptopInfo(order.cid, order.num, order.typ, engineer, -1);
      arq := arq + [AdminRequest(laptop, order.cid, order.num)];
      ghost var all := arq;
      for k := 0 to |arq|
        invariant Valid() && arq == all[k..] && logFile == old(logFile) && custRecFile == old(custRecFile) && fileOps == old(fileOps)
        invariant View() == AdminQueueRun(old(View()), all[..k], nets)
        invariant k > 0 ==> laptop == all[k - 1].laptop.(admin := 0)
      {
        assert all[..k + 1][..k] == all[..k] && all[k..][1..] == all[k + 1..] && all[k..][0] == all[k];
        laptop := AdminTurn(0, nets(k));
      }
      assert all[..|all|] == all && all[..|all| - 1] == old(arq);
    }

    /** The commit's loop over the logged writes: each goes through the admin queue. */
    method CommitWrites(id: Int32, engineer: Int32, recs: seq<LogRec>, nets: nat -> Net)
      returns (newTxnLog: TxnLog, committed: seq<LogRec>)
      requires Valid() && arq == []
      modifies this
      ensures Valid() && arq == [] && logFile == old(logFile) && fileOps == old(fileOps)
      ensures View() == AdminRun(old(View()), recs, nets)
      ensures newTxnLog == NewTxnLog(id, recs) && committed == CommitRecs(id, recs)
    {
      hide Admin, AdminRun, NewTxnLog, CommitRecs, UpdateValue;
      newTxnLog, committed := map[], [];
      CommitStart(View(), id, nets);
      for i := 0 to |recs|
        invariant Valid() && arq == [] && logFile == old(logFile) && fileOps == old(fileOps)
        invariant View() == AdminRun(old(View()), recs[..i], nets)
        invariant newTxnLog == NewTxnLog(id, recs[..i])
        invariant committed == CommitRecs(id, recs[..i])
      {
        var rec := recs[i];
        CommitStep(old(View()), id, recs, i, nets);
        newTxnLog := UpdateValue(newTxnLog, rec.txn, rec);
        var done := CommitRec(id, rec);
        committed := committed + [done];
        newTxnLog := UpdateValue(newTxnLog, rec.txn, done);
        var _ := CreateRegularLaptop(Order(rec.cid, rec.num, rec.typ), engineer, _ => nets(i));
      }
      assert recs[..|recs|] == recs;
    }

    method TMCommit(id: Int32, engineer: Int32, nets: nat -> Net) returns (reply: string)
      requires Valid() && arq == []
      modifies this
      ensures Valid() && arq == [] && reply == "Done commit"
      ensures View() == Committed(old(View()), id, nets)
      ensures logFile == old(logFile) + PrintLog(CommitRecs(id, Entry(old(txnLog), id)))
      ensures custRecFile == PrintStore(customerRecord)
      ensures fileOps == old(fileOps) + [LogAppended(CommitRecs(id, Entry(old(txnLog), id))), RecordsWritten(customerRecord)]
    {
      hide AdminRun, NewTxnLog, CommitRecs, PrintLog, PrintStore;
      var recs := if id in txnLog then txnLog[id] else [];
      var newTxnLog, committed := CommitWrites(id, engineer, recs, nets);
      txnLog := newTxnLog;
      StoreTxnLogRecord(committed);
      StoreCustRecTxn();
      reply := "Done commit";
    }

    method TMAbort(id: Int32) returns (reply: string)
      requires Valid()
      modifies `txnLog, `logFile, `fileOps
      ensures Valid() && reply == "Done abort"
      ensures View() == Aborted(old(View()), id)
      ensures logFile == old(logFile) + PrintLog([AbortRec(id)]) && fileOps == old(fileOps) + [LogAppended([AbortRec(id)])]
    {
      var rec := AbortRec(id);
      txnLog := UpdateValue(txnLog, id, rec);
      StoreTxnLogRecord([rec]);
      reply := "Done abort";
    }

    /** The reads of one client connection. */
    method ReadEngineerFlow(orders: seq<Order>) returns (answers: seq<CustRec>)
      ensures answers == Answers(customerRecord, orders)
    {
      answers := [];
      var i := 0;
      while i < |orders| && orders[i].IsValid()
        invariant i <= |orders|
        invariant Answers(customerRecord, orders) == answers + Answers(customerRecord, orders[i..])
      {
        var order := orders[i];
        assert orders[i..][1..] == orders[i + 1..];
        if order.typ == READ {
          var record := NO_RECORD;
          if order.cid in customerRecord {
            record := CustRec(order.cid, customerRecord[order.cid]);
          }
          answers := answers + [record];
        }
        i := i + 1;
      }
      assert Answers(customerRecord, orders[i..]) == [];
      assert answers + [] == answers;
    }

    /** The thread of a connection from a peer: it dispatches on the identifications it gets. */
    method ReceiveFlow(start: Mode, ms: seq<Msg>) returns (mode: Mode)
      requires Valid()
      modifies `primaryId, `smrLog, `lastIndex, `customerRecord, `committedIndex, `txnLog, `logFile, `fileOps
      ensures Valid() && Peer(View(), mode) == Receive(Peer(old(View()), start), ms)
      ensures logFile == old(logFile) + PrintLog(CopiedRecs(Peer(old(View()), start), ms))
    {
      mode := start;
      ghost var was := Peer(View(), start);
      assert logFile + PrintLog([]) == logFile;
      for i := 0 to |ms|
        invariant Valid() && Peer(View(), mode) == Receive(was, ms[..i])
        invariant logFile == old(logFile) + PrintLog(CopiedRecs(was, ms[..i]))
      {
        ReceivedOneMore(was, ms, i);
        mode := ReceiveMessage(mode, ms[i], CopiedRecs(was, ms[..i]));
      }
      assert ms[..|ms|] == ms;
    }

    method ReceiveMessage(start: Mode, m: Msg, ghost copied: seq<LogRec>) returns (mode: Mode)
      requires Valid()
      modifies `primaryId, `smrLog, `lastIndex, `customerRecord, `committedIndex, `txnLog, `logFile, `fileOps
      ensures Valid() && Peer(View(), mode) == ReceiveOne(Peer(old(View()), start), m)
      ensures forall text: string | old(logFile) == text + PrintLog(copied) ::
                logFile == text + PrintLog(copied + CopiedOne(start, m))
    {
      hide PrintLog, InsertPrepared, PrepareRecs, ValidPrefix;
      mode := start;
      assert copied + [] == copied;
      if start == Dead {
        return;
      }
      match m
      case Ident(tag) =>
        if start == Replicating {
          primaryId := -1;
        }
        mode := if tag == "PFA" then Replicating else if tag == "PrPrepare" then Copying else Shut;
      case Prepare(txn) =>
        if start == Copying {
          var _ := PeerPrepare(txn);
          AppendLog(copied, CopiedOne(start, m));
          AppendTexts(copied, CopiedOne(start, m));
          mode := Waiting;
        } else {
          mode := Shut;
        }
      case Replicate(req) =>
        if start == Replicating {
          ghost var was := View();
          var end := IFAFlow([req]);
          OneIfaRequest(was, req);
          mode := if end == Serving then Replicating else if end == Closed then Shut else Dead;
        } else {
          mode := Shut;
        }
    }

    /** The backup's loop over the messages of one connection. */
    method IFAFlow(reqs: seq<RepReq>) returns (end: IfaEnd)
      requires Valid()
      modifies `primaryId, `smrLog, `lastIndex, `customerRecord, `committedIndex
      ensures (View(), end) == IfaRun(old(View()), reqs)
    {
      end := Serving;
      for i := 0 to |reqs|
        invariant end == Serving && Valid()
        invariant (View(), end) == IfaRun(old(View()), reqs[..i])
      {
        var req := reqs[i];
        assert reqs[..i + 1][..i] == reqs[..i];
        if req.factory == -1 {
          primaryId := -1;
          end := Closed;
        } else {
          primaryId := req.factory;
          smrLog := smrLog + [req.op];
          lastIndex := lastIndex + 1;
          if req.committed >= 0 {
            if req.committed >= |smrLog| {
              end := OutOfRange;
            } else {
              UpdateCustomerRecord(smrLog[req.committed]);
            }
          }
        }
        if end != Serving {
          IfaStops(old(View()), reqs, i + 1);
          return;
        }
      }
      assert reqs[..|reqs|] == reqs;
    }
  }

  lemma {:induction false} IfaStops(n: Node, reqs: seq<RepReq>, k: nat)
    requires n.Valid() && k <= |reqs| && IfaRun(n, reqs[..k]).1 != Serving
    ensures IfaRun(n, reqs) == IfaRun(n, reqs[..k])
  {
    if k < |reqs| {
      assert reqs[..|reqs| - 1][..k] == reqs[..k];
      IfaStops(n, reqs[..|reqs| - 1], k);
    } else {
      assert reqs[..k] == reqs;
    }
  }

  function CopiedOne(mode: Mode, m: Msg): seq<LogRec> {
    if m.Prepare? && mode == Copying then PrepareRecs(m.txn.id, ValidPrefix(m.txn.writeSet)) else []
  }

  lemma AppendTexts(a: seq<LogRec>, b: seq<LogRec>)
    ensures forall text: string :: text + PrintLog(a) + PrintLog(b) == text + PrintLog(a + b)
  {
    AppendLog(a, b);
    hide PrintLog;
    forall text: string
      ensures text + PrintLog(a) + PrintLog(b) == text + PrintLog(a + b)
    {
      assert text + PrintLog(a) + PrintLog(b) == text + (PrintLog(a) + PrintLog(b));
    }
  }

  lemma OneIfaRequest(n: Node, req: RepReq)
    requires n.Valid()
    ensures IfaRun(n, [req]) == IfaStep(n, req)
  {
    assert [req][..0] == [];
  }

  lemma ReceivedOneMore(r: Peer, ms: seq<Msg>, i: nat)
    requires r.node.Valid() && i < |ms|
    ensures Receive(r, ms[..i + 1]) == ReceiveOne(Receive(r, ms[..i]), ms[i])
    ensures CopiedRecs(r, ms[..i + 1]) == CopiedRecs(r, ms[..i]) + CopiedOne(Receive(r, ms[..i]).mode, ms[i])
  {
    assert ms[..i + 1][..i] == ms[..i];
  }
}
