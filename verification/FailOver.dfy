/** A primary that fails in the middle of a commit, and what its backup makes durable afterwards. */
module FailOver {
  import opened Records
  import opened TextFiles
  import opened ResourceManager
  import opened Coordinator
  import opened Replication

  /** Customers written by `ops` but not by `over` already had the value `ops` leaves them. */
  ghost predicate Unseen(s: Store, ops: seq<MapOp>, over: seq<MapOp>) {
    forall c | LastWrite(ops, c).Some? && LastWrite(over, c).None? :: Lookup(s, c) == LastWrite(ops, c)
  }

  /** Exactly when writes leave no trace under later ones. */
  lemma UnseenExactly(s: Store, ops: seq<MapOp>, over: seq<MapOp>)
    ensures Fold(Fold(s, ops), over) == Fold(s, over) <==> Unseen(s, ops, over)
  {
    hide Fold, LastWrite;
    var (a, b) := (Fold(Fold(s, ops), over), Fold(s, over));
    forall c
      ensures Lookup(a, c) == OrElse(LastWrite(over, c), OrElse(LastWrite(ops, c), Lookup(s, c)))
      ensures Lookup(b, c) == OrElse(LastWrite(over, c), Lookup(s, c))
    {
      FoldLookup(Fold(s, ops), over, c);
      FoldLookup(s, ops, c);
      FoldLookup(s, over, c);
    }
    hide Lookup;
    if Unseen(s, ops, over) {
      StoresEqual(a, b);
    } else {
      var c :| LastWrite(ops, c).Some? && LastWrite(over, c).None? && Lookup(s, c) != LastWrite(ops, c);
      assert Lookup(a, c) != Lookup(b, c);
    }
  }

  /** The primary has applied and replicated the first `k` writes of a commit when it fails; the backup sees the
      connection close. */
  function Survivor(p: Node, b: Node, i: nat, recs: seq<LogRec>, k: nat, nets: nat -> Net): (r: Node)
    requires p.Valid() && b.Valid() && k <= |recs| && PeerRun(p, b, i, recs[..k], nets).1 == Serving
    ensures r.Valid()
  {
    PeerRun(p, b, i, recs[..k], nets).0.(primary := -1)
  }

  lemma SurvivorIs(p: Node, b: Node, i: nat, recs: seq<LogRec>, k: nat, nets: nat -> Net)
    requires Steady(p, i, nets) && Lockstep(p, b) && k <= |recs|
    ensures PeerRun(p, b, i, recs[..k], nets).1 == Serving
    ensures var r := Survivor(p, b, i, recs, k, nets);
            && r == IfaStep(PeerRun(p, b, i, recs[..k], nets).0, RepReq(-1, -1, -1, OpOf(0, 0))).0
            && r.record == Fold(p.record, RecOps(recs[..k])) && r.Gap() == 0 && r.txnLog == b.txnLog
  {
    LockstepRun(p, b, i, recs[..k], nets);
    AdminRunFolds(p, recs[..k], nets);
    PeerRunKeepsTxnLog(p, b, i, recs[..k], nets);
  }

  lemma {:induction false} IfaRunKeepsTxnLog(b: Node, reqs: seq<RepReq>)
    requires b.Valid()
    ensures IfaRun(b, reqs).0.txnLog == b.txnLog
  {
    if reqs != [] {
      IfaRunKeepsTxnLog(b, reqs[..|reqs| - 1]);
    }
  }

  lemma {:induction false} PeerRunKeepsTxnLog(p: Node, b: Node, i: nat, recs: seq<LogRec>, nets: nat -> Net)
    requires p.Valid() && b.Valid()
    ensures PeerRun(p, b, i, recs, nets).0.txnLog == b.txnLog
  {
    if recs != [] {
      var k := |recs| - 1;
      PeerRunKeepsTxnLog(p, b, i, recs[..k], nets);
      var (m, end) := PeerRun(p, b, i, recs[..k], nets);
      var q := AdminRun(p, recs[..k], nets);
      if end == Serving && i < |q.live| {
        IfaRunKeepsTxnLog(m, Sent(q, OpOf(recs[k].cid, recs[k].num), i, nets(k)));
      }
    }
  }

  lemma UnseenParts(s: Store, ops: seq<MapOp>, k: nat, over: seq<MapOp>)
    requires k <= |ops|
    ensures Fold(Fold(s, ops[..k]), over) == Fold(s, over) <==> Unseen(s, ops[..k], over)
    ensures Fold(Fold(s, ops[..k]), over) == Fold(Fold(s, ops), over) <==> Unseen(Fold(s, ops[..k]), ops[k..], over)
  {
    hide Fold, Unseen;
    UnseenExactly(s, ops[..k], over);
    UnseenExactly(Fold(s, ops[..k]), ops[k..], over);
    assert ops == ops[..k] + ops[k..];
    FoldConcat(s, ops[..k], ops[k..]);
  }

  /** The table the backup stores with the next transaction's commit: the part of the failed commit that reached it
      lies under that transaction's writes. It is a fold of whole write sets, with the failed transaction or without
      it, exactly when those later writes and the values on record hide the part that arrived, or the part missing. */
  lemma StoredAfterFailOver(p: Node, b: Node, i: nat, recs: seq<LogRec>, k: nat, nets: nat -> Net,
                            next: Txn, connect: nat -> bool, bNets: nat -> Net)
    requires Steady(p, i, nets) && Lockstep(p, b) && k <= |recs| && PeerRun(p, b, i, recs[..k], nets).1 == Serving
    requires next.id !in b.txnLog && Vote(Survivor(p, b, i, recs, k, nets).record, next.readSet)
    ensures var (ops, over) := (RecOps(recs), OrderOps(ValidPrefix(next.writeSet)));
            var stored := Committed(Prepared(Survivor(p, b, i, recs, k, nets), next, connect), next.id, bNets).record;
            && stored == Fold(Fold(p.record, ops[..k]), over)
            && (stored == Fold(p.record, over) <==> Unseen(p.record, ops[..k], over))
            && (stored == Fold(Fold(p.record, ops), over) <==> Unseen(Fold(p.record, ops[..k]), ops[k..], over))
  {
    SurvivorIs(p, b, i, recs, k, nets);
    var r := Survivor(p, b, i, recs, k, nets);
    var (ops, over) := (RecOps(recs), OrderOps(ValidPrefix(next.writeSet)));
    assert RecOps(recs[..k]) == ops[..k];
    hide *;
    assert r.Valid() && r.Gap() == 0 && next.id !in r.txnLog;
    CommitAppliesWrites(r, next, connect, bNets);
    UnseenParts(p.record, ops, k, over);
  }

  /** Two booted nodes after the primary's first order. */
  lemma FirstOrderServed(net: Net, nets: nat -> Net)
    requires net.onPromotion(0) && net.acked(0) && forall k: nat :: nets(k).acked(0)
    ensures var (p, b) := (Booted(map[], map[], 0, 1), Booted(map[], map[], 1, 1));
            var (q, (c, end)) := (Admin(p, 1, 1, net), IfaRun(b, Sent(p, OpOf(1, 1), 0, net)));
            end == Serving && Steady(q, 0, nets) && Lockstep(q, c) && q.record == map[1 := 1] && c.txnLog == map[]
  {
    var (p, b) := (Booted(map[], map[], 0, 1), Booted(map[], map[], 1, 1));
    LockstepStep(p, b, 0, 1, 1, net);
    IfaRunKeepsTxnLog(b, Sent(p, OpOf(1, 1), 0, net));
  }

  lemma HalfIsStored()
    ensures var ops := RecOps([PrepareRec(1, Order(7, 1, 1)), PrepareRec(1, Order(8, 1, 1))]);
            var over := OrderOps(ValidPrefix([Order(9, 1, 1)]));
            Fold(Fold(map[1 := 1], ops[..1]), over) == map[1 := 1, 7 := 1, 9 := 1]
  {
    OneValidOrder(Order(9, 1, 1));
    assert RecOps([PrepareRec(1, Order(7, 1, 1)), PrepareRec(1, Order(8, 1, 1))])[..1] == [OpOf(7, 1)];
    assert OrderOps([Order(9, 1, 1)]) == [OpOf(9, 1)];
    FoldOne(map[1 := 1], OpOf(7, 1));
    FoldOne(map[1 := 1, 7 := 1], OpOf(9, 1));
  }

  /** A concrete run from two booted nodes: an order of customer 1, then a commit of orders of customers 7 and 8 whose
      primary fails after the first, then a transaction with an order of customer 9 at the backup. The table stored
      and recovered there has the order of 7 and not that of 8. */
  lemma HalfATransactionStored(net: Net, nets: nat -> Net, connect: nat -> bool, bNets: nat -> Net)
    requires net.onPromotion(0) && net.acked(0) && forall k: nat :: nets(k).acked(0)
    ensures var (p, b) := (Booted(map[], map[], 0, 1), Booted(map[], map[], 1, 1));
            var (q, (c, end)) := (Admin(p, 1, 1, net), IfaRun(b, Sent(p, OpOf(1, 1), 0, net)));
            var recs := [PrepareRec(1, Order(7, 1, 1)), PrepareRec(1, Order(8, 1, 1))];
            var next := Txn(2, [], [Order(9, 1, 1)]);
            && end == Serving && PeerRun(q, c, 0, recs[..1], nets).1 == Serving
            && var stored := Committed(Prepared(Survivor(q, c, 0, recs, 1, nets), next, connect), 2, bNets).record;
               ParseStore(PrintStore(stored)) == stored == map[1 := 1, 7 := 1, 9 := 1]
  {
    var (p, b) := (Booted(map[], map[], 0, 1), Booted(map[], map[], 1, 1));
    var recs := [PrepareRec(1, Order(7, 1, 1)), PrepareRec(1, Order(8, 1, 1))];
    var next := Txn(2, [], [Order(9, 1, 1)]);
    FirstOrderServed(net, nets);
    var (q, c) := (Admin(p, 1, 1, net), IfaRun(b, Sent(p, OpOf(1, 1), 0, net)).0);
    hide Committed, Prepared, Survivor, PeerRun, Admin, IfaRun, Sent, PrintStore, ParseStore, ValidPrefix, Fold, RecOps,
      OrderOps, Steady;
    SurvivorIs(q, c, 0, recs, 1, nets);
    StoredAfterFailOver(q, c, 0, recs, 1, nets, next, connect, bNets);
    HalfIsStored();
    StoreRoundTrip(Committed(Prepared(Survivor(q, c, 0, recs, 1, nets), next, connect), 2, bNets).record);
  }

  // ---- A whole run in lockstep, and the backup taking over after it ----

  /** What a transaction comes to at the primary: committed; aborted, asked before or not; prepared without a decision;
      or not reached at all. */
  datatype Fate = Commits | Aborts(asked: bool) | Undecided | Unreached

  datatype Served = Served(txn: Txn, fate: Fate, copied: bool, connect: nat -> bool, nets: nat -> Net)

  /** The primary's side of the connection: it leads, without a gap, and counts peer `i` as live. */
  predicate Leads(p: Node, i: nat) {
    p.Valid() && p.Gap() == 0 && p.primary == p.factory && p.factory != -1 && i < |p.live| && p.live[i]
  }

  function Copied(b: Node, s: Served): (r: Node)
    requires b.Valid()
    ensures r.Valid()
  {
    if s.copied then b.(txnLog := InsertPrepared(b.txnLog, s.txn)) else b
  }

  /** One transaction at the primary; what its commit puts on the connection is acknowledged, and delivered to the
      backup, which is in the flow of its primary. */
  ghost predicate PairStep(p: Node, b: Node, i: nat, s: Served, p': Node, b': Node) {
    p.Valid() && b.Valid()
    && var (q, c) := (Prepared(p, s.txn, s.connect), Copied(b, s));
       match s.fate
       case Commits =>
         && Vote(p.record, s.txn.readSet) && (forall k: nat :: s.nets(k).acked(i))
         && p' == Committed(q, s.txn.id, s.nets) && i < |q.wire| && i < |p'.wire| && q.wire[i] <= p'.wire[i]
         && b' == Receive(Peer(c, Replicating), New(q.wire[i], p'.wire[i])).node
       case Aborts(asked) => p' == Aborted(if asked then q else p, s.txn.id) && b' == c
       case Undecided => p' == q && b' == c
       case Unreached => p' == p && b' == b
  }

  /** A node that stands where the serial run stands, with only ids below `next`. */
  predicate InStep(n: Node, serial: Store, next: Int32) {
    n.Valid() && n.Gap() == 0 && n.record == serial && LogBelow(n.txnLog, next)
  }

  function After(serial: Store, s: Served): Store {
    if s.fate.Commits? then Fold(serial, OrderOps(ValidPrefix(s.txn.writeSet))) else serial
  }

  lemma BelowLater(d: TxnLog, a: Int32, b: Int32)
    requires LogBelow(d, a) && a <= b
    ensures LogBelow(d, b)
  {
  }

  lemma InsertKeepsBelow(d: TxnLog, txn: Txn, next: Int32)
    requires LogBelow(d, txn.id) && txn.id < next
    ensures LogBelow(InsertPrepared(d, txn), next) && LogBelow(d, next)
  {
  }

  lemma CommitInLockstep(p: Node, b: Node, i: nat, s: Served, serial: Store)
    requires Leads(p, i) && Lockstep(p, b) && InStep(p, serial, s.txn.id) && s.txn.id < 0x7fff_ffff
    requires Vote(p.record, s.txn.readSet) && forall k: nat :: s.nets(k).acked(i)
    ensures var (q, c) := (Prepared(p, s.txn, s.connect), Copied(b, s));
            var p' := Committed(q, s.txn.id, s.nets);
            && i < |q.wire| && i < |p'.wire| && q.wire[i] <= p'.wire[i]
            && var r := Receive(Peer(c, Replicating), New(q.wire[i], p'.wire[i]));
               && r.mode == Replicating && Leads(p', i) && Lockstep(p', r.node)
               && InStep(p', After(serial, s.(fate := Commits)), s.txn.id + 1) && r.node.txnLog == c.txnLog
  {
    var (q, c) := (Prepared(p, s.txn, s.connect), Copied(b, s));
    var recs := Entry(q.txnLog, s.txn.id);
    assert Steady(q, i, s.nets) && Lockstep(q, c);
    PrepareKeepsLogBelow(p, s.txn, s.connect, s.txn.id + 1);
    CommitKeepsLogBelow(q, s.txn.id, s.nets, s.txn.id + 1);
    CommitAppliesWrites(p, s.txn, s.connect, s.nets);
    hide Prepared, Copied, Fold, ValidPrefix, OrderOps, Vote, LogBelow, PeerRun, AdminRun, Receive;
    LockstepRun(q, c, i, recs, s.nets);
    WireIsPeerRun(q, c, i, recs, s.nets);
    SteadyRun(q, i, recs, s.nets);
    PeerRunKeepsTxnLog(q, c, i, recs, s.nets);
  }

  lemma PairStepServes(p: Node, b: Node, i: nat, s: Served, p': Node, b': Node, serial: Store)
    requires PairStep(p, b, i, s, p', b') && Leads(p, i) && Lockstep(p, b) && s.txn.id < 0x7fff_ffff
    requires InStep(p, serial, s.txn.id) && InStep(b, serial, s.txn.id)
    ensures Leads(p', i) && Lockstep(p', b')
    ensures InStep(p', After(serial, s), s.txn.id + 1) && InStep(b', After(serial, s), s.txn.id + 1)
  {
    if s.fate.Commits? {
      CommitInLockstep(p, b, i, s, serial);
      CopyServes(b, s);
      hide Leads, Lockstep, LogBelow, PeerRun, Prepared, Committed, Copied, After;
      assert p'.record == b'.record by {
        LockstepRecords(p', b');
      }
    } else {
      NoCommitServes(p, b, i, s, p', b', serial);
    }
  }

  lemma LockstepRecords(p: Node, b: Node)
    requires Lockstep(p, b)
    ensures p.record == b.record && b.Valid() && b.Gap() == 0
  {
  }

  lemma CopyServes(b: Node, s: Served)
    requires b.Valid() && LogBelow(b.txnLog, s.txn.id) && s.txn.id < 0x7fff_ffff
    ensures LogBelow(Copied(b, s).txnLog, s.txn.id + 1)
  {
    InsertKeepsBelow(b.txnLog, s.txn, s.txn.id + 1);
  }

  lemma NoCommitServes(p: Node, b: Node, i: nat, s: Served, p': Node, b': Node, serial: Store)
    requires PairStep(p, b, i, s, p', b') && Leads(p, i) && Lockstep(p, b) && s.txn.id < 0x7fff_ffff
    requires InStep(p, serial, s.txn.id) && InStep(b, serial, s.txn.id) && !s.fate.Commits?
    ensures Leads(p', i) && Lockstep(p', b')
    ensures InStep(p', serial, s.txn.id + 1) && InStep(b', serial, s.txn.id + 1)
  {
    var (q, next) := (Prepared(p, s.txn, s.connect), s.txn.id + 1);
    CopyServes(b, s);
    BelowLater(p.txnLog, s.txn.id, next);
    BelowLater(b.txnLog, s.txn.id, next);
    PrepareKeepsLogBelow(p, s.txn, s.connect, next);
    AbortKeepsLogBelow(p, s.txn.id, next);
    AbortKeepsLogBelow(q, s.txn.id, next);
    hide LogBelow, InsertPrepared, UpdateValue, Vote, Committed, PeerRun;
  }

  /** Primary and backup at the boundaries of a run of transactions, in the order of their ids. */
  ghost predicate PairRun(ps: seq<Node>, bs: seq<Node>, i: nat, run: seq<Served>) {
    && |ps| == |bs| == |run| + 1
    && (forall m | 0 <= m < |run| :: PairStep(ps[m], bs[m], i, run[m], ps[m + 1], bs[m + 1]))
    && (forall m | 0 <= m < |run| :: run[m].txn.id < 0x7fff_ffff)
    && (forall m, l | 0 <= m < l < |run| :: run[m].txn.id < run[l].txn.id)
  }

  function NextId(start: Int32, run: seq<Served>): int {
    if run == [] then start else run[|run| - 1].txn.id + 1
  }

  function Txns(run: seq<Served>): (txns: seq<Txn>)
    ensures |txns| == |run|
  {
    seq(|run|, m requires 0 <= m < |run| => run[m].txn)
  }

  function Oks(run: seq<Served>): (oks: seq<bool>)
    ensures |oks| == |run|
  {
    seq(|run|, m requires 0 <= m < |run| => run[m].fate.Commits?)
  }

  lemma AppliedOneMore(base: Store, run: seq<Served>)
    requires run != []
    ensures var n := |run| - 1;
            Applied(base, Txns(run), Oks(run)) == After(Applied(base, Txns(run[..n]), Oks(run[..n])), run[n])
  {
    var n := |run| - 1;
    assert Txns(run)[..n] == Txns(run[..n]) && Oks(run)[..n] == Oks(run[..n]);
  }

  /** While the primary leads and its messages arrive, any run of transactions keeps the two in lockstep with each
      other and with the serial effect of those committed. */
  lemma {:induction false} PairServes(ps: seq<Node>, bs: seq<Node>, i: nat, run: seq<Served>, start: Int32)
    requires PairRun(ps, bs, i, run) && Leads(ps[0], i) && Lockstep(ps[0], bs[0])
    requires LogBelow(ps[0].txnLog, start) && LogBelow(bs[0].txnLog, start)
    requires run != [] ==> start <= run[0].txn.id
    ensures var (n, serial) := (|run|, Applied(ps[0].record, Txns(run), Oks(run)));
            && Leads(ps[n], i) && Lockstep(ps[n], bs[n])
            && InStep(ps[n], serial, NextId(start, run)) && InStep(bs[n], serial, NextId(start, run))
  {
    var n := |run| - 1;
    if n >= 0 {
      hide PairStep, Leads, Lockstep, LogBelow, Applied, After;
      PairServes(ps[..n + 1], bs[..n + 1], i, run[..n], start);
      AppliedOneMore(ps[0].record, run);
      var serial := Applied(ps[0].record, Txns(run[..n]), Oks(run[..n]));
      BelowLater(ps[n].txnLog, NextId(start, run[..n]), run[n].txn.id);
      BelowLater(bs[n].txnLog, NextId(start, run[..n]), run[n].txn.id);
      PairStepServes(ps[n], bs[n], i, run[n], ps[n + 1], bs[n + 1], serial);
    }
  }

  /** The backup after the primary's connection closed. */
  function Orphaned(b: Node): (r: Node)
    requires b.Valid()
    ensures r.Valid()
  {
    IfaStep(b, RepReq(-1, -1, -1, OpOf(0, 0))).0
  }

  /** After such a run the backup takes over with what the serial run leaves: its votes are those of the primary, and
      its first commit continues the run. */
  lemma BackupTakesOver(ps: seq<Node>, bs: seq<Node>, i: nat, run: seq<Served>, start: Int32,
                        next: Txn, connect: nat -> bool, nets: nat -> Net)
    requires PairRun(ps, bs, i, run) && Leads(ps[0], i) && Lockstep(ps[0], bs[0])
    requires LogBelow(ps[0].txnLog, start) && LogBelow(bs[0].txnLog, start)
    requires (run != [] ==> start <= run[0].txn.id) && NextId(start, run) <= next.id
    ensures bs[|run|].Valid()
    ensures var (r, serial) := (Orphaned(bs[|run|]), Applied(ps[0].record, Txns(run), Oks(run)));
            && InStep(r, serial, next.id)
            && (Vote(r.record, next.readSet) <==> Vote(ps[|run|].record, next.readSet))
            && (Vote(serial, next.readSet) ==>
                  Committed(Prepared(r, next, connect), next.id, nets).record
                  == Applied(ps[0].record, Txns(run) + [next], Oks(run) + [true]))
  {
    PairServes(ps, bs, i, run, start);
    var (r, serial) := (Orphaned(bs[|run|]), Applied(ps[0].record, Txns(run), Oks(run)));
    BelowLater(r.txnLog, NextId(start, run), next.id);
    hide PairRun, Leads, Fold, ValidPrefix, OrderOps;
    if Vote(serial, next.readSet) {
      CommitAppliesWrites(r, next, connect, nets);
      assert (Txns(run) + [next])[..|run|] == Txns(run) && (Oks(run) + [true])[..|run|] == Oks(run);
    }
  }

  /** The manager's next transaction over any mixture of primaries and backups that have taken over: it goes through
      exactly when it agrees with the serial run, and then every node continues it. */
  lemma MixedNodesServe(base: Store, txns: seq<Txn>, oks: seq<bool>, was: seq<Node>, mid: seq<Node>, vs: seq<Node>,
                        next: Txn, env: Env, asked: nat, ok: bool)
    requires |txns| == |oks| && was != [] && next.id < 0x7fff_ffff
    requires forall k | 0 <= k < |was| :: InStep(was[k], Applied(base, txns, oks), next.id)
    requires LoopsEnd(was, mid, vs, next, env, asked, ok) && forall k: nat :: env.link(k) == Works
    ensures ok <==> Vote(Applied(base, txns, oks), next.readSet)
    ensures |vs| == |was|
    ensures forall k | 0 <= k < |vs| :: InStep(vs[k], Applied(base, txns + [next], oks + [ok]), next.id + 1)
  {
    var serial := Applied(base, txns, oks);
    assert (txns + [next])[..|txns|] == txns && (oks + [ok])[..|oks|] == oks;
    assert Applied(base, txns + [next], oks + [ok])
           == if ok then Fold(serial, OrderOps(ValidPrefix(next.writeSet))) else serial;
    hide Applied, Fold, ValidPrefix, OrderOps, Vote, LoopsEnd, LogBelow;
    LoopsOutcome(was, mid, vs, next, env, asked, ok);
    assert SaysNo(was[0], next.readSet, env.link(0)) <==> !Vote(serial, next.readSet);
    forall k | 0 <= k < |was|
      ensures SaysNo(was[k], next.readSet, env.link(k)) <==> !Vote(serial, next.readSet)
    {
      assert was[k].record == serial;
    }
    hide SaysNo;
    forall k | 0 <= k < |vs|
      ensures InStep(vs[k], Applied(base, txns + [next], oks + [ok]), next.id + 1)
    {
      assert InStep(was[k], serial, next.id);
      assert OneOutcome(was[k], vs[k], next.writeSet, ok && env.link(k) == Works);
    }
  }
}
