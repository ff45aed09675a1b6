/** Whole runs of a two-node cluster: requests, lost messages, restarts, catch-ups and fail-overs. */
module ClusterRun {
  import opened Records
  import opened ResourceManager
  import opened Replication

  /** `usable`: the connection still carries messages to the backup. `streams`: catch-ups begun at the backup
      since it booted. `pending`: what that count was when the present primary took over, until its promotion. */
  datatype Cluster = Cluster(p: Node, b: Node, usable: bool, streams: nat, pending: nat)

  /** `Ask`: the primary is asked to prepare; after a yes it tries to connect to its peer for the copy, which may
      arrive. `delivered` is how many of a request's messages reach the backup. */
  datatype Event =
    | Ask(txn: Txn, connects: bool, arrives: bool)
    | Write(cid: Int32, num: Int32, net: Net, delivered: nat)
    | BackupRestart(record: Store, txnLog: TxnLog)
    | FailOver(record: Store, txnLog: TxnLog)

  function Start(pRecord: Store, bRecord: Store, pLog: TxnLog, bLog: TxnLog, pId: Int32, bId: Int32): Cluster {
    Cluster(Booted(pRecord, pLog, pId, 1), Booted(bRecord, bLog, bId, 1), false, 0, 0)
  }

  /** The environment's rules: connecting succeeds only without an open connection; a broken connection, or one that
      was opened for a copied prepare, delivers and acknowledges no request; an acknowledged request was delivered. */
  predicate Possible(c: Cluster, e: Event)
    requires Safe(c)
  {
    match e
    case Ask(_, connects, arrives) => (connects ==> !c.usable) && (arrives ==> connects)
    case Write(cid, num, net, delivered) =>
      var sent := Sent(c.p, OpOf(cid, num), 0, net);
      && delivered <= |sent|
      && (c.p.live[0] && !c.usable && !(c.p.primary != c.p.factory && net.onPromotion(0)) ==> delivered == 0 && !net.acked(0))
      && (Led(c.p, net).live[0] && net.acked(0) ==> delivered == |sent|)
    case BackupRestart(_, _) => true
    case FailOver(_, _) => true
  }

  /** A node promotes itself onto a peer that answers its greeting but holds a shorter log, and the first request
      reaches that peer. */
  predicate Overruns(c: Cluster, e: Event) {
    e.Write? && c.p.primary != c.p.factory && |c.p.live| > 0 && e.net.onPromotion(0) && |c.b.smr| < |c.p.smr|
    && e.delivered > 0
  }

  function Step(c: Cluster, e: Event): (r: (Cluster, IfaEnd))
    requires Safe(c) && Possible(c, e)
  {
    match e
    case Ask(txn, connects, arrives) =>
      (Cluster(Prepared(c.p, txn, _ => connects),
               if Vote(c.p.record, txn.readSet) && arrives then c.b.(txnLog := InsertPrepared(c.b.txnLog, txn)) else c.b,
               c.usable, c.streams, c.pending), Serving)
    case Write(cid, num, net, delivered) =>
      var sent := Sent(c.p, OpOf(cid, num), 0, net);
      var (b, end) := IfaRun(c.b, sent[..delivered]);
      var steady := Led(c.p, net).live[0];
      var usable := if steady then net.acked(0) else net.reconnect(0) && delivered == |sent|;
      var streams := if !steady && delivered > 0 then c.streams + 1 else c.streams;
      (Cluster(Admin(c.p, cid, num, net), b, usable, streams, 0), end)
    case BackupRestart(record, txnLog) =>
      (Cluster(c.p, Booted(record, txnLog, c.b.factory, 1), false, 0, c.pending), Serving)
    case FailOver(record, txnLog) =>
      (Cluster(IfaStep(c.b, RepReq(-1, -1, -1, OpOf(0, 0))).0, Booted(record, txnLog, c.p.factory, 1), false, 0, c.streams), Serving)
  }

  /** Every index is in range, and a node's gap is the number of catch-ups begun since it last led. */
  predicate Safe(c: Cluster) {
    && c.p.Valid() && c.b.Valid() && |c.p.live| == 1 && c.b.live == [false]
    && c.p.factory != -1 && c.b.factory != -1 && c.p.factory != c.b.factory
    && c.b.primary != c.b.factory
    && c.p.Gap() == c.pending && (c.p.primary == c.p.factory ==> c.pending == 0)
    && (c.p.primary != c.p.factory ==> !c.usable)
    && c.b.Gap() == c.streams
    && (c.usable ==> |c.b.smr| >= |c.p.smr|)
  }

  lemma WriteSteady(c: Cluster, e: Event)
    requires Safe(c) && Possible(c, e) && e.Write? && Led(c.p, e.net).live[0]
    ensures var (d, end) := Step(c, e);
            && (end == OutOfRange <==> Overruns(c, e))
            && (end != OutOfRange ==> end == Serving && Safe(d))
  {
    var op := OpOf(e.cid, e.num);
    SteadySent(c.p, op, 0, e.net);
    SteadyFits(c.p, c.b, 0, op, e.net);
    var sent := Sent(c.p, op, 0, e.net);
    if e.delivered == 0 {
      assert sent[..0] == [];
    } else {
      assert sent[..1] == sent;
    }
  }

  lemma WriteApart(c: Cluster, e: Event)
    requires Safe(c) && Possible(c, e) && e.Write? && !Led(c.p, e.net).live[0]
    ensures var (d, end) := Step(c, e); end == Serving && Safe(d)
  {
    var op := OpOf(e.cid, e.num);
    if e.net.reconnect(0) {
      CatchUpSent(c.p, op, 0, e.net);
      StreamShape(c.b, c.p.factory, c.p.smr + [op], e.delivered);
    } else {
      assert Sent(c.p, op, 0, e.net) == [];
    }
  }

  /** An index is out of range at the backup exactly when a promotion overruns it; every other step stays safe, and
      after a request the primary has no gap. */
  lemma StepSafe(c: Cluster, e: Event)
    requires Safe(c) && Possible(c, e)
    ensures Step(c, e).1 == OutOfRange <==> Overruns(c, e)
    ensures !Overruns(c, e) ==> Step(c, e).1 == Serving && Safe(Step(c, e).0)
    ensures e.Write? ==> Step(c, e).0.p.Gap() == 0
  {
    if e.Write? {
      if Led(c.p, e.net).live[0] {
        WriteSteady(c, e);
      } else {
        WriteApart(c, e);
      }
    }
  }

  /** What the copy of a prepare costs: it marks the peer live on a connection that carries no requests, so unless the
      primary promotes itself over a new one, the next request reaches nobody and marks the peer dead again; only the
      one after it can find it, by catch-up. */
  lemma CopyCostsARequest(c: Cluster, ask: Event, write: Event)
    requires Safe(c) && Possible(c, ask) && ask.Ask? && ask.connects && Vote(c.p.record, ask.txn.readSet)
    requires Safe(Step(c, ask).0) && Possible(Step(c, ask).0, write) && write.Write?
    requires c.p.primary == c.p.factory || !write.net.onPromotion(0)
    ensures var d := Step(c, ask).0;
            var (f, end) := Step(d, write);
            && d.p.live == [true] && !d.usable
            && end == Serving && f.b == d.b && f.p.live == [false] && !f.usable && f.p.Gap() == 0
  {
    var d := Step(c, ask).0;
    StepSafe(d, write);
    var sent := Sent(d.p, OpOf(write.cid, write.num), 0, write.net);
    assert sent[..0] == [];
  }

  /** `Died`: the backup's process ended with an uncaught exception. */
  datatype Outcome = Ended(c: Cluster) | Died(before: Cluster, event: Event) | Unsafe | Impossible

  /** Follows the events until they end, until one the environment cannot produce, or until something goes wrong. */
  function Trace(c: Cluster, events: seq<Event>): Outcome
    decreases |events|
  {
    if !Safe(c) then Unsafe
    else if events == [] then Ended(c)
    else if !Possible(c, events[0]) then Impossible
    else
      var (d, end) := Step(c, events[0]);
      if end == OutOfRange then Died(c, events[0]) else Trace(d, events[1..])
  }

  /** Over every run: indices describe the logs, gaps count catch-ups, whoever has promoted itself has no gap left,
      and the one way to an index out of range is a promotion that overruns a peer with a shorter log. */
  lemma {:induction false} RunsAreSafe(start: Cluster, events: seq<Event>)
    requires Safe(start)
    ensures var end := Trace(start, events);
            && end != Unsafe
            && (end.Ended? ==> Safe(end.c))
            && (end.Died? ==> Safe(end.before) && Overruns(end.before, end.event))
    decreases |events|
  {
    hide Safe, Overruns, Possible, Step;
    if events != [] && Possible(start, events[0]) {
      StepSafe(start, events[0]);
      if !Overruns(start, events[0]) {
        RunsAreSafe(Step(start, events[0]).0, events[1..]);
      }
    }
  }

  lemma StartIsSafe(pRecord: Store, bRecord: Store, pLog: TxnLog, bLog: TxnLog, pId: Int32, bId: Int32)
    requires pId != -1 && bId != -1 && pId != bId
    ensures Safe(Start(pRecord, bRecord, pLog, bLog, pId, bId))
  {
  }

  /** Such a run: the backup catches up, its primary fails and restarts, and the backup's first request as primary
      ends the restarted node, because promotion greets that node without a catch-up. */
  lemma PromotionOverruns(first: Net, second: Net)
    requires !first.onPromotion(0) && first.reconnect(0) && second.onPromotion(0)
    ensures Trace(Start(map[], map[], map[], map[], 0, 1),
                  [Write(7, 1, first, 1), FailOver(map[], map[]), Write(8, 1, second, 1)]).Died?
  {
    var c := Start(map[], map[], map[], map[], 0, 1);
    var (e, f, g) := (Write(7, 1, first, 1), FailOver(map[], map[]), Write(8, 1, second, 1));
    var op := OpOf(7, 1);
    CatchUpSent(c.p, op, 0, first);
    StepSafe(c, e);
    StreamShape(c.b, 0, [] + [op], 1);
    var d := Step(c, e).0;
    assert |d.b.smr| == 1;
    StepSafe(d, f);
    var after := Step(d, f).0;
    SteadySent(after.p, OpOf(8, 1), 0, second);
    StepSafe(after, g);
    hide Step, Safe, Possible, Start;
    TraceStep(c, e, [f, g]);
    TraceStep(d, f, [g]);
    assert [e] + [f, g] == [e, f, g] && [f] + [g] == [f, g];
  }

  lemma TraceStep(c: Cluster, e: Event, rest: seq<Event>)
    requires Safe(c) && Possible(c, e) && !Overruns(c, e)
    ensures Trace(c, [e] + rest) == Trace(Step(c, e).0, rest)
  {
    StepSafe(c, e);
    assert ([e] + rest)[1..] == rest;
  }
}
