/** Primary and backup: steady replication, whole-log catch-up, promotion, and what each leaves behind. */
module Replication {
  import opened Records
  import opened ResourceManager

  /** The replication requests among the messages of a connection. */
  function Reqs(ms: seq<Msg>): (rs: seq<RepReq>) {
    if ms == [] then []
    else Reqs(ms[..|ms| - 1]) + if ms[|ms| - 1].Replicate? then [ms[|ms| - 1].req] else []
  }

  /** What the primary sends to peer `i` for one request, and the node it sends it from. */
  function Sender(p: Node, op: MapOp, net: Net): (q: Node)
    requires p.Valid()
    ensures q.Valid()
  {
    Append(Led(p, net), op)
  }

  function Sent(p: Node, op: MapOp, i: nat, net: Net): seq<RepReq>
    requires p.Valid() && i < |p.live|
  {
    Reqs(PeerTraffic(Sender(p, op, net), op, i, net))
  }

  /** Peer `i` after everything the primary sends it while serving `recs`. */
  function PeerRun(p: Node, b: Node, i: nat, recs: seq<LogRec>, nets: nat -> Net): (r: (Node, IfaEnd))
    requires p.Valid() && b.Valid()
    ensures r.1 != OutOfRange ==> r.0.Valid()
  {
    if recs == [] then (b, Serving) else
      var k := |recs| - 1;
      var (m, end) := PeerRun(p, b, i, recs[..k], nets);
      var q := AdminRun(p, recs[..k], nets);
      if end == Serving && i < |q.live| then IfaRun(m, Sent(q, OpOf(recs[k].cid, recs[k].num), i, nets(k))) else (m, end)
  }

  /** A primary whose peer `i` is connected and answers every message. */
  ghost predicate Steady(p: Node, i: nat, nets: nat -> Net) {
    p.Valid() && p.Gap() == 0 && p.primary == p.factory && p.factory != -1 && i < |p.live| && p.live[i]
    && forall k: nat :: nets(k).acked(i)
  }

  lemma ReqsOfOne(m: Msg)
    requires m.Replicate?
    ensures Reqs([m]) == [m.req]
  {
    assert [m][..0] == [];
  }

  /** One message to a connected peer. */
  lemma SteadySent(p: Node, op: MapOp, i: nat, net: Net)
    requires p.Valid() && i < |p.live| && Led(p, net).live[i]
    ensures var q := Sender(p, op, net); Sent(p, op, i, net) == [RepReq(p.factory, q.committed, q.last, op)]
  {
    var q := Sender(p, op, net);
    ReqsOfOne(Replicate(RepReq(q.factory, q.committed, q.last, op)));
  }

  lemma OneRequest(b: Node, req: RepReq)
    requires b.Valid()
    ensures IfaRun(b, [req]) == IfaStep(b, req)
  {
    assert [req][..0] == [];
  }

  // ---- Lockstep ----

  predicate Lockstep(p: Node, b: Node) {
    p.Valid() && b.Valid() && p.smr == b.smr && p.record == b.record && p.Gap() == 0 && b.Gap() == 0
  }

  /** One replicated request keeps primary and backup equal, and the backup's commit mark is on it. */
  lemma LockstepStep(p: Node, b: Node, i: nat, cid: Int32, num: Int32, net: Net)
    requires Lockstep(p, b) && p.factory != -1 && i < |p.live| && Led(p, net).live[i]
    ensures var (c, end) := IfaRun(b, Sent(p, OpOf(cid, num), i, net));
            var q := Admin(p, cid, num, net);
            && end == Serving && Lockstep(q, c)
            && c.last == q.last && c.committed == q.committed && c.smr[c.committed] == OpOf(cid, num)
  {
    SteadySent(p, OpOf(cid, num), i, net);
    var q := Sender(p, OpOf(cid, num), net);
    OneRequest(b, RepReq(p.factory, q.committed, q.last, OpOf(cid, num)));
  }

  /** A steady request at a backup in any state: the index it announces fits exactly when the backup's log is not
      shorter than the primary's was, and what else changes does not depend on the contents. */
  lemma SteadyFits(p: Node, b: Node, i: nat, op: MapOp, net: Net)
    requires p.Valid() && b.Valid() && p.factory != -1 && i < |p.live| && Led(p, net).live[i] && Led(p, net).Gap() == 0
    ensures var (c, end) := IfaRun(b, Sent(p, op, i, net));
            && (end == OutOfRange <==> |b.smr| < |p.smr|)
            && (end != OutOfRange ==>
                  end == Serving
                  && c == b.(primary := p.factory, smr := b.smr + [op], last := b.last + 1, committed := b.committed + 1,
                             record := Apply(b.record, (b.smr + [op])[|p.smr|])))
  {
    SteadySent(p, op, i, net);
    var q := Sender(p, op, net);
    OneRequest(b, RepReq(p.factory, q.committed, q.last, op));
  }

  lemma SteadyStep(p: Node, i: nat, cid: Int32, num: Int32, nets: nat -> Net, k: nat)
    requires Steady(p, i, nets)
    ensures Steady(Admin(p, cid, num, nets(k)), i, nets)
    ensures p.factory != -1 && i < |p.live| && Led(p, nets(k)).live[i]
  {
  }

  lemma {:induction false} SteadyRun(p: Node, i: nat, recs: seq<LogRec>, nets: nat -> Net)
    requires Steady(p, i, nets)
    ensures Steady(AdminRun(p, recs, nets), i, nets)
  {
    if recs != [] {
      var k := |recs| - 1;
      SteadyRun(p, i, recs[..k], nets);
      SteadyStep(AdminRun(p, recs[..k], nets), i, recs[k].cid, recs[k].num, nets, k);
    }
  }

  lemma PeerRunStep(p: Node, b: Node, i: nat, recs: seq<LogRec>, nets: nat -> Net)
    requires p.Valid() && b.Valid() && recs != []
    ensures var k := |recs| - 1;
            var (m, end) := PeerRun(p, b, i, recs[..k], nets);
            var q := AdminRun(p, recs[..k], nets);
            && AdminRun(p, recs, nets) == Admin(q, recs[k].cid, recs[k].num, nets(k))
            && (end == Serving && i < |q.live| ==>
                  PeerRun(p, b, i, recs, nets) == IfaRun(m, Sent(q, OpOf(recs[k].cid, recs[k].num), i, nets(k))))
  {
    hide Admin, Sent, IfaRun;
  }

  /** Any number of replicated requests keeps primary and backup equal. */
  lemma {:induction false} LockstepRun(p: Node, b: Node, i: nat, recs: seq<LogRec>, nets: nat -> Net)
    requires Steady(p, i, nets) && Lockstep(p, b)
    ensures var (c, end) := PeerRun(p, b, i, recs, nets);
            end == Serving && Lockstep(AdminRun(p, recs, nets), c)
  {
    if recs != [] {
      var k := |recs| - 1;
      LockstepRun(p, b, i, recs[..k], nets);
      SteadyRun(p, i, recs[..k], nets);
      PeerRunStep(p, b, i, recs, nets);
      var q := AdminRun(p, recs[..k], nets);
      SteadyStep(q, i, recs[k].cid, recs[k].num, nets, k);
      LockstepStep(q, PeerRun(p, b, i, recs[..k], nets).0, i, recs[k].cid, recs[k].num, nets(k));
    }
  }

  // ---- Catch-up ----

  /** The catch-up stream of a log. */
  function Stream(factory: Int32, log: seq<MapOp>): (rs: seq<RepReq>)
    ensures |rs| == |log|
  {
    seq(|log|, i requires 0 <= i < |log| => RepReq(factory, i - 1, i, log[i]))
  }

  lemma {:induction false} ReqsOfStream(factory: Int32, log: seq<MapOp>, head: seq<Msg>)
    requires head == [] || head == [Ident("PFA")]
    ensures Reqs(head + AllRequests(factory, log)) == Stream(factory, log)
  {
    if log == [] {
      assert head + AllRequests(factory, log) == head;
      if head != [] {
        assert head[..0] == [];
      }
    } else {
      var n := |log| - 1;
      var ms := head + AllRequests(factory, log);
      assert ms[..|ms| - 1] == head + AllRequests(factory, log[..n]);
      ReqsOfStream(factory, log[..n], head);
      assert Stream(factory, log) == Stream(factory, log[..n]) + [RepReq(factory, n - 1, n, log[n])];
    }
  }

  /** Catch-up sends the whole log, the newest entry included. */
  lemma CatchUpSent(p: Node, op: MapOp, i: nat, net: Net)
    requires p.Valid() && i < |p.live| && !Led(p, net).live[i] && net.reconnect(i)
    ensures Sent(p, op, i, net) == Stream(p.factory, p.smr + [op])
  {
    ReqsOfStream(p.factory, p.smr + [op], [Ident("PFA")]);
  }

  function Behind(k: nat): nat {
    if k == 0 then 0 else k - 1
  }

  lemma StreamStep(c: Node, factory: Int32, log: seq<MapOp>, k: nat)
    requires c.Valid() && factory != -1 && k < |log| && (k > 0 ==> k <= |c.smr|)
    ensures var (d, end) := IfaStep(c, Stream(factory, log)[k]);
            && end == Serving
            && d == c.(primary := factory, smr := c.smr + [log[k]], last := c.last + 1,
                       committed := c.committed + if k == 0 then 0 else 1,
                       record := if k == 0 then c.record else Apply(c.record, (c.smr + [log[k]])[k - 1]))
  {
  }

  /** The first `k` messages of a catch-up, on a backup in any state: no index is ever out of range, the log
      grows by `k` entries and all but one of them count as committed. */
  lemma {:induction false} StreamShape(b: Node, factory: Int32, log: seq<MapOp>, k: nat)
    requires b.Valid() && factory != -1 && k <= |log|
    ensures var (c, end) := IfaRun(b, Stream(factory, log)[..k]);
            && end == Serving
            && c == b.(primary := if k == 0 then b.primary else factory, smr := b.smr + log[..k], last := b.last + k,
                       committed := b.committed + Behind(k), record := c.record)
            && (b.smr == [] ==> c.record == Fold(b.record, log[..Behind(k)]))
  {
    var s := Stream(factory, log);
    if k == 0 {
      assert s[..0] == [] && b.smr + log[..0] == b.smr;
    } else {
      StreamShape(b, factory, log, k - 1);
      assert s[..k][..k - 1] == s[..k - 1];
      assert b.smr + log[..k - 1] + [log[k - 1]] == b.smr + log[..k];
      StreamStep(IfaRun(b, s[..k - 1]).0, factory, log, k - 1);
      if k > 1 && b.smr == [] {
        assert log[..k - 1][..k - 2] == log[..k - 2];
        assert (b.smr + log[..k])[k - 2] == log[k - 2];
      }
    }
  }

  /** A fresh backup after a whole catch-up: same log, and everything but the last entry applied. */
  lemma CatchUp(b: Node, factory: Int32, log: seq<MapOp>)
    requires b.Valid() && b.smr == [] && factory != -1 && log != []
    ensures IfaRun(b, Stream(factory, log))
            == (b.(primary := factory, smr := log, last := |log| - 1, committed := |log| - 2,
                   record := Fold(b.record, log[..|log| - 1])), Serving)
  {
    StreamShape(b, factory, log, |log|);
    assert Stream(factory, log)[..|log|] == Stream(factory, log);
    assert b.smr + log[..|log|] == log;
  }

  lemma PromoteAppliesLast(c: Node, connect: nat -> bool)
    requires c.Valid() && c.Gap() == 1
    ensures var r := Promote(c, connect);
            r.record == Apply(c.record, c.smr[c.last]) && r.smr == c.smr && r.Gap() == 0
  {
  }

  /** Promotion right after a catch-up restores the primary's state, also when the backup booted from a file
      that already held a proper prefix of the log. */
  lemma CatchUpThenPromote(b: Node, factory: Int32, log: seq<MapOp>, base: Store, k: nat, connect: nat -> bool)
    requires b.Valid() && b.smr == [] && factory != -1
    requires k < |log| && b.record == Fold(base, log[..k])
    ensures IfaRun(b, Stream(factory, log)).1 == Serving
    ensures var c := Promote(IfaRun(b, Stream(factory, log)).0, connect);
            c.record == Fold(base, log) && c.smr == log && c.Gap() == 0
  {
    CatchUp(b, factory, log);
    PromoteAppliesLast(IfaRun(b, Stream(factory, log)).0, connect);
    hide IfaRun, Stream, Promote;
    var pre := log[..|log| - 1];
    assert pre[..k] == log[..k];
    FoldAbsorbsPrefix(base, pre, k);
  }

  // ---- The hole a catch-up leaves ----

  /** Primary and backup share the log `pre + [op] + post`, but the backup never applied `op`. */
  predicate Holed(p: Node, b: Node, base: Store, pre: seq<MapOp>, op: MapOp, post: seq<MapOp>) {
    p.Valid() && b.Valid() && p.smr == b.smr == pre + [op] + post && p.Gap() == 0 && b.Gap() == 1
    && b.record == Fold(base, pre + post)
  }

  /** The request that finds a fresh peer again streams it the log and leaves exactly the hole of that request. */
  lemma CatchUpLeavesHole(p: Node, b: Node, i: nat, cid: Int32, num: Int32, net: Net)
    requires p.Valid() && p.Gap() == 0 && p.factory != -1 && i < |p.live| && !Led(p, net).live[i] && net.reconnect(i)
    requires b.Valid() && b.smr == []
    ensures var (c, end) := IfaRun(b, Sent(p, OpOf(cid, num), i, net));
            end == Serving && Holed(Admin(p, cid, num, net), c, b.record, p.smr, OpOf(cid, num), [])
  {
    var op := OpOf(cid, num);
    CatchUpSent(p, op, i, net);
    CatchUp(b, p.factory, p.smr + [op]);
    assert (p.smr + [op])[..|p.smr|] == p.smr == p.smr + [];
    assert p.smr + [op] + [] == p.smr + [op];
  }

  lemma HoleStays(p: Node, b: Node, i: nat, cid: Int32, num: Int32, net: Net,
                  base: Store, pre: seq<MapOp>, op: MapOp, post: seq<MapOp>)
    requires Holed(p, b, base, pre, op, post) && p.factory != -1 && i < |p.live| && Led(p, net).live[i]
    ensures var (c, end) := IfaRun(b, Sent(p, OpOf(cid, num), i, net));
            end == Serving && Holed(Admin(p, cid, num, net), c, base, pre, op, post + [OpOf(cid, num)])
  {
    var x := OpOf(cid, num);
    SteadySent(p, x, i, net);
    var q := Sender(p, x, net);
    OneRequest(b, RepReq(p.factory, q.committed, q.last, x));
    assert pre + [op] + post + [x] == pre + [op] + (post + [x]);
    assert (pre + (post + [x]))[..|pre + post|] == pre + post;
  }

  /** Steady requests after a catch-up never fill the hole: the backup is the log with that one entry left out. */
  lemma {:induction false} HoleRun(p: Node, b: Node, i: nat, recs: seq<LogRec>, nets: nat -> Net,
                                   base: Store, pre: seq<MapOp>, op: MapOp)
    requires Steady(p, i, nets) && Holed(p, b, base, pre, op, [])
    ensures var (c, end) := PeerRun(p, b, i, recs, nets);
            end == Serving && Holed(AdminRun(p, recs, nets), c, base, pre, op, RecOps(recs))
  {
    if recs == [] {
      assert RecOps(recs) == [];
    } else {
      hide Holed, Sent, IfaRun, Admin, PeerRun, AdminRun, Led;
      var k := |recs| - 1;
      HoleRun(p, b, i, recs[..k], nets, base, pre, op);
      SteadyRun(p, i, recs[..k], nets);
      PeerRunStep(p, b, i, recs, nets);
      RecOpsStep(recs);
      hide Steady, RecOps;
      var q := AdminRun(p, recs[..k], nets);
      SteadyStep(q, i, recs[k].cid, recs[k].num, nets, k);
      HoleStays(q, PeerRun(p, b, i, recs[..k], nets).0, i, recs[k].cid, recs[k].num, nets(k), base, pre, op, RecOps(recs[..k]));
    }
  }

  /** A fresh peer found again, then any number of further requests: the whole story from the first message. */
  lemma CatchUpThenRun(p: Node, b: Node, i: nat, cid: Int32, num: Int32, net: Net, recs: seq<LogRec>, nets: nat -> Net)
    requires p.Valid() && p.Gap() == 0 && p.factory != -1 && i < |p.live| && !Led(p, net).live[i] && net.reconnect(i)
    requires b.Valid() && b.smr == [] && forall k: nat :: nets(k).acked(i)
    ensures IfaRun(b, Sent(p, OpOf(cid, num), i, net)).1 == Serving
    ensures var (d, end) := PeerRun(Admin(p, cid, num, net), IfaRun(b, Sent(p, OpOf(cid, num), i, net)).0, i, recs, nets);
            end == Serving
            && Holed(AdminRun(Admin(p, cid, num, net), recs, nets), d, b.record, p.smr, OpOf(cid, num), RecOps(recs))
  {
    CatchUpLeavesHole(p, b, i, cid, num, net);
    hide Holed, Sent, IfaRun, PeerRun, AdminRun;
    assert Steady(Admin(p, cid, num, net), i, nets);
    HoleRun(Admin(p, cid, num, net), IfaRun(b, Sent(p, OpOf(cid, num), i, net)).0, i, recs, nets,
            b.record, p.smr, OpOf(cid, num));
  }

  /** Who can see the hole: only the customer of the missed entry, and only until it is written again. */
  lemma HoleIsLocal(p: Node, b: Node, base: Store, pre: seq<MapOp>, op: MapOp, post: seq<MapOp>, c: Int32)
    requires Holed(p, b, base, pre, op, post) && p.record == Fold(base, p.smr)
    requires c != op.arg1 || LastWrite(post, c).Some?
    ensures Lookup(b.record, c) == Lookup(p.record, c)
  {
    FoldDropOneElsewhere(base, pre, op, post, c);
  }

  /** Once a request followed the catch-up, promotion applies that request again and leaves the hole. */
  lemma PromotedKeepsHole(p: Node, b: Node, base: Store, pre: seq<MapOp>, op: MapOp, post: seq<MapOp>,
                          connect: nat -> bool)
    requires Holed(p, b, base, pre, op, post) && post != []
    ensures Promote(b, connect).record == Settle(b).record == b.record
  {
    var n := |post| - 1;
    assert b.smr[b.last] == post[n];
    assert (pre + post)[..|pre| + n] == pre + post[..n] && (pre + post)[|pre| + n] == post[n];
  }

  /** Whether promoting a holed backup gives the primary's records back: exactly when nothing followed the
      catch-up, or the missed customer was written again, or the missed write changed nothing. */
  lemma PromotedEqualsPrimary(p: Node, b: Node, base: Store, pre: seq<MapOp>, op: MapOp, post: seq<MapOp>,
                              connect: nat -> bool)
    requires Holed(p, b, base, pre, op, post) && p.record == Fold(base, p.smr)
    ensures Promote(b, connect).Gap() == 0
    ensures post != [] ==> Promote(b, connect).record == b.record
    ensures Promote(b, connect).record == p.record
            <==> post == [] || LastWrite(post, op.arg1).Some? || Lookup(Fold(base, pre), op.arg1) == Some(op.arg2)
  {
    FoldDropOne(base, pre, op, post);
    if post == [] {
      assert pre + post == pre && pre + [op] + post == pre + [op];
      assert (pre + [op])[..|pre|] == pre;
    } else {
      PromotedKeepsHole(p, b, base, pre, op, post, connect);
    }
  }

  lemma FirstRequest(net: Net)
    requires !net.onPromotion(0) && net.reconnect(0)
    ensures var p := Booted(map[], map[], 0, 1);
            var found := Admin(p, 7, 1, net);
            && !Led(p, net).live[0] && found.smr == [OpOf(7, 1)] && found.Gap() == 0 && 7 in found.record
            && found.primary == found.factory == 0 && |found.live| == 1 && found.live[0]
  {
    var p := Booted(map[], map[], 0, 1);
    var l := Led(p, net);
    assert l.smr == [] && l.Gap() == 0 && l.primary == l.factory == 0 && l.live == [false];
    hide Led, AllRequests;
    var a := Append(l, OpOf(7, 1));
    assert a.smr == [OpOf(7, 1)] && a.Gap() == 0 && 7 in a.record && a.live == [false];
    hide Append;
  }

  /** Two booted nodes, the primary serving an order of customer 7 that finds its peer and streams it the log. */
  lemma FirstFindsPeer(net: Net)
    requires !net.onPromotion(0) && net.reconnect(0)
    ensures var (p, b) := (Booted(map[], map[], 0, 1), Booted(map[], map[], 1, 1));
            var (found, (c, end)) := (Admin(p, 7, 1, net), IfaRun(b, Sent(p, OpOf(7, 1), 0, net)));
            && end == Serving && Holed(found, c, map[], [], OpOf(7, 1), [])
            && found.smr == [OpOf(7, 1)] && found.Gap() == 0 && 7 in found.record
            && found.primary == found.factory == 0 && |found.live| == 1 && found.live[0]
  {
    FirstRequest(net);
    hide Admin, Sent, IfaRun, Holed;
    CatchUpLeavesHole(Booted(map[], map[], 0, 1), Booted(map[], map[], 1, 1), 0, 7, 1, net);
  }

  /** The promoted backup of two orders of which the first fell into the hole. */
  lemma PromotedLacks(q: Node, d: Node, x: MapOp, y: MapOp, connect: nat -> bool)
    requires Holed(q, d, map[], [], x, [y]) && x.arg1 != y.arg1
    ensures d.smr == q.smr && x in d.smr && x.arg1 !in Promote(d, connect).record
  {
    assert d.smr == [] + [x] + [y] && d.smr[0] == x;
    PromotedKeepsHole(q, d, map[], [], x, [y], connect);
    assert [] + [y] == [y];
    LastWriteIsLast([y], x.arg1, -1);
    FoldLookup(map[], [y], x.arg1);
  }

  /** A concrete loss: after that an acknowledged order of customer 8. Both nodes have logged both orders, but promoting
      the backup gives a table without customer 7. */
  lemma HoleLosesAnOrder(net: Net, nets: nat -> Net, connect: nat -> bool)
    requires !net.onPromotion(0) && net.reconnect(0) && forall k: nat :: nets(k).acked(0)
    ensures var (p, b) := (Booted(map[], map[], 0, 1), Booted(map[], map[], 1, 1));
            IfaRun(b, Sent(p, OpOf(7, 1), 0, net)).1 == Serving
    ensures var (p, b) := (Booted(map[], map[], 0, 1), Booted(map[], map[], 1, 1));
            var found := Admin(p, 7, 1, net);
            var later := [PrepareRec(1, Order(8, 1, 1))];
            var q := AdminRun(found, later, nets);
            var (d, end) := PeerRun(found, IfaRun(b, Sent(p, OpOf(7, 1), 0, net)).0, 0, later, nets);
            && end == Serving && d.smr == q.smr && OpOf(7, 1) in d.smr
            && 7 in q.record && 7 !in Promote(d, connect).record
  {
    var (p, b) := (Booted(map[], map[], 0, 1), Booted(map[], map[], 1, 1));
    var later := [PrepareRec(1, Order(8, 1, 1))];
    FirstFindsPeer(net);
    var (found, c) := (Admin(p, 7, 1, net), IfaRun(b, Sent(p, OpOf(7, 1), 0, net)).0);
    assert Steady(found, 0, nets);
    hide Admin, AdminRun, Sent, PeerRun, IfaRun, Holed, Steady, Booted;
    HoleRun(found, c, 0, later, nets, map[], [], OpOf(7, 1));
    AdminRunFolds(found, later, nets);
    assert RecOps(later) == [OpOf(8, 1)];
    FoldKeepsCustomers(found.record, [OpOf(8, 1)]);
    PromotedLacks(AdminRun(found, later, nets), PeerRun(found, c, 0, later, nets).0, OpOf(7, 1), OpOf(8, 1), connect);
  }

  // ---- The messages on the connection ----

  /** What was put on a connection between two moments. */
  function New(before: seq<Msg>, after: seq<Msg>): seq<Msg>
    requires before <= after
  {
    after[|before|..]
  }

  /** The messages of one admin request to peer `i`, in full: the identification of a promotion, then either the request
      with the committed and last index it leaves, or to a peer found again everything from the first entry on. */
  lemma AdminWire(p: Node, cid: Int32, num: Int32, i: nat, net: Net)
    requires p.Valid() && i < |p.live|
    ensures var q := Admin(p, cid, num, net);
            var greets := p.primary != p.factory && net.onPromotion(i);
            && q.wire[i]
               == p.wire[i] + (if greets then [Ident("PFA")] else [])
                  + (if p.live[i] || greets
                     then [Replicate(RepReq(p.factory, q.committed, q.last, MapOp(1, cid, num)))]
                     else if net.reconnect(i)
                     then [Ident("PFA")]
                          + seq(|q.smr|, k requires 0 <= k < |q.smr| => Replicate(RepReq(p.factory, k - 1, k, q.smr[k])))
                     else [])
            && q.live[i] == (if p.live[i] || greets then net.acked(i) else net.reconnect(i))
  {
    var l := Led(p, net);
    var op := OpOf(cid, num);
    LedWire(p, i, net);
    var n := Append(l, op);
    assert n.Valid() && n.live == l.live && n.wire == l.wire && n.factory == p.factory;
    hide Led, Append;
    var q := Replicated(n, op, net);
    assert q.wire[i] == n.wire[i] + PeerTraffic(n, op, i, net);
    assert q.smr == n.smr && q.committed == n.committed && q.last == n.last;
  }

  lemma LedWire(p: Node, i: nat, net: Net)
    requires p.Valid() && i < |p.live|
    ensures var l := Led(p, net);
            var greets := p.primary != p.factory && net.onPromotion(i);
            && |l.live| == |p.live| && l.factory == p.factory && l.live[i] == (p.live[i] || greets)
            && l.wire[i] == p.wire[i] + (if greets then [Ident("PFA")] else [])
  {
    assert p.wire[i] + [] == p.wire[i];
  }

  lemma ReceiveConcat(r: Peer, a: seq<Msg>, b: seq<Msg>)
    requires r.node.Valid()
    ensures Receive(r, a + b) == Receive(Receive(r, a), b)
    decreases |b|
  {
    hide ReceiveOne;
    if b == [] {
      assert a + b == a;
    } else {
      ReceiveConcat(r, a, b[..|b| - 1]);
      assert (a + b)[..|a + b| - 1] == a + b[..|b| - 1];
    }
  }

  lemma ReceiveNothing(r: Peer)
    requires r.node.Valid()
    ensures Receive(r, []) == r
  {
  }

  lemma ReceiveSingle(r: Peer, m: Msg)
    requires r.node.Valid()
    ensures Receive(r, [m]) == ReceiveOne(r, m)
  {
    assert [m][..0] == [];
  }

  /** Opening a connection as primary. */
  lemma ReceiveGreeting(r: Peer)
    requires r.node.Valid() && r.mode != Dead
    ensures var s := Receive(r, [Ident("PFA")]);
            s.mode == Replicating && s.node == r.node.(primary := s.node.primary)
  {
    ReceiveSingle(r, Ident("PFA"));
  }

  /** One request reaches the log of a peer that is in the flow of a primary, and of no other. */
  lemma ReceiveRequest(r: Peer, req: RepReq)
    requires r.node.Valid() && r.mode != Dead
    ensures var s := Receive(r, [Replicate(req)]);
            && (r.mode != Replicating ==> s.node == r.node && s.mode == Shut)
            && (r.mode == Replicating ==>
                  s.node == IfaRun(r.node, [req]).0 && (s.mode == Replicating <==> IfaRun(r.node, [req]).1 == Serving))
  {
    ReceiveSingle(r, Replicate(req));
    OneRequest(r.node, req);
  }

  /** A catch-up stream received. */
  lemma {:induction false} ReceiveStream(b: Node, factory: Int32, log: seq<MapOp>, k: nat)
    requires b.Valid() && factory != -1 && k <= |log|
    ensures var reqs := Stream(factory, log)[..k];
            Receive(Peer(b, Replicating), AllRequests(factory, log)[..k]) == Peer(IfaRun(b, reqs).0, Replicating)
  {
    var (ms, s) := (AllRequests(factory, log), Stream(factory, log));
    StreamShape(b, factory, log, k);
    if k > 0 {
      hide IfaStep;
      ReceiveStream(b, factory, log, k - 1);
      assert ms[..k][..k - 1] == ms[..k - 1] && s[..k][..k - 1] == s[..k - 1];
      assert ms[k - 1] == Replicate(s[k - 1]);
      assert IfaRun(b, s[..k - 1]).1 == Serving by {
        StreamServes(b, factory, log, k - 1);
      }
    }
  }

  lemma StreamServes(b: Node, factory: Int32, log: seq<MapOp>, k: nat)
    requires b.Valid() && factory != -1 && k <= |log|
    ensures IfaRun(b, Stream(factory, log)[..k]).1 == Serving
  {
    StreamShape(b, factory, log, k);
  }

  lemma ReceiveNewer(r: Peer, a: seq<Msg>, b: seq<Msg>, c: seq<Msg>)
    requires r.node.Valid() && a <= b <= c
    ensures Receive(r, New(a, c)) == Receive(Receive(r, New(a, b)), New(b, c))
  {
    assert New(a, c) == New(a, b) + New(b, c);
    ReceiveConcat(r, New(a, b), New(b, c));
  }

  lemma SteadyMessage(q: Node, i: nat, cid: Int32, num: Int32, nets: nat -> Net, k: nat)
    requires Steady(q, i, nets)
    ensures var q' := Admin(q, cid, num, nets(k));
            var sent := Sent(q, OpOf(cid, num), i, nets(k));
            i < |q.wire| == |q'.wire| && |sent| == 1 && sent == [sent[0]] && q'.wire[i] == q.wire[i] + [Replicate(sent[0])]
  {
    SteadySent(q, OpOf(cid, num), i, nets(k));
    AdminWire(q, cid, num, i, nets(k));
    assert q.wire[i] + [] == q.wire[i];
  }

  /** One acknowledged request. */
  lemma WireStep(q: Node, m: Node, i: nat, cid: Int32, num: Int32, nets: nat -> Net, k: nat)
    requires Steady(q, i, nets) && m.Valid() && IfaRun(m, Sent(q, OpOf(cid, num), i, nets(k))).1 == Serving
    ensures var q' := Admin(q, cid, num, nets(k));
            && |q'.wire| == |q.wire| && q.wire[i] <= q'.wire[i]
            && Receive(Peer(m, Replicating), New(q.wire[i], q'.wire[i]))
               == Peer(IfaRun(m, Sent(q, OpOf(cid, num), i, nets(k))).0, Replicating)
  {
    hide Admin, Sent, IfaRun, Receive;
    SteadyMessage(q, i, cid, num, nets, k);
    var (q', sent) := (Admin(q, cid, num, nets(k)), Sent(q, OpOf(cid, num), i, nets(k)));
    DeliverOne(m, q.wire[i], q'.wire[i], sent[0], sent);
  }

  lemma DeliverOne(m: Node, before: seq<Msg>, after: seq<Msg>, req: RepReq, reqs: seq<RepReq>)
    requires m.Valid() && after == before + [Replicate(req)] && reqs == [req] && IfaRun(m, reqs).1 == Serving
    ensures before <= after
    ensures Receive(Peer(m, Replicating), New(before, after)) == Peer(IfaRun(m, reqs).0, Replicating)
  {
    hide IfaRun, Receive;
    assert New(before, after) == [Replicate(req)];
    ReceiveRequest(Peer(m, Replicating), req);
  }

  /** On a connection in the flow of a primary, delivering the messages is the run of requests at the backup. */
  lemma {:induction false} WireIsPeerRun(p: Node, b: Node, i: nat, recs: seq<LogRec>, nets: nat -> Net)
    requires Steady(p, i, nets) && b.Valid() && PeerRun(p, b, i, recs, nets).1 == Serving
    ensures var q := AdminRun(p, recs, nets);
            && i < |q.wire| && p.wire[i] <= q.wire[i]
            && Receive(Peer(b, Replicating), New(p.wire[i], q.wire[i])) == Peer(PeerRun(p, b, i, recs, nets).0, Replicating)
  {
    if recs == [] {
      ReceiveNothing(Peer(b, Replicating));
    } else {
      var k := |recs| - 1;
      PeerRunStep(p, b, i, recs, nets);
      SteadyRun(p, i, recs[..k], nets);
      AdminRunKeeps(p, recs[..k], nets);
      var (q, q') := (AdminRun(p, recs[..k], nets), AdminRun(p, recs, nets));
      var (m, end) := PeerRun(p, b, i, recs[..k], nets);
      assert end == Serving;
      hide Steady, PeerRun, AdminRun, Admin, Sent, IfaRun, Receive;
      WireIsPeerRun(p, b, i, recs[..k], nets);
      WireStep(q, m, i, recs[k].cid, recs[k].num, nets, k);
      ReceiveNewer(Peer(b, Replicating), p.wire[i], q.wire[i], q'.wire[i]);
    }
  }

  /** Lockstep, by what is on the connection: the messages of any number of requests, delivered, keep the two equal. */
  lemma WireKeepsLockstep(p: Node, b: Node, i: nat, recs: seq<LogRec>, nets: nat -> Net)
    requires Steady(p, i, nets) && Lockstep(p, b)
    ensures var q := AdminRun(p, recs, nets);
            && i < |q.wire| && p.wire[i] <= q.wire[i]
            && var r := Receive(Peer(b, Replicating), New(p.wire[i], q.wire[i]));
               r.mode == Replicating && Lockstep(q, r.node)
  {
    LockstepRun(p, b, i, recs, nets);
    hide Steady, PeerRun, AdminRun, Receive;
    WireIsPeerRun(p, b, i, recs, nets);
  }

  lemma PrimaryIsForgotten(b: Node, c: Node, req: RepReq)
    requires b.Valid() && c == b.(primary := c.primary) && req.factory != -1
    ensures IfaRun(c, [req]) == IfaRun(b, [req])
  {
    OneRequest(b, req);
    OneRequest(c, req);
    StepForgets(b, c, req);
    hide IfaRun, IfaStep;
  }

  lemma StepForgets(b: Node, c: Node, req: RepReq)
    requires b.Valid() && c == b.(primary := c.primary) && req.factory != -1
    ensures IfaStep(c, req) == IfaStep(b, req)
  {
    assert c.(primary := req.factory) == b.(primary := req.factory);
  }

  /** A greeting and then one request, on whatever connection the peer had before. */
  lemma ReceiveGreeted(b: Node, mode: Mode, req: RepReq)
    requires b.Valid() && mode != Dead && req.factory != -1 && IfaRun(b, [req]).1 == Serving
    ensures Receive(Peer(b, mode), [Ident("PFA")] + [Replicate(req)]) == Peer(IfaRun(b, [req]).0, Replicating)
  {
    hide IfaRun, ReceiveOne;
    ReceiveConcat(Peer(b, mode), [Ident("PFA")], [Replicate(req)]);
    ReceiveGreeting(Peer(b, mode));
    var c := Receive(Peer(b, mode), [Ident("PFA")]).node;
    ReceiveRequest(Peer(c, Replicating), req);
    PrimaryIsForgotten(b, c, req);
  }

  /** A promotion that reaches the peer, whatever connection that peer had before: the greeting opens one, and the first
      request arrives on it. */
  lemma WireAfterPromotion(p: Node, b: Node, mode: Mode, i: nat, cid: Int32, num: Int32, net: Net)
    requires p.Valid() && i < |p.live| && p.primary != p.factory && p.factory != -1 && net.onPromotion(i)
    requires mode != Dead && Lockstep(Led(p, net), b)
    ensures var q := Admin(p, cid, num, net);
            && p.wire[i] <= q.wire[i]
            && var r := Receive(Peer(b, mode), New(p.wire[i], q.wire[i]));
               r.mode == Replicating && Lockstep(q, r.node)
  {
    var (l, op, q) := (Led(p, net), OpOf(cid, num), Admin(p, cid, num, net));
    AdminWire(p, cid, num, i, net);
    LedAgain(p, i, cid, num, net);
    LockstepStep(l, b, i, cid, num, net);
    SteadySent(l, op, i, net);
    var req := Sent(l, op, i, net)[0];
    hide Admin, Led, Append, Replicated, IfaRun, Receive;
    assert New(p.wire[i], q.wire[i]) == [Ident("PFA")] + [Replicate(req)];
    ReceiveGreeted(b, mode, req);
  }

  lemma LedAgain(p: Node, i: nat, cid: Int32, num: Int32, net: Net)
    requires p.Valid() && i < |p.live| && p.primary != p.factory && net.onPromotion(i)
    ensures var (l, q) := (Led(p, net), Admin(p, cid, num, net));
            && Led(l, net) == l && l.live[i] && l.factory == p.factory
            && q.smr == Admin(l, cid, num, net).smr && q.record == Admin(l, cid, num, net).record
            && q.Valid() && q.Gap() == 0
            && Sender(l, OpOf(cid, num), net).committed == q.committed && Sender(l, OpOf(cid, num), net).last == q.last
  {
  }

  lemma FoundMessages(p: Node, c: Node, i: nat, cid: Int32, num: Int32, net: Net)
    requires p.Valid() && p.factory != -1 && i < |p.live| && !Led(p, net).live[i] && net.reconnect(i) && c.Valid()
    ensures var (f, op) := (Admin(p, cid, num, net), OpOf(cid, num));
            var stream := AllRequests(p.factory, p.smr + [op]);
            && i < |f.wire| && f.wire[i] == p.wire[i] + ([Ident("PFA")] + stream)
            && Receive(Peer(c, Replicating), stream) == Peer(IfaRun(c, Sent(p, op, i, net)).0, Replicating)
  {
    FoundWire(p, i, cid, num, net);
    CatchUpSent(p, OpOf(cid, num), i, net);
    hide Admin, Led, IfaRun, Receive, Sent;
    StreamReceived(c, p.factory, p.smr + [OpOf(cid, num)]);
  }

  lemma FoundWire(p: Node, i: nat, cid: Int32, num: Int32, net: Net)
    requires p.Valid() && i < |p.live| && !Led(p, net).live[i] && net.reconnect(i)
    ensures var f := Admin(p, cid, num, net);
            && i < |f.wire|
            && f.wire[i] == p.wire[i] + ([Ident("PFA")] + AllRequests(p.factory, p.smr + [OpOf(cid, num)]))
  {
    AdminWire(p, cid, num, i, net);
    assert Admin(p, cid, num, net).smr == p.smr + [OpOf(cid, num)];
    assert p.wire[i] + [] == p.wire[i];
  }

  lemma StreamReceived(c: Node, factory: Int32, log: seq<MapOp>)
    requires c.Valid() && factory != -1
    ensures Receive(Peer(c, Replicating), AllRequests(factory, log)) == Peer(IfaRun(c, Stream(factory, log)).0, Replicating)
  {
    hide Receive, IfaRun;
    ReceiveStream(c, factory, log, |log|);
    assert AllRequests(factory, log)[..|log|] == AllRequests(factory, log);
    assert Stream(factory, log)[..|log|] == Stream(factory, log);
  }

  /** The request that finds a fresh peer again, whatever connection that had before. */
  lemma WireFindsPeer(p: Node, b: Node, mode: Mode, i: nat, cid: Int32, num: Int32, net: Net)
    requires p.Valid() && p.Gap() == 0 && p.factory != -1 && i < |p.live| && !Led(p, net).live[i] && net.reconnect(i)
    requires b.Valid() && b.smr == [] && mode != Dead
    ensures var f := Admin(p, cid, num, net);
            && i < |f.wire| && p.wire[i] <= f.wire[i]
            && var r := Receive(Peer(b, mode), New(p.wire[i], f.wire[i]));
               r.mode == Replicating && Holed(f, r.node, b.record, p.smr, OpOf(cid, num), [])
  {
    var (f, op, greeting) := (Admin(p, cid, num, net), OpOf(cid, num), [Ident("PFA")]);
    var stream := AllRequests(p.factory, p.smr + [op]);
    ReceiveGreeting(Peer(b, mode));
    hide Admin, Led, Holed, IfaRun, Sent, Receive, AllRequests;
    var c := Receive(Peer(b, mode), greeting).node;
    FoundMessages(p, c, i, cid, num, net);
    CatchUpLeavesHole(p, c, i, cid, num, net);
    assert New(p.wire[i], f.wire[i]) == greeting + stream;
    ReceiveConcat(Peer(b, mode), greeting, stream);
  }

  /** Catch-up, by what is on the connection: a fresh peer found again, and any number of requests after it. */
  lemma WireLeavesHole(p: Node, b: Node, mode: Mode, i: nat, cid: Int32, num: Int32, net: Net,
                       recs: seq<LogRec>, nets: nat -> Net)
    requires p.Valid() && p.Gap() == 0 && p.factory != -1 && i < |p.live| && !Led(p, net).live[i] && net.reconnect(i)
    requires b.Valid() && b.smr == [] && mode != Dead && forall k: nat :: nets(k).acked(i)
    ensures var f := Admin(p, cid, num, net);
            var q := AdminRun(f, recs, nets);
            && i < |f.wire| && i < |q.wire| && p.wire[i] <= f.wire[i] <= q.wire[i]
            && var r := Receive(Peer(b, mode), New(p.wire[i], q.wire[i]));
               r.mode == Replicating && Holed(q, r.node, b.record, p.smr, OpOf(cid, num), RecOps(recs))
  {
    var (f, op) := (Admin(p, cid, num, net), OpOf(cid, num));
    assert Steady(f, i, nets);
    hide Admin, Led, AdminRun, Steady, PeerRun, IfaRun, Sent, Receive, Holed;
    WireFindsPeer(p, b, mode, i, cid, num, net);
    var d := Receive(Peer(b, mode), New(p.wire[i], f.wire[i])).node;
    HoleRun(f, d, i, recs, nets, b.record, p.smr, op);
    WireIsPeerRun(f, d, i, recs, nets);
    ReceiveNewer(Peer(b, mode), p.wire[i], f.wire[i], AdminRun(f, recs, nets).wire[i]);
  }

  lemma {:induction false} ReqsConcat(a: seq<Msg>, b: seq<Msg>)
    ensures Reqs(a + b) == Reqs(a) + Reqs(b)
  {
    if b == [] {
      assert a + b == a;
    } else {
      ReqsConcat(a, b[..|b| - 1]);
      assert (a + b)[..|a + b| - 1] == a + b[..|b| - 1];
    }
  }

  lemma GreetingHasNoRequest(tag: string)
    ensures Reqs([Ident(tag)]) == []
  {
    assert [Ident(tag)][..0] == [];
  }

  /** What `Sent` stands for: the requests among the messages one admin request puts on the connection. */
  lemma SentIsOnWire(p: Node, cid: Int32, num: Int32, i: nat, net: Net)
    requires p.Valid() && i < |p.live|
    ensures var q := Admin(p, cid, num, net);
            i < |q.wire| && p.wire[i] <= q.wire[i] && Reqs(New(p.wire[i], q.wire[i])) == Sent(p, OpOf(cid, num), i, net)
  {
    var op := OpOf(cid, num);
    var greeting := if p.primary != p.factory && net.onPromotion(i) then [Ident("PFA")] else [];
    LedWire(p, i, net);
    var n := Sender(p, op, net);
    assert n.wire == Led(p, net).wire && n.live == Led(p, net).live;
    var traffic := PeerTraffic(n, op, i, net);
    assert Admin(p, cid, num, net).wire[i] == p.wire[i] + greeting + traffic;
    hide Admin, Led, PeerTraffic, Reqs;
    assert New(p.wire[i], p.wire[i] + greeting + traffic) == greeting + traffic;
    ReqsConcat(greeting, traffic);
    GreetingHasNoRequest("PFA");
    assert [] + Reqs(traffic) == Reqs(traffic);
    NoMessagesNoRequests();
  }

  lemma NoMessagesNoRequests()
    ensures Reqs([]) == []
  {
  }

  /** A copied prepare, by what is on the connection: it is stored without a vote and changes nothing else, and a
      request that follows on the same connection reaches no log. */
  lemma WireCopies(p: Node, b: Node, mode: Mode, i: nat, txn: Txn, connect: nat -> bool, req: RepReq)
    requires p.Valid() && i < |p.live| && b.Valid() && mode != Dead && Vote(p.record, txn.readSet)
    ensures var q := Prepared(p, txn, connect);
            && p.wire[i] <= q.wire[i] && q.live[i] == (p.live[i] || connect(i))
            && (!connect(i) ==> New(p.wire[i], q.wire[i]) == [])
            && (connect(i) ==>
                  var r := Receive(Peer(b, mode), New(p.wire[i], q.wire[i]));
                  && r.node == b.(txnLog := InsertPrepared(b.txnLog, txn), primary := r.node.primary)
                  && Receive(r, [Replicate(req)]) == Peer(r.node, Shut))
  {
    var q := Prepared(p, txn, connect);
    var (a, c) := (Ident("PrPrepare"), Msg.Prepare(txn));
    if connect(i) {
      assert New(p.wire[i], q.wire[i]) == [a] + [c];
      ReceiveConcat(Peer(b, mode), [a], [c]);
      ReceiveSingle(Peer(b, mode), a);
      ReceiveSingle(Receive(Peer(b, mode), [a]), c);
      ReceiveSingle(Receive(Peer(b, mode), [a] + [c]), Replicate(req));
    } else {
      assert p.wire[i] + [] == p.wire[i];
    }
  }

  // ---- A commit handed over to the backup ----

  /** A backup's first request promotes it; the rest is the fold of the writes over the settled record. */
  lemma {:induction false} PromotingRunFolds(b: Node, recs: seq<LogRec>, nets: nat -> Net)
    requires b.Valid() && b.primary != b.factory && recs != []
    ensures var r := AdminRun(b, recs, nets);
            r.record == Fold(Settle(b).record, RecOps(recs)) && r.Gap() == 0 && r.primary == r.factory
  {
    var k := |recs| - 1;
    assert RecOps(recs) == RecOps(recs[..k]) + [OpOf(recs[k].cid, recs[k].num)];
    if k == 0 {
      assert recs[..0] == [];
    } else {
      PromotingRunFolds(b, recs[..k], nets);
    }
  }

  /** The backup accepted the replicated prepare and commits instead of the primary: same records and commit
      records as the primary would have produced, given lockstep. */
  lemma HandOverInLockstep(p: Node, b: Node, txn: Txn, pNets: nat -> Net, bNets: nat -> Net)
    requires Lockstep(p, b) && txn.id !in p.txnLog && txn.id !in b.txnLog
    ensures var pp, bb := p.(txnLog := InsertPrepared(p.txnLog, txn)), b.(txnLog := InsertPrepared(b.txnLog, txn));
            && Committed(bb, txn.id, bNets).record == Committed(pp, txn.id, pNets).record
            && CommitRecs(txn.id, Entry(bb.txnLog, txn.id)) == CommitRecs(txn.id, Entry(pp.txnLog, txn.id))
  {
    var recs := PrepareRecs(txn.id, ValidPrefix(txn.writeSet));
    AdminRunFolds(p.(txnLog := InsertPrepared(p.txnLog, txn)), recs, pNets);
    AdminRunFolds(b.(txnLog := InsertPrepared(b.txnLog, txn)), recs, bNets);
  }

  /** A backup's commit, seen from its settled state; without a write it does not even promote itself. */
  lemma CommitAtBackup(b: Node, id: Int32, nets: nat -> Net)
    requires b.Valid() && b.primary != b.factory
    ensures var ops := RecOps(Entry(b.txnLog, id));
            Committed(b, id, nets).record == if ops == [] then b.record else Fold(Settle(b).record, ops)
  {
    var recs := Entry(b.txnLog, id);
    if recs != [] {
      PromotingRunFolds(b, recs, nets);
    }
  }

  /** The table a holed backup commits over, as the log it stands for. */
  lemma HoleSettled(p: Node, b: Node, base: Store, pre: seq<MapOp>, op: MapOp, post: seq<MapOp>)
    requires Holed(p, b, base, pre, op, post)
    ensures Settle(b).record == Fold(base, if post == [] then pre + [op] else pre + post)
  {
    if post == [] {
      assert pre + post == pre && pre + [op] + post == pre + [op];
      assert (pre + [op])[..|pre|] == pre;
    } else {
      PromotedKeepsHole(p, b, base, pre, op, post, _ => false);
    }
  }

  /** The hole under a commit's writes. */
  lemma HoleUnderWrites(base: Store, pre: seq<MapOp>, op: MapOp, post: seq<MapOp>, ops: seq<MapOp>)
    ensures Fold(Fold(base, pre + post), ops) == Fold(Fold(base, pre + [op] + post), ops)
            <==> LastWrite(post + ops, op.arg1).Some? || Lookup(Fold(base, pre), op.arg1) == Some(op.arg2)
  {
    hide Fold, LastWrite;
    FoldConcat(base, pre + [op] + post, ops);
    FoldConcat(base, pre + post, ops);
    FoldDropOne(base, pre, op, post + ops);
    assert pre + [op] + post + ops == pre + [op] + (post + ops) && pre + post + ops == pre + (post + ops);
  }

  /** The same for any backup with a hole: the promotion before its first write fills the hole only if that entry is
      still the newest. So the two agree exactly when there is a write and nothing followed the catch-up, or the
      missed customer is written after it, in the log or by this commit, or the missed entry changed nothing. */
  lemma HandOverAfterCatchUp(p: Node, b: Node, txn: Txn, pNets: nat -> Net, bNets: nat -> Net,
                             base: Store, pre: seq<MapOp>, op: MapOp, post: seq<MapOp>)
    requires Holed(p, b, base, pre, op, post) && p.record == Fold(base, p.smr) && b.primary != b.factory
    requires txn.id !in p.txnLog && txn.id !in b.txnLog
    ensures var pp, bb := p.(txnLog := InsertPrepared(p.txnLog, txn)), b.(txnLog := InsertPrepared(b.txnLog, txn));
            var ops := OrderOps(ValidPrefix(txn.writeSet));
            && CommitRecs(txn.id, Entry(bb.txnLog, txn.id)) == CommitRecs(txn.id, Entry(pp.txnLog, txn.id))
            && (Committed(bb, txn.id, bNets).record == Committed(pp, txn.id, pNets).record
                <==> (post == [] && ops != [])
                     || LastWrite(post + ops, op.arg1).Some?
                     || Lookup(Fold(base, pre), op.arg1) == Some(op.arg2))
  {
    var ops := OrderOps(ValidPrefix(txn.writeSet));
    var pp, bb := p.(txnLog := InsertPrepared(p.txnLog, txn)), b.(txnLog := InsertPrepared(b.txnLog, txn));
    RecOpsOfPrepare(txn.id, ValidPrefix(txn.writeSet));
    CommitAtBackup(bb, txn.id, bNets);
    HoleSettled(p, bb, base, pre, op, post);
    HoleUnderWrites(base, pre, op, post, ops);
    AdminRunFolds(pp, PrepareRecs(txn.id, ValidPrefix(txn.writeSet)), pNets);
    hide AdminRun, LastWrite, RecOps, OrderOps, ValidPrefix, CommitRecs, PrepareRecs, NewTxnLog, Settle, Fold;
    assert pre + [op] + [] == pre + [op];
    FoldNothing(b.record);
    FoldNothing(p.record);
  }

  lemma FoldNothing(s: Store)
    ensures Fold(s, []) == s
  {
  }
}
