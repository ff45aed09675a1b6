/** The admin queue with any number of producers: enqueueing, serving and waking interleave freely. */
module AdminQueue {
  import opened Records
  import opened ResourceManager

  /** One enqueued request; its number is its place in the order of enqueueing. */
  datatype Ticket = Ticket(producer: nat, order: Order, engineer: Int32)

  /** How far the admin thread is with the request it took off the queue. */
  datatype Stage = Free | Taken(t: Ticket) | Applied(t: Ticket) | Sent(t: Ticket)

  /** `issued` records every request ever enqueued; `results` holds the promises set so far, by ticket number;
      `waiting` maps a blocked producer to the number of its ticket. */
  datatype State = State(
    queue: seq<Ticket>, stage: Stage, log: seq<MapOp>, record: Store, attempted: nat,
    results: map<nat, LaptopInfo>, waiting: map<nat, nat>, issued: seq<Ticket>, served: nat)

  datatype Event =
    | Enqueue(producer: nat, order: Order, engineer: Int32)
    | Take | ApplyOne | SendPeers | SetPromise
    | Return(producer: nat)

  function Init(base: Store): State {
    State([], Free, [], base, 0, map[], map[], [], 0)
  }

  function TicketOp(t: Ticket): MapOp {
    OpOf(t.order.cid, t.order.num)
  }

  /** The answer a producer waits for: its own order, its engineer, stamped by the admin thread. */
  function Laptop(t: Ticket): LaptopInfo {
    LaptopInfo(t.order.cid, t.order.num, t.order.typ, t.engineer, 0)
  }

  predicate Enabled(s: State, e: Event) {
    match e
    case Enqueue(p, _, _) => p !in s.waiting
    case Take => s.stage == Free && s.queue != []
    case ApplyOne => s.stage.Taken?
    case SendPeers => s.stage.Applied?
    case SetPromise => s.stage.Sent?
    case Return(p) => p in s.waiting && s.waiting[p] in s.results
  }

  function Next(s: State, e: Event): State
    requires Enabled(s, e)
  {
    match e
    case Enqueue(p, order, engineer) =>
      var t := Ticket(p, order, engineer);
      s.(queue := s.queue + [t], issued := s.issued + [t], waiting := s.waiting[p := |s.issued|])
    case Take => s.(stage := Taken(s.queue[0]), queue := s.queue[1..])
    case ApplyOne =>
      var op := TicketOp(s.stage.t);
      s.(stage := Applied(s.stage.t), log := s.log + [op], record := Apply(s.record, op))
    case SendPeers => s.(stage := Sent(s.stage.t), attempted := s.attempted + 1)
    case SetPromise => s.(stage := Free, results := s.results[s.served := Laptop(s.stage.t)], served := s.served + 1)
    case Return(p) => s.(waiting := s.waiting - {p})
  }

  datatype Outcome = Ended(s: State) | Impossible

  function Trace(s: State, events: seq<Event>): Outcome
    decreases |events|
  {
    if events == [] then Ended(s)
    else if !Enabled(s, events[0]) then Impossible
    else Trace(Next(s, events[0]), events[1..])
  }

  function Current(s: State): seq<Ticket> {
    match s.stage
    case Free => []
    case Taken(t) => [t]
    case Applied(t) => [t]
    case Sent(t) => [t]
  }

  function Reached(s: State, applied: bool, sent: bool): nat {
    s.served + if (applied && (s.stage.Applied? || s.stage.Sent?)) || (sent && s.stage.Sent?) then 1 else 0
  }

  ghost predicate Inv(base: Store, s: State) {
    && s.served <= |s.issued| && s.issued[s.served..] == Current(s) + s.queue
    && s.record == Fold(base, s.log)
    && |s.log| == Reached(s, true, false) && (forall i | 0 <= i < |s.log| :: s.log[i] == TicketOp(s.issued[i]))
    && s.attempted == Reached(s, false, true)
    && (forall i: nat :: i in s.results <==> i < s.served)
    && (forall i | i in s.results :: s.results[i] == Laptop(s.issued[i]))
    && (forall p | p in s.waiting :: s.waiting[p] < |s.issued| && s.issued[s.waiting[p]].producer == p)
  }

  lemma EnqueueKeepsInv(base: Store, s: State, e: Event)
    requires Inv(base, s) && e.Enqueue? && Enabled(s, e)
    ensures Inv(base, Next(s, e))
  {
    hide Fold;
    var t := Next(s, e);
    var ticket := Ticket(e.producer, e.order, e.engineer);
    assert t.issued[s.served..] == s.issued[s.served..] + [ticket];
    assert Current(s) + s.queue + [ticket] == Current(s) + (s.queue + [ticket]);
  }

  lemma ApplyKeepsInv(base: Store, s: State)
    requires Inv(base, s) && Enabled(s, ApplyOne)
    ensures Inv(base, Next(s, ApplyOne))
  {
    hide Fold, TicketOp, Laptop;
    FoldSnoc(base, s.log, TicketOp(s.stage.t));
    assert |s.issued[s.served..]| > 0;
    assert s.issued[s.served] == s.issued[s.served..][0] == s.stage.t;
  }

  lemma PromiseKeepsInv(base: Store, s: State)
    requires Inv(base, s) && Enabled(s, SetPromise)
    ensures Inv(base, Next(s, SetPromise))
  {
    hide Fold, TicketOp, Laptop;
    assert |s.issued[s.served..]| > 0;
    assert s.issued[s.served] == s.issued[s.served..][0];
    assert s.issued[s.served + 1..] == s.issued[s.served..][1..];
    assert [s.stage.t] + s.queue == s.issued[s.served..];
    assert ([s.stage.t] + s.queue)[1..] == [] + s.queue;
  }

  lemma StepKeepsInv(base: Store, s: State, e: Event)
    requires Inv(base, s) && Enabled(s, e)
    ensures Inv(base, Next(s, e))
  {
    hide Fold, TicketOp, Laptop;
    match e
    case Enqueue(_, _, _) =>
      EnqueueKeepsInv(base, s, e);
    case ApplyOne =>
      ApplyKeepsInv(base, s);
    case SetPromise =>
      PromiseKeepsInv(base, s);
    case Take =>
      assert [s.queue[0]] + s.queue[1..] == [] + s.queue;
    case _ =>
  }

  lemma {:induction false} RunsKeepInv(base: Store, s: State, events: seq<Event>)
    requires Inv(base, s)
    ensures Trace(s, events).Ended? ==> Inv(base, Trace(s, events).s)
    decreases |events|
  {
    if events != [] && Enabled(s, events[0]) {
      StepKeepsInv(base, s, events[0]);
      hide Inv;
      RunsKeepInv(base, Next(s, events[0]), events[1..]);
    }
  }

  lemma InvReached(base: Store, events: seq<Event>, s: State)
    requires Trace(Init(base), events) == Ended(s)
    ensures Inv(base, s)
  {
    assert Inv(base, Init(base));
    hide Inv;
    RunsKeepInv(base, Init(base), events);
  }

  /** Over every interleaving of the producers and the admin thread: the replicated log is the requests in the order
      they were enqueued, each once, and all of them once the queue has drained; the records are its fold. */
  lemma ServedInOrder(base: Store, events: seq<Event>, s: State)
    requires Trace(Init(base), events) == Ended(s)
    ensures |s.log| <= |s.issued| && (forall i | 0 <= i < |s.log| :: s.log[i] == TicketOp(s.issued[i]))
    ensures s.record == Fold(base, s.log)
    ensures s.queue == [] && s.stage == Free ==> |s.log| == |s.issued|
  {
    InvReached(base, events, s);
    hide Trace, Fold;
    assert |s.issued[s.served..]| == |Current(s)| + |s.queue|;
  }

  /** A producer that is woken gets the answer to its own request, and not before that request has been applied
      and its replication attempted. */
  lemma WokenWithOwnOrder(base: Store, events: seq<Event>, s: State, p: nat)
    requires Trace(Init(base), events) == Ended(s) && Enabled(s, Return(p))
    ensures var n := s.waiting[p];
            && n < |s.issued| && s.issued[n].producer == p && s.results[n] == Laptop(s.issued[n])
            && n < |s.log| && s.log[n] == TicketOp(s.issued[n]) && n < s.attempted
  {
    InvReached(base, events, s);
    hide Trace, Fold, TicketOp, Laptop, Current;
  }

  // ---- The steps of the machine add up to the operation of the class ----

  /** The requests as the class keeps them. */
  function Requests(queue: seq<Ticket>): (reqs: seq<AdminRequest>)
    ensures |reqs| == |queue|
  {
    seq(|queue|, i requires 0 <= i < |queue| =>
      AdminRequest(LaptopInfo(queue[i].order.cid, queue[i].order.num, queue[i].order.typ, queue[i].engineer, -1),
                   queue[i].order.cid, queue[i].order.num))
  }

  function Turn(): seq<Event> {
    [Take] + ([ApplyOne] + ([SendPeers] + [SetPromise]))
  }

  function Turns(k: nat): seq<Event> {
    if k == 0 then [] else Turns(k - 1) + Turn()
  }

  /** Table and replicated log are those of node `n`, and the admin thread is at the start of its loop. */
  predicate Stands(s: State, n: Node) {
    n.Valid() && n.Gap() == 0 && s.record == n.record && s.log == n.smr && s.stage == Free
  }

  lemma TraceStep(s: State, e: Event, rest: seq<Event>)
    requires Enabled(s, e)
    ensures Trace(s, [e] + rest) == Trace(Next(s, e), rest)
  {
    assert ([e] + rest)[1..] == rest;
  }

  /** One turn of the admin thread is `AdminTurn`: the head of the queue is served and its promise set. */
  lemma TurnRefines(s: State, n: Node, net: Net, rest: seq<Event>) returns (t: State)
    requires Stands(s, n) && s.queue != []
    ensures Trace(s, Turn() + rest) == Trace(t, rest)
    ensures var (o, engineer) := (s.queue[0].order, s.queue[0].engineer);
            && Stands(t, Admin(n, o.cid, o.num, net)) && t.queue == s.queue[1..] && t.served == s.served + 1
            && t.results == s.results[s.served := LaptopInfo(o.cid, o.num, o.typ, engineer, 0)]
            && t.waiting == s.waiting && t.issued == s.issued
  {
    hide Trace;
    var s1 := Next(s, Take);
    var s2 := Next(s1, ApplyOne);
    var s3 := Next(s2, SendPeers);
    t := Next(s3, SetPromise);
    assert Turn() + rest == [Take] + ([ApplyOne] + ([SendPeers] + ([SetPromise] + rest)));
    TraceStep(s, Take, [ApplyOne] + ([SendPeers] + ([SetPromise] + rest)));
    TraceStep(s1, ApplyOne, [SendPeers] + ([SetPromise] + rest));
    TraceStep(s2, SendPeers, [SetPromise] + rest);
    TraceStep(s3, SetPromise, rest);
    var l := Led(n, net);
    assert l.record == n.record && l.smr == n.smr && l.Gap() == 0;
  }

  /** The class after the first `k` requests of the queue. */
  function After(n: Node, queue: seq<Ticket>, k: nat, nets: nat -> Net): (r: Node)
    requires n.Valid() && k <= |queue|
    ensures r.Valid()
  {
    AdminQueueRun(n, Requests(queue)[..k], nets)
  }

  lemma AfterStep(n: Node, queue: seq<Ticket>, k: nat, nets: nat -> Net)
    requires n.Valid() && 0 < k <= |queue|
    ensures var o := queue[k - 1].order;
            After(n, queue, k, nets) == Admin(After(n, queue, k - 1, nets), o.cid, o.num, nets(k - 1))
  {
    hide Admin;
    var reqs := Requests(queue);
    assert reqs[..k][..k - 1] == reqs[..k - 1];
  }

  /** `k` turns of the admin thread: as many requests served as by the class, and the last one answered. */
  lemma {:induction false} TurnsRefine(s: State, n: Node, k: nat, nets: nat -> Net, rest: seq<Event>) returns (t: State)
    requires Stands(s, n) && k <= |s.queue|
    ensures Trace(s, Turns(k) + rest) == Trace(t, rest)
    ensures Stands(t, After(n, s.queue, k, nets))
    ensures t.queue == s.queue[k..] && t.served == s.served + k && t.waiting == s.waiting && t.issued == s.issued
    ensures k > 0 ==> var (i, last) := (s.served + k - 1, s.queue[k - 1]);
                      i in t.results
                      && t.results[i] == LaptopInfo(last.order.cid, last.order.num, last.order.typ, last.engineer, 0)
  {
    if k == 0 {
      t := s;
      assert Turns(0) + rest == rest;
    } else {
      AfterStep(n, s.queue, k, nets);
      assert Turns(k) + rest == Turns(k - 1) + (Turn() + rest);
      hide *;
      var m := TurnsRefine(s, n, k - 1, nets, Turn() + rest);
      t := TurnRefines(m, After(n, s.queue, k - 1, nets), nets(k - 1), rest);
    }
  }

  /** A producer that enqueues an order behind any backlog, the admin thread serving the queue, and the return: table,
      replicated log and result are those `CreateRegularLaptop` is specified by. */
  lemma CreateRefines(base: Store, s: State, n: Node, p: nat, order: Order, engineer: Int32, nets: nat -> Net)
    requires Inv(base, s) && Stands(s, n) && p !in s.waiting
    ensures var end := Trace(s, [Enqueue(p, order, engineer)] + (Turns(|s.queue| + 1) + [Return(p)]));
            var r := Admin(AdminQueueRun(n, Requests(s.queue), nets), order.cid, order.num, nets(|s.queue|));
            && end.Ended? && Stands(end.s, r) && end.s.queue == []
            && |s.issued| in end.s.results
            && end.s.results[|s.issued|] == LaptopInfo(order.cid, order.num, order.typ, engineer, 0)
  {
    var e := Enqueue(p, order, engineer);
    Enqueued(base, s, n, p, order, engineer, nets);
    var (q, m) := (Next(s, e), AdminQueueRun(n, Requests(s.queue), nets));
    hide *;
    ServedAndReturned(q, n, m, p, nets);
    TraceStep(s, e, Turns(|q.queue|) + [Return(p)]);
  }

  /** The admin thread serves the whole queue, and the producer of its last request returns. */
  lemma ServedAndReturned(q: State, n: Node, m: Node, p: nat, nets: nat -> Net)
    requires Stands(q, n) && q.queue != [] && p in q.waiting && q.waiting[p] == q.served + |q.queue| - 1 && m.Valid()
    requires var last := q.queue[|q.queue| - 1].order;
             After(n, q.queue, |q.queue|, nets) == Admin(m, last.cid, last.num, nets(|q.queue| - 1))
    ensures var end := Trace(q, Turns(|q.queue|) + [Return(p)]);
            var (last, i) := (q.queue[|q.queue| - 1], q.served + |q.queue| - 1);
            && end.Ended? && Stands(end.s, Admin(m, last.order.cid, last.order.num, nets(|q.queue| - 1)))
            && end.s.queue == [] && i in end.s.results
            && end.s.results[i] == LaptopInfo(last.order.cid, last.order.num, last.order.typ, last.engineer, 0)
  {
    hide *;
    var last := q.queue[|q.queue| - 1].order;
    var t := TurnsRefine(q, n, |q.queue|, nets, [Return(p)]);
    MayReturn(t, p);
    Returns(t, m, last, nets(|q.queue| - 1), p);
  }

  lemma Enqueued(base: Store, s: State, n: Node, p: nat, order: Order, engineer: Int32, nets: nat -> Net)
    requires Inv(base, s) && Stands(s, n) && p !in s.waiting
    ensures var q := Next(s, Enqueue(p, order, engineer));
            var k := |s.queue|;
            && Stands(q, n) && |q.queue| == k + 1 && q.queue[k] == Ticket(p, order, engineer)
            && p in q.waiting && q.waiting[p] == |s.issued| == q.served + k
            && After(n, q.queue, |q.queue|, nets)
               == Admin(AdminQueueRun(n, Requests(s.queue), nets), order.cid, order.num, nets(k))
  {
    hide Fold, Admin, AdminQueueRun;
    var q := Next(s, Enqueue(p, order, engineer));
    assert |s.issued[s.served..]| == |s.queue|;
    AfterStep(n, q.queue, |s.queue| + 1, nets);
    Backlog(n, s.queue, Ticket(p, order, engineer), nets);
  }

  lemma Returns(t: State, n: Node, order: Order, net: Net, p: nat)
    requires n.Valid() && Stands(t, Admin(n, order.cid, order.num, net)) && Enabled(t, Return(p))
    ensures var end := Trace(t, [Return(p)]);
            && end.Ended? && Stands(end.s, Admin(n, order.cid, order.num, net))
            && end.s.queue == t.queue && end.s.results == t.results
  {
    hide Admin;
    assert [Return(p)] + [] == [Return(p)];
    TraceStep(t, Return(p), []);
    NoEvents(Next(t, Return(p)));
  }

  lemma MayReturn(t: State, p: nat)
    requires p in t.waiting && t.waiting[p] in t.results
    ensures Enabled(t, Return(p))
  {
  }

  lemma Backlog(n: Node, queue: seq<Ticket>, t: Ticket, nets: nat -> Net)
    requires n.Valid()
    ensures After(n, queue + [t], |queue|, nets) == AdminQueueRun(n, Requests(queue), nets)
  {
    assert Requests(queue + [t])[..|queue|] == Requests(queue);
  }

  lemma NoEvents(s: State)
    ensures Trace(s, []) == Ended(s)
  {
  }
}
