/** The client: how it builds its read set, and how its threads together build the write set. */
module ClientWrites {
  import opened Records
  import opened WireCodec

  const READ_REQUEST: Int32 := 3

  /** The read set of one thread: it asks for customers 0, 1, ... and stops behind the first absent one. */
  function ReadsFrom(answer: nat -> CustRec, i: nat, n: int): seq<CustRec>
    decreases n - i
  {
    if i >= n then []
    else if answer(i).cid == -1 then [answer(i)]
    else [answer(i)] + ReadsFrom(answer, i + 1, n)
  }

  /** The order number a write thread continues from. */
  function LastOrder(readSet: seq<CustRec>, cid: Int32): Int32 {
    if 0 <= cid < |readSet| && readSet[cid].last > 0 then readSet[cid].last else 0
  }

  predicate NoOverflow(readSet: seq<CustRec>, cid: Int32, n: int) {
    var last: int := LastOrder(readSet, cid);
    last + n < 0x8000_0000
  }

  /** The orders one write thread pushes: `n` consecutive numbers behind the last order it read. */
  function ThreadOrders(readSet: seq<CustRec>, cid: Int32, n: int, typ: Int32): (os: seq<Order>)
    requires NoOverflow(readSet, cid, n)
    ensures |os| == if n < 0 then 0 else n
    ensures forall i | 0 <= i < |os| :: os[i].cid == cid
  {
    if n <= 0 then [] else
      var last: int := LastOrder(readSet, cid);
      ThreadOrders(readSet, cid, n - 1, typ) + [Order(cid, last + n, typ)]
  }

  /** The write set the threads share. */
  class SharedWrites {
    var writeRecords: seq<Order>

    constructor ()
      ensures writeRecords == []
    {
      writeRecords := [];
    }

    /** A push under the lock. */
    method Push(order: Order)
      modifies this
      ensures writeRecords == old(writeRecords) + [order]
    {
      writeRecords := writeRecords + [order];
    }
  }

  class ClientThread {
    var customerId: Int32
    var numOrders: int
    var requestType: Int32

    constructor ()
    {
    }

    /** The read loop; `answer(i)` is what the server returns for customer `i` when it is asked. */
    method ThreadBody(id: Int32, orders: int, typ: Int32, answer: nat -> CustRec, readRecords: seq<CustRec>)
      returns (out: seq<CustRec>)
      modifies this
      ensures out == readRecords + if typ == READ_REQUEST then ReadsFrom(answer, 0, orders) else []
    {
      customerId, numOrders, requestType := id, orders, typ;
      out := readRecords;
      var i: nat := 0;
      while i < numOrders
        invariant numOrders == orders && requestType == typ
        invariant readRecords + ReadsFrom(answer, 0, orders) == out + ReadsFrom(answer, i, orders)
        invariant i > 0 ==> typ == READ_REQUEST
        invariant i == 0 ==> out == readRecords
      {
        if requestType == READ_REQUEST {
          var record := answer(i);
          out := out + [record];
          if record.cid == -1 {
            assert ReadsFrom(answer, i, orders) == [record];
            return;
          }
        } else {
          assert out + [] == out;
          return;
        }
        i := i + 1;
      }
      assert out + [] == out;
    }

    /** The write loop of one thread running undisturbed. */
    method ThreadBodyWriteRequest(id: Int32, orders: int, typ: Int32, readRecords: seq<CustRec>, shared: SharedWrites)
      requires NoOverflow(readRecords, id, orders)
      modifies this, shared
      ensures shared.writeRecords == old(shared.writeRecords) + ThreadOrders(readRecords, id, orders, typ)
    {
      customerId, numOrders, requestType := id, orders, typ;
      var setLastOrder: int := LastOrder(readRecords, id);
      var i := 1;
      while i <= numOrders
        invariant customerId == id && numOrders == orders && requestType == typ
        invariant i >= 1 && (i > 1 ==> i <= orders + 1)
        invariant shared.writeRecords == old(shared.writeRecords) + ThreadOrders(readRecords, id, i - 1, typ)
      {
        shared.Push(Order(customerId, i + setLastOrder, requestType));
        i := i + 1;
      }
      assert ThreadOrders(readRecords, id, i - 1, typ) == ThreadOrders(readRecords, id, orders, typ);
    }
  }

  /** What a read thread brings back: every record but the last is present, and present records sit at their
      customer's index when the server answers the question asked. */
  lemma {:induction false} ReadsAreIndexed(answer: nat -> CustRec, i: nat, n: int)
    requires forall j: nat :: answer(j).cid == -1 || answer(j).cid == j
    ensures var rs := ReadsFrom(answer, i, n);
            && (forall j | 0 <= j < |rs| :: rs[j] == answer(i + j) && (j < |rs| - 1 ==> rs[j].cid == i + j))
            && (i + |rs| < n ==> rs != [] && rs[|rs| - 1].cid == -1)
    decreases n - i
  {
    if i < n && answer(i).cid != -1 {
      ReadsAreIndexed(answer, i + 1, n);
    }
  }

  // ---- Any interleaving of the write threads ----

  /** The shared write set and how far each thread has come with its own orders. */
  datatype Board = Board(written: seq<Order>, pos: seq<nat>)

  function PushNext(plans: seq<seq<Order>>, b: Board, t: nat): Board {
    if t < |plans| && t < |b.pos| && b.pos[t] < |plans[t]|
    then Board(b.written + [plans[t][b.pos[t]]], b.pos[t := b.pos[t] + 1])
    else b
  }

  /** The board after the threads took the lock in the order of the schedule. */
  function RunSchedule(plans: seq<seq<Order>>, schedule: seq<nat>): (b: Board)
    ensures |b.pos| == |plans|
  {
    if schedule == [] then Board([], seq(|plans|, _ => 0))
    else PushNext(plans, RunSchedule(plans, schedule[..|schedule| - 1]), schedule[|schedule| - 1])
  }

  predicate Complete(plans: seq<seq<Order>>, schedule: seq<nat>) {
    forall t | 0 <= t < |plans| :: RunSchedule(plans, schedule).pos[t] == |plans[t]|
  }

  /** Thread `t` writes for customer `t`. */
  predicate OwnCustomers(plans: seq<seq<Order>>) {
    forall t, i | 0 <= t < |plans| && 0 <= i < |plans[t]| :: plans[t][i].cid == t
  }

  /** The orders of one customer, in the order they stand in the write set. */
  function Project(orders: seq<Order>, c: Int32): seq<Order> {
    if orders == [] then [] else
      var o := orders[|orders| - 1];
      Project(orders[..|orders| - 1], c) + if o.cid == c then [o] else []
  }

  function Plan(plans: seq<seq<Order>>, c: Int32): seq<Order> {
    if 0 <= c < |plans| then plans[c] else []
  }

  lemma ProjectSnoc(orders: seq<Order>, o: Order, c: Int32)
    ensures Project(orders + [o], c) == Project(orders, c) + if o.cid == c then [o] else []
  {
    assert (orders + [o])[..|orders|] == orders;
  }

  lemma {:induction false} ProjectionIsProgress(plans: seq<seq<Order>>, schedule: seq<nat>, c: Int32)
    requires OwnCustomers(plans)
    ensures var b := RunSchedule(plans, schedule);
            if 0 <= c < |plans| then b.pos[c] <= |plans[c]| && Project(b.written, c) == plans[c][..b.pos[c]]
            else Project(b.written, c) == []
  {
    if schedule != [] {
      var n := |schedule| - 1;
      var (b, t) := (RunSchedule(plans, schedule[..n]), schedule[n]);
      ProjectionIsProgress(plans, schedule[..n], c);
      if t < |plans| && b.pos[t] < |plans[t]| {
        var o := plans[t][b.pos[t]];
        ProjectSnoc(b.written, o, c);
        hide Project, RunSchedule;
        if t == c {
          assert plans[c][..b.pos[c] + 1] == plans[c][..b.pos[c]] + [o];
        }
      }
    }
  }

  /** Under every schedule that lets all threads finish, customer `c`'s part of the write set is its thread's
      orders, in order. */
  lemma CompleteProjection(plans: seq<seq<Order>>, schedule: seq<nat>, c: Int32)
    requires OwnCustomers(plans) && Complete(plans, schedule)
    ensures Project(RunSchedule(plans, schedule).written, c) == Plan(plans, c)
  {
    ProjectionIsProgress(plans, schedule, c);
    if 0 <= c < |plans| {
      assert RunSchedule(plans, schedule).pos[c] == |plans[c]|;
    }
  }

  /** What a write set does to a customer depends only on that customer's part of it. */
  lemma {:induction false} LastWriteOfProject(orders: seq<Order>, c: Int32)
    ensures var p := Project(orders, c);
            LastWrite(OrderOps(orders), c) == if p == [] then None else Some(p[|p| - 1].num)
  {
    if orders != [] {
      var n := |orders| - 1;
      LastWriteOfProject(orders[..n], c);
      assert OrderOps(orders)[..n] == OrderOps(orders[..n]);
    }
  }

  /** Schedule independence: any two complete schedules give write sets with the same effect on every store. */
  lemma ScheduleIndependence(plans: seq<seq<Order>>, s1: seq<nat>, s2: seq<nat>, store: Store)
    requires OwnCustomers(plans) && Complete(plans, s1) && Complete(plans, s2)
    ensures Fold(store, OrderOps(RunSchedule(plans, s1).written)) == Fold(store, OrderOps(RunSchedule(plans, s2).written))
  {
    var (a, b) := (RunSchedule(plans, s1).written, RunSchedule(plans, s2).written);
    forall c
      ensures Lookup(Fold(store, OrderOps(a)), c) == Lookup(Fold(store, OrderOps(b)), c)
    {
      CompleteProjection(plans, s1, c);
      CompleteProjection(plans, s2, c);
      LastWriteOfProject(a, c);
      LastWriteOfProject(b, c);
      FoldLookup(store, OrderOps(a), c);
      FoldLookup(store, OrderOps(b), c);
    }
    StoresEqual(Fold(store, OrderOps(a)), Fold(store, OrderOps(b)));
  }

  /** The plans of the client's write threads, customers 0 to `customers` - 1 with `orders` orders each. */
  function ThreadPlans(readSet: seq<CustRec>, customers: nat, orders: int, typ: Int32): (plans: seq<seq<Order>>)
    requires customers < 0x8000_0000 && forall c: Int32 | 0 <= c < customers :: NoOverflow(readSet, c, orders)
    ensures |plans| == customers && OwnCustomers(plans)
  {
    seq(customers, c requires 0 <= c < customers => ThreadOrders(readSet, c, orders, typ))
  }

  function Sum(s: seq<nat>): nat {
    if s == [] then 0 else Sum(s[..|s| - 1]) + s[|s| - 1]
  }

  lemma {:induction false} SumOneMore(s: seq<nat>, t: nat)
    requires t < |s|
    ensures Sum(s[t := s[t] + 1]) == Sum(s) + 1
  {
    var n := |s| - 1;
    var s' := s[t := s[t] + 1];
    if t == n {
      assert s'[..n] == s[..n];
    } else {
      assert s'[..n] == s[..n][t := s[t] + 1];
      SumOneMore(s[..n], t);
    }
  }

  lemma {:induction false} SumOfEqual(s: seq<nat>, v: nat)
    requires forall i | 0 <= i < |s| :: s[i] == v
    ensures Sum(s) == |s| * v
  {
    if s != [] {
      SumOfEqual(s[..|s| - 1], v);
    }
  }

  /** Every push adds one order, whatever the schedule. */
  lemma {:induction false} WrittenIsSum(plans: seq<seq<Order>>, schedule: seq<nat>)
    ensures var b := RunSchedule(plans, schedule); |b.written| == Sum(b.pos)
  {
    if schedule == [] {
      SumOfEqual(RunSchedule(plans, schedule).pos, 0);
    } else {
      var n := |schedule| - 1;
      var (b, t) := (RunSchedule(plans, schedule[..n]), schedule[n]);
      WrittenIsSum(plans, schedule[..n]);
      if t < |plans| && b.pos[t] < |plans[t]| {
        SumOneMore(b.pos, t);
      }
    }
  }

  /** What a client sends grows with customers times orders, and it fits the stubs' buffers exactly up to this bound. */
  lemma ClientMessageFits(readSet: seq<CustRec>, customers: nat, orders: nat, typ: Int32, schedule: seq<nat>, m: Message)
    requires customers < 0x8000_0000 && forall c: Int32 | 0 <= c < customers :: NoOverflow(readSet, c, orders)
    requires var plans := ThreadPlans(readSet, customers, orders, typ);
             Complete(plans, schedule) && m.writeSet == RunSchedule(plans, schedule).written
    requires m.readSet == readSet && m.LengthsMatch()
    ensures |m.writeSet| == customers * orders
    ensures m.Size() <= BUFFER_SIZE <==> 12 + 8 * |readSet| + 12 * (customers * orders) <= BUFFER_SIZE
  {
    var plans := ThreadPlans(readSet, customers, orders, typ);
    WrittenIsSum(plans, schedule);
    SumOfEqual(RunSchedule(plans, schedule).pos, orders);
  }

  /** One write thread: numbers last + 1, last + 2, ... in this order. */
  lemma {:induction false} ThreadOrdersAre(readSet: seq<CustRec>, cid: Int32, n: nat, typ: Int32, i: nat)
    requires NoOverflow(readSet, cid, n) && i < n
    ensures var last: int := LastOrder(readSet, cid);
            var o := ThreadOrders(readSet, cid, n, typ)[i];
            o.cid == cid && o.num == last + 1 + i && o.typ == typ
  {
    if i < n - 1 {
      ThreadOrdersAre(readSet, cid, n - 1, typ, i);
    }
  }

  /** Under every complete schedule a customer's part of the write set is exactly the numbers behind the last one read,
      in order. */
  lemma ClientOrdersAre(readSet: seq<CustRec>, customers: nat, orders: nat, typ: Int32, schedule: seq<nat>, c: Int32)
    requires customers < 0x8000_0000 && forall d: Int32 | 0 <= d < customers :: NoOverflow(readSet, d, orders)
    requires Complete(ThreadPlans(readSet, customers, orders, typ), schedule)
    ensures var part := Project(RunSchedule(ThreadPlans(readSet, customers, orders, typ), schedule).written, c);
            var last: int := LastOrder(readSet, c);
            && |part| == (if 0 <= c < customers then orders else 0)
            && forall i | 0 <= i < |part| :: part[i].cid == c && part[i].num == last + 1 + i && part[i].typ == typ
  {
    var plans := ThreadPlans(readSet, customers, orders, typ);
    CompleteProjection(plans, schedule, c);
    if 0 <= c < customers {
      forall i | 0 <= i < orders
        ensures var last: int := LastOrder(readSet, c);
                plans[c][i].cid == c && plans[c][i].num == last + 1 + i && plans[c][i].typ == typ
      {
        ThreadOrdersAre(readSet, c, orders, typ, i);
      }
    }
  }

  lemma PushAgain(plans: seq<seq<Order>>, schedule: seq<nat>, t: nat)
    ensures RunSchedule(plans, schedule + [t]) == PushNext(plans, RunSchedule(plans, schedule), t)
  {
    assert (schedule + [t])[..|schedule|] == schedule;
  }

  /** The lock is free again after every push, so the threads can always all finish. */
  lemma CompleteScheduleExists(plans: seq<seq<Order>>) returns (schedule: seq<nat>)
    ensures Complete(plans, schedule)
  {
    schedule := [];
    for t := 0 to |plans|
      invariant forall u | 0 <= u < |plans| ::
                  RunSchedule(plans, schedule).pos[u] == if u < t then |plans[u]| else 0
    {
      while RunSchedule(plans, schedule).pos[t] < |plans[t]|
        invariant RunSchedule(plans, schedule).pos[t] <= |plans[t]|
        invariant forall u | 0 <= u < |plans| && u != t ::
                    RunSchedule(plans, schedule).pos[u] == if u < t then |plans[u]| else 0
        decreases |plans[t]| - RunSchedule(plans, schedule).pos[t]
      {
        PushAgain(plans, schedule, t);
        schedule := schedule + [t];
      }
    }
  }
}
