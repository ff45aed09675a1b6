/** No update is lost: order numbers add up over every run of client-built transactions. */
module Conservation {
  import opened Records
  import opened ResourceManager
  import opened ClientWrites
  import opened Serializability

  /** The second line of a client's input: customers 0 to `customers` - 1 place `orders` orders each. */
  datatype Input = Input(customers: nat, orders: nat)

  predicate InputFits(readSet: seq<CustRec>, input: Input) {
    input.customers < 0x8000_0000
    && forall c: Int32 | 0 <= c < input.customers :: NoOverflow(readSet, c, input.orders)
  }

  /** The client read customer `c` as present for every customer it writes. */
  predicate ReadsWhatItWrites(readSet: seq<CustRec>, input: Input) {
    input.customers <= |readSet| && forall c | 0 <= c < input.customers :: readSet[c].cid == c
  }

  /** For an honest server's answers, the client has read what it writes exactly when it writes nothing, or the
      last customer it writes was read and present. */
  lemma ReadsCoverWrites(answer: nat -> CustRec, n: int, input: Input)
    requires forall j: nat :: answer(j).cid == -1 || answer(j).cid == j
    ensures var rs := ReadsFrom(answer, 0, n);
            ReadsWhatItWrites(rs, input)
            <==> input.customers == 0 || (input.customers <= |rs| && rs[input.customers - 1].cid != -1)
  {
    ReadsAreIndexed(answer, 0, n);
    var rs := ReadsFrom(answer, 0, n);
    if 0 < input.customers <= |rs| {
      var last := input.customers - 1;
      assert rs[last] == answer(0 + last);
      assert forall c | 0 <= c < last :: rs[c].cid == 0 + c;
    }
  }

  /** The reads a client collects: the answer about customer `j` is at index `j`, or tells that there is none. */
  predicate Indexed(readSet: seq<CustRec>) {
    forall j | 0 <= j < |readSet| :: readSet[j] == NO_RECORD || readSet[j].cid == j
  }

  lemma ClientReadsIndexed(answer: nat -> CustRec, n: int)
    requires forall j: nat :: answer(j) == NO_RECORD || answer(j).cid == j
    ensures Indexed(ReadsFrom(answer, 0, n))
  {
    ReadsAreIndexed(answer, 0, n);
    var rs := ReadsFrom(answer, 0, n);
    assert forall j | 0 <= j < |rs| :: rs[j] == answer(0 + j);
  }

  /** The write set is what the client's threads build under some schedule, whatever the client has read. */
  ghost predicate Built(txn: Txn, input: Input) {
    Indexed(txn.readSet) && InputFits(txn.readSet, input)
    && exists typ: Int32, schedule ::
         var plans := ThreadPlans(txn.readSet, input.customers, input.orders, typ);
         Complete(plans, schedule) && txn.writeSet == RunSchedule(plans, schedule).written
  }

  /** The orders an input places for customer `c`. */
  function Placed(input: Input, c: Int32): nat {
    if 0 <= c < input.customers then input.orders else 0
  }

  function Total(inputs: seq<Input>, c: Int32): nat {
    if inputs == [] then 0 else Total(inputs[..|inputs| - 1], c) + Placed(inputs[|inputs| - 1], c)
  }

  lemma {:induction false} LastThreadOrder(readSet: seq<CustRec>, cid: Int32, n: int, typ: Int32)
    requires NoOverflow(readSet, cid, n) && n > 0
    ensures var os := ThreadOrders(readSet, cid, n, typ);
            var last: int := LastOrder(readSet, cid);
            os[|os| - 1].num == last + n
  {
  }

  /** What a built write set makes of customer `c`: the last order read plus the number of orders placed. */
  lemma BuiltLastWrite(txn: Txn, input: Input, c: Int32)
    requires Built(txn, input)
    ensures var last: int := LastOrder(txn.readSet, c);
            if Placed(input, c) > 0
            then LastWrite(OrderOps(txn.writeSet), c).Some? && LastWrite(OrderOps(txn.writeSet), c).value == last + input.orders
            else LastWrite(OrderOps(txn.writeSet), c) == None
  {
    var typ: Int32, schedule :|
      var plans := ThreadPlans(txn.readSet, input.customers, input.orders, typ);
      Complete(plans, schedule) && txn.writeSet == RunSchedule(plans, schedule).written;
    var plans := ThreadPlans(txn.readSet, input.customers, input.orders, typ);
    CompleteProjection(plans, schedule, c);
    LastWriteOfProject(txn.writeSet, c);
    hide RunSchedule, Complete, LastWrite, OrderOps, Project;
    if 0 <= c < input.customers {
      assert Plan(plans, c) == ThreadOrders(txn.readSet, c, input.orders, typ);
      if input.orders > 0 {
        LastThreadOrder(txn.readSet, c, input.orders, typ);
      }
    }
  }

  /** Every order of a built write set is valid, so the whole write set is its valid prefix. */
  lemma {:induction false} ScheduleIsValid(plans: seq<seq<Order>>, schedule: seq<nat>)
    requires OwnCustomers(plans)
    ensures forall i | 0 <= i < |RunSchedule(plans, schedule).written| :: RunSchedule(plans, schedule).written[i].IsValid()
  {
    if schedule != [] {
      ScheduleIsValid(plans, schedule[..|schedule| - 1]);
    }
  }

  lemma {:induction false} AllValidIsPrefix(orders: seq<Order>)
    requires forall i | 0 <= i < |orders| :: orders[i].IsValid()
    ensures ValidPrefix(orders) == orders
  {
    if orders != [] {
      AllValidIsPrefix(orders[1..]);
    }
  }

  lemma BuiltEffect(txn: Txn, input: Input)
    requires Built(txn, input)
    ensures Effect(txn) == OrderOps(txn.writeSet)
  {
    var typ: Int32, schedule :|
      var plans := ThreadPlans(txn.readSet, input.customers, input.orders, typ);
      Complete(plans, schedule) && txn.writeSet == RunSchedule(plans, schedule).written;
    ScheduleIsValid(ThreadPlans(txn.readSet, input.customers, input.orders, typ), schedule);
    hide RunSchedule, Complete, OrderOps;
    AllValidIsPrefix(txn.writeSet);
  }

  /** A customer's number on record; an absent customer has had no orders. */
  function NumberOf(s: Store, c: Int32): int {
    if c in s then s[c] else 0
  }

  /** The client read customer `c` as present. */
  predicate ReadPresent(readSet: seq<CustRec>, c: Int32) {
    0 <= c < |readSet| && readSet[c].cid == c
  }

  /** The transaction places nothing for the customer, or there is nothing to continue from, or the client has read
      the number it continues from. */
  predicate Continues(now: Store, txn: Txn, input: Input, c: Int32) {
    Placed(input, c) == 0 || NumberOf(now, c) == 0 || (NumberOf(now, c) > 0 && ReadPresent(txn.readSet, c))
  }

  /** The client counts again from 1 although more orders are on record than it places. */
  predicate Restarts(now: Store, txn: Txn, input: Input, c: Int32) {
    0 < Placed(input, c) < NumberOf(now, c) && !ReadPresent(txn.readSet, c)
  }

  predicate ReadsConfirmed(now: Store, readSet: seq<CustRec>) {
    forall i | 0 <= i < |readSet| :: Confirmed(now, readSet[i])
  }

  /** The number a write thread continues from: the one on record if it was read and is positive, else 0. */
  lemma ContinuesFrom(now: Store, txn: Txn, c: Int32)
    requires Indexed(txn.readSet) && ReadsConfirmed(now, txn.readSet)
    ensures var last: int := LastOrder(txn.readSet, c);
            last == if ReadPresent(txn.readSet, c) && NumberOf(now, c) > 0 then NumberOf(now, c) else 0
  {
    if 0 <= c < |txn.readSet| {
      assert Confirmed(now, txn.readSet[c]);
    }
  }

  /** What a committed transaction makes of a customer's number, and exactly when it adds the orders it placed. */
  lemma OneTransactionAdds(now: Store, txn: Txn, input: Input, c: Int32)
    requires Built(txn, input) && ReadsConfirmed(now, txn.readSet)
    ensures var (v, placed, after) := (NumberOf(now, c), Placed(input, c), NumberOf(Fold(now, Effect(txn)), c));
            && (after == v + placed <==> Continues(now, txn, input, c))
            && (v >= 0 ==> 0 <= after <= v + placed)
            && (after < v <==> Restarts(now, txn, input, c))
  {
    BuiltEffect(txn, input);
    BuiltLastWrite(txn, input, c);
    ContinuesFrom(now, txn, c);
    FoldLookup(now, OrderOps(txn.writeSet), c);
    hide Built, Fold, Effect, OrderOps, LastWrite, LastOrder, ReadsConfirmed, Indexed;
    assert Lookup(now, c) == if c in now then Some(now[c]) else None;
  }

  lemma SequentialPrefix(base: Store, history: seq<Txn>, m: nat)
    requires Sequential(base, history) && m <= |history|
    ensures Sequential(base, history[..m])
  {
    forall j, i | 0 <= j < m && 0 <= i < |history[..m][j].readSet|
      ensures Confirmed(Serial(base, history[..m][..j]), history[..m][j].readSet[i])
    {
      assert history[..m][..j] == history[..j] && history[..m][j] == history[j];
    }
  }

  lemma SerialReads(base: Store, history: seq<Txn>, m: nat)
    requires Sequential(base, history) && m < |history|
    ensures ReadsConfirmed(Serial(base, history[..m]), history[m].readSet)
  {
    hide Confirmed, Serial;
  }

  ghost predicate AllBuilt(history: seq<Txn>, inputs: seq<Input>) {
    |history| == |inputs| && forall m | 0 <= m < |inputs| :: Built(history[m], inputs[m])
  }

  /** Every transaction that places orders for the customer continues from the number its predecessors left. */
  predicate AllContinue(base: Store, history: seq<Txn>, inputs: seq<Input>, c: Int32)
    requires |history| == |inputs|
  {
    forall m | 0 <= m < |history| :: Continues(Serial(base, history[..m]), history[m], inputs[m], c)
  }

  lemma AllContinueStep(base: Store, history: seq<Txn>, inputs: seq<Input>, c: Int32)
    requires |history| == |inputs| > 0
    ensures var n := |history| - 1;
            AllContinue(base, history, inputs, c)
            <==> AllContinue(base, history[..n], inputs[..n], c)
                 && Continues(Serial(base, history[..n]), history[n], inputs[n], c)
  {
    hide Continues, Serial;
    var n := |history| - 1;
    assert forall m | 0 <= m < n :: history[..n][..m] == history[..m];
  }

  /** Conservation over a serial history, with its exact condition: no number ever exceeds what was placed, and it
      falls short exactly when some transaction did not continue from the number it found. */
  lemma {:induction false} SerialConserves(base: Store, history: seq<Txn>, inputs: seq<Input>, c: Int32)
    requires AllBuilt(history, inputs) && Sequential(base, history) && NumberOf(base, c) >= 0
    ensures var (now, all) := (NumberOf(Serial(base, history), c), NumberOf(base, c) + Total(inputs, c));
            0 <= now <= all && (now == all <==> AllContinue(base, history, inputs, c))
  {
    if history != [] {
      var n := |history| - 1;
      SequentialPrefix(base, history, n);
      SerialReads(base, history, n);
      hide Sequential, Built, ReadsConfirmed, AllContinue, Continues, NumberOf, Placed, Fold, Effect;
      SerialConserves(base, history[..n], inputs[..n], c);
      AllContinueStep(base, history, inputs, c);
      OneTransactionAdds(Serial(base, history[..n]), history[n], inputs[n], c);
    }
  }

  /** Conservation over every run: outside commits every resource manager holds, for every customer, the initial
      number plus all the orders the committed transactions placed, exactly when each of those that placed some
      continued from the number it found; otherwise orders are missing, and never are there too many. */
  lemma NoUpdateIsLost(base: Store, n: nat, events: seq<Event>, s: State, inputs: seq<Input>, i: nat, c: Int32)
    requires n > 0 && Reaches(base, n, events, s) && i < n && |s.rms| == n && !s.phase.Committing?
    requires AllBuilt(s.history, inputs) && NumberOf(base, c) >= 0
    ensures var (now, all) := (NumberOf(s.rms[i], c), NumberOf(base, c) + Total(inputs, c));
            0 <= now <= all && (now == all <==> AllContinue(base, s.history, inputs, c))
  {
    Reached(base, n, events, s);
    StoresAreSerial(base, n, events, s, i);
    hide Reaches, AllBuilt, Serial, Vote, ReadsKnown, Progress, AllContinue;
    assert Sequential(base, s.history);
    hide Inv, Sequential;
    SerialConserves(base, s.history, inputs, c);
  }

  /** A client that reads what it writes always continues. */
  lemma CoveredContinues(now: Store, txn: Txn, input: Input, c: Int32)
    requires ReadsWhatItWrites(txn.readSet, input) && NumberOf(now, c) >= 0
    ensures Continues(now, txn, input, c)
  {
  }

  /** Over clients that read what they write nothing is lost, whatever the interleaving. */
  lemma CoveredLoseNothing(base: Store, n: nat, events: seq<Event>, s: State, inputs: seq<Input>, i: nat, c: Int32)
    requires n > 0 && Reaches(base, n, events, s) && i < n && |s.rms| == n && !s.phase.Committing?
    requires AllBuilt(s.history, inputs) && NumberOf(base, c) >= 0
    requires forall m | 0 <= m < |inputs| :: ReadsWhatItWrites(s.history[m].readSet, inputs[m])
    ensures NumberOf(s.rms[i], c) == NumberOf(base, c) + Total(inputs, c)
  {
    NoUpdateIsLost(base, n, events, s, inputs, i, c);
    Reached(base, n, events, s);
    assert Sequential(base, s.history);
    hide Reaches, Built, Serial, Continues, Inv, Sequential, ReadsWhatItWrites, NumberOf, Total;
    forall m | 0 <= m < |s.history|
      ensures Continues(Serial(base, s.history[..m]), s.history[m], inputs[m], c)
    {
      SequentialPrefix(base, s.history, m);
      assert AllBuilt(s.history[..m], inputs[..m]);
      SerialConserves(base, s.history[..m], inputs[..m], c);
      CoveredContinues(Serial(base, s.history[..m]), s.history[m], inputs[m], c);
    }
  }

  /** No number on record is ever smaller at a later boundary between transactions. */
  ghost predicate NeverFalls(base: Store, history: seq<Txn>, c: Int32) {
    forall i, j | 0 <= i <= j <= |history| ::
      NumberOf(Serial(base, history[..i]), c) <= NumberOf(Serial(base, history[..j]), c)
  }

  ghost predicate NoneRestarts(base: Store, history: seq<Txn>, inputs: seq<Input>, c: Int32)
    requires |history| == |inputs|
  {
    forall m | 0 <= m < |history| :: !Restarts(Serial(base, history[..m]), history[m], inputs[m], c)
  }

  /** Exactly when one transaction of a history makes a number fall. */
  lemma FallsAt(base: Store, history: seq<Txn>, inputs: seq<Input>, m: nat, c: Int32)
    requires AllBuilt(history, inputs) && Sequential(base, history) && m < |history|
    ensures NumberOf(Serial(base, history[..m + 1]), c) < NumberOf(Serial(base, history[..m]), c)
            <==> Restarts(Serial(base, history[..m]), history[m], inputs[m], c)
  {
    SerialReads(base, history, m);
    hide Sequential, Built, NumberOf, ReadsConfirmed, Restarts, Continues, Fold;
    OneTransactionAdds(Serial(base, history[..m]), history[m], inputs[m], c);
    assert history[..m + 1] == history[..m] + [history[m]];
    SerialSnoc(base, history[..m], history[m]);
  }

  lemma {:induction false} RisesBetween(base: Store, history: seq<Txn>, inputs: seq<Input>, i: nat, j: nat, c: Int32)
    requires AllBuilt(history, inputs) && Sequential(base, history) && NoneRestarts(base, history, inputs, c)
    requires i <= j <= |history|
    ensures NumberOf(Serial(base, history[..i]), c) <= NumberOf(Serial(base, history[..j]), c)
    decreases j - i
  {
    if i < j {
      assert |history| == |inputs| && !Restarts(Serial(base, history[..j - 1]), history[j - 1], inputs[j - 1], c);
      hide *;
      RisesBetween(base, history, inputs, i, j - 1, c);
      FallsAt(base, history, inputs, j - 1, c);
    }
  }

  /** Exactly when a customer's number never falls over a run: no transaction restarts it. */
  lemma NumbersNeverFall(base: Store, n: nat, events: seq<Event>, s: State, inputs: seq<Input>, c: Int32)
    requires n > 0 && Reaches(base, n, events, s) && AllBuilt(s.history, inputs)
    ensures NeverFalls(base, s.history, c) <==> NoneRestarts(base, s.history, inputs, c)
  {
    Reached(base, n, events, s);
    hide Reaches, AllBuilt, Serial, Vote, ReadsKnown, Progress, Restarts, NumberOf;
    assert Sequential(base, s.history);
    hide Inv, Sequential;
    if NoneRestarts(base, s.history, inputs, c) {
      forall i, j | 0 <= i <= j <= |s.history|
        ensures NumberOf(Serial(base, s.history[..i]), c) <= NumberOf(Serial(base, s.history[..j]), c)
      {
        RisesBetween(base, s.history, inputs, i, j, c);
      }
    } else {
      assert |s.history| == |inputs| by {
        BuiltLengths(s.history, inputs);
      }
      var m :| 0 <= m < |s.history| && Restarts(Serial(base, s.history[..m]), s.history[m], inputs[m], c);
      FallsAt(base, s.history, inputs, m, c);
    }
  }

  lemma BuiltLengths(history: seq<Txn>, inputs: seq<Input>)
    requires AllBuilt(history, inputs)
    ensures |history| == |inputs|
  {
  }

  // ---- Each order number is given out once ----

  /** A built write set's part for customer `c`: the placed orders, numbered from the one continued from. */
  lemma BuiltOrders(txn: Txn, input: Input, c: Int32)
    requires Built(txn, input)
    ensures var part := Project(txn.writeSet, c);
            var last: int := LastOrder(txn.readSet, c);
            |part| == Placed(input, c) && forall i | 0 <= i < |part| :: part[i].num == last + 1 + i
  {
    var typ: Int32, schedule :|
      var plans := ThreadPlans(txn.readSet, input.customers, input.orders, typ);
      Complete(plans, schedule) && txn.writeSet == RunSchedule(plans, schedule).written;
    ClientOrdersAre(txn.readSet, input.customers, input.orders, typ, schedule, c);
    hide RunSchedule, Complete, Project, LastOrder, ThreadPlans;
  }

  /** The customer's orders in a history, in the order they were committed. */
  function OrdersOf(history: seq<Txn>, c: Int32): seq<Order> {
    if history == [] then [] else
      OrdersOf(history[..|history| - 1], c) + Project(history[|history| - 1].writeSet, c)
  }

  /** Over a serial history in which all continue, a customer's committed orders carry the numbers behind the initial
      one, each exactly once and in order. */
  lemma {:induction false} NumbersGivenOnce(base: Store, history: seq<Txn>, inputs: seq<Input>, c: Int32)
    requires AllBuilt(history, inputs) && Sequential(base, history) && NumberOf(base, c) >= 0
    requires AllContinue(base, history, inputs, c)
    ensures var orders := OrdersOf(history, c);
            && |orders| == Total(inputs, c)
            && forall i | 0 <= i < |orders| :: orders[i].num == NumberOf(base, c) + 1 + i
  {
    if history != [] {
      var n := |history| - 1;
      SequentialPrefix(base, history, n);
      SerialReads(base, history, n);
      AllContinueStep(base, history, inputs, c);
      var (now, txn) := (Serial(base, history[..n]), history[n]);
      hide Sequential, AllContinue, Serial, Project;
      NumbersGivenOnce(base, history[..n], inputs[..n], c);
      SerialConserves(base, history[..n], inputs[..n], c);
      BuiltOrders(txn, inputs[n], c);
      ContinuesFrom(now, txn, c);
      hide Built, ReadsConfirmed, Fold;
    }
  }

  /** The same over every run. */
  lemma NumbersGivenOnceInRuns(base: Store, n: nat, events: seq<Event>, s: State, inputs: seq<Input>, c: Int32)
    requires n > 0 && Reaches(base, n, events, s) && AllBuilt(s.history, inputs) && NumberOf(base, c) >= 0
    requires AllContinue(base, s.history, inputs, c)
    ensures var orders := OrdersOf(s.history, c);
            && |orders| == Total(inputs, c)
            && forall i | 0 <= i < |orders| :: orders[i].num == NumberOf(base, c) + 1 + i
  {
    Reached(base, n, events, s);
    hide Reaches, AllBuilt, Serial, Vote, ReadsKnown, Progress, AllContinue, OrdersOf;
    assert Sequential(base, s.history);
    hide Inv, Sequential;
    NumbersGivenOnce(base, s.history, inputs, c);
  }
}
