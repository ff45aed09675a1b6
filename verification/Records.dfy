/** The values the system passes around, and what a sequence of updates does to a customer record. */
module Records {

  /** A C++ `int`: every field of every message and every entry of every table. */
  type Int32 = x: int | -0x8000_0000 <= x < 0x8000_0000

  datatype Option<+T> = None | Some(value: T)

  /** One order of a customer. A customer id of -1 marks an order that was never filled in. */
  datatype Order = Order(cid: Int32, num: Int32, typ: Int32) {
    predicate IsValid() { cid != -1 }
  }

  /** A customer's last order as a client read it; `NO_RECORD` stands for an absent customer. */
  datatype CustRec = CustRec(cid: Int32, last: Int32)

  const NO_RECORD := CustRec(-1, -1)

  datatype Txn = Txn(id: Int32, readSet: seq<CustRec>, writeSet: seq<Order>)

  /** One line of the transaction log: operation 1 prepares, 2 commits, 3 aborts. */
  datatype LogRec = LogRec(txn: Int32, op: Int32, cid: Int32, num: Int32, typ: Int32)

  const PREPARE: Int32 := 1
  const COMMIT: Int32 := 2
  const ABORT: Int32 := 3

  /** One entry of the replicated log: set the last order of customer `arg1` to `arg2`. */
  datatype MapOp = MapOp(opcode: Int32, arg1: Int32, arg2: Int32)

  type Store = map<Int32, Int32>

  function Apply(s: Store, op: MapOp): Store {
    s[op.arg1 := op.arg2]
  }

  /** The store after applying `ops` in order: the last writer of each customer wins. */
  function Fold(s: Store, ops: seq<MapOp>): Store {
    if ops == [] then s else Apply(Fold(s, ops[..|ops| - 1]), ops[|ops| - 1])
  }

  function Lookup(s: Store, c: Int32): Option<Int32> {
    if c in s then Some(s[c]) else None
  }

  /** The value the last operation on customer `c` writes, if there is one. */
  function LastWrite(ops: seq<MapOp>, c: Int32): Option<Int32> {
    if ops == [] then None
    else if ops[|ops| - 1].arg1 == c then Some(ops[|ops| - 1].arg2)
    else LastWrite(ops[..|ops| - 1], c)
  }

  function OrElse<T>(a: Option<T>, b: Option<T>): Option<T> {
    if a.Some? then a else b
  }

  function OpOf(cid: Int32, num: Int32): MapOp {
    MapOp(1, cid, num)
  }

  function OrderOps(orders: seq<Order>): seq<MapOp> {
    seq(|orders|, i requires 0 <= i < |orders| => OpOf(orders[i].cid, orders[i].num))
  }

  function RecOps(recs: seq<LogRec>): seq<MapOp> {
    seq(|recs|, i requires 0 <= i < |recs| => OpOf(recs[i].cid, recs[i].num))
  }

  /** The orders before the first one that was never filled in. */
  function ValidPrefix(orders: seq<Order>): seq<Order> {
    if orders == [] || !orders[0].IsValid() then [] else [orders[0]] + ValidPrefix(orders[1..])
  }

  lemma {:induction false} ValidPrefixIsLongest(orders: seq<Order>)
    ensures ValidPrefix(orders) <= orders
    ensures forall o | o in ValidPrefix(orders) :: o.IsValid()
    ensures var n := |ValidPrefix(orders)|; n < |orders| ==> !orders[n].IsValid()
  {
    if orders != [] && orders[0].IsValid() {
      ValidPrefixIsLongest(orders[1..]);
      assert orders == [orders[0]] + orders[1..];
    }
  }

  lemma StoresEqual(s: Store, t: Store)
    requires forall c :: Lookup(s, c) == Lookup(t, c)
    ensures s == t
  {
    forall c
      ensures (c in s <==> c in t) && (c in s ==> s[c] == t[c])
    {
      assert Lookup(s, c) == Lookup(t, c);
    }
  }

  lemma {:induction false} FoldLookup(s: Store, ops: seq<MapOp>, c: Int32)
    ensures Lookup(Fold(s, ops), c) == OrElse(LastWrite(ops, c), Lookup(s, c))
  {
    if ops != [] {
      FoldLookup(s, ops[..|ops| - 1], c);
    }
  }

  lemma FoldSnoc(s: Store, ops: seq<MapOp>, op: MapOp)
    ensures Fold(s, ops + [op]) == Apply(Fold(s, ops), op)
  {
    assert (ops + [op])[..|ops|] == ops;
  }

  lemma {:induction false} FoldConcat(s: Store, a: seq<MapOp>, b: seq<MapOp>)
    ensures Fold(s, a + b) == Fold(Fold(s, a), b)
  {
    if b == [] {
      assert a + b == a;
    } else {
      FoldConcat(s, a, b[..|b| - 1]);
      assert (a + b)[..|a + b| - 1] == a + b[..|b| - 1];
    }
  }

  lemma {:induction false} LastWriteConcat(a: seq<MapOp>, b: seq<MapOp>, c: Int32)
    ensures LastWrite(a + b, c) == OrElse(LastWrite(b, c), LastWrite(a, c))
  {
    if b == [] {
      assert a + b == a;
    } else {
      LastWriteConcat(a, b[..|b| - 1], c);
      assert (a + b)[..|a + b| - 1] == a + b[..|b| - 1];
    }
  }

  /** `LastWrite` is what its name says: the value at the last index that names the customer. */
  lemma {:induction false} LastWriteIsLast(ops: seq<MapOp>, c: Int32, i: int)
    requires -1 <= i < |ops|
    requires i >= 0 ==> ops[i].arg1 == c
    requires forall j | i < j < |ops| :: ops[j].arg1 != c
    ensures LastWrite(ops, c) == if i < 0 then None else Some(ops[i].arg2)
  {
    if ops != [] && i < |ops| - 1 {
      LastWriteIsLast(ops[..|ops| - 1], c, i);
    }
  }

  /** Replaying a log over a state that already holds some prefix of it gives the replay from scratch. */
  lemma FoldAbsorbsPrefix(base: Store, log: seq<MapOp>, k: nat)
    requires k <= |log|
    ensures Fold(Fold(base, log[..k]), log) == Fold(base, log)
  {
    forall c
      ensures Lookup(Fold(Fold(base, log[..k]), log), c) == Lookup(Fold(base, log), c)
    {
      FoldLookup(Fold(base, log[..k]), log, c);
      FoldLookup(base, log[..k], c);
      FoldLookup(base, log, c);
      assert log == log[..k] + log[k..];
      LastWriteConcat(log[..k], log[k..], c);
    }
    StoresEqual(Fold(Fold(base, log[..k]), log), Fold(base, log));
  }

  /** Leaving one operation out goes unnoticed by every customer but its own. */
  lemma FoldDropOneElsewhere(base: Store, pre: seq<MapOp>, op: MapOp, post: seq<MapOp>, c: Int32)
    requires c != op.arg1 || LastWrite(post, c).Some?
    ensures Lookup(Fold(base, pre + post), c) == Lookup(Fold(base, pre + [op] + post), c)
  {
    FoldLookup(base, pre + post, c);
    FoldLookup(base, pre + [op] + post, c);
    LastWriteConcat(pre, post, c);
    LastWriteConcat(pre + [op], post, c);
    LastWriteConcat(pre, [op], c);
    assert [op][..0] == [];
  }

  /** Exactly when leaving one operation out changes nothing. */
  lemma FoldDropOne(base: Store, pre: seq<MapOp>, op: MapOp, post: seq<MapOp>)
    ensures Fold(base, pre + post) == Fold(base, pre + [op] + post)
            <==> LastWrite(post, op.arg1).Some? || Lookup(Fold(base, pre), op.arg1) == Some(op.arg2)
  {
    var c := op.arg1;
    FoldLookup(base, pre, c);
    FoldLookup(base, pre + post, c);
    FoldLookup(base, pre + [op] + post, c);
    LastWriteConcat(pre, post, c);
    LastWriteConcat(pre + [op], post, c);
    LastWriteConcat(pre, [op], c);
    if LastWrite(post, c).Some? || Lookup(Fold(base, pre), c) == Some(op.arg2) {
      forall d
        ensures Lookup(Fold(base, pre + post), d) == Lookup(Fold(base, pre + [op] + post), d)
      {
        if d != c {
          FoldDropOneElsewhere(base, pre, op, post, d);
        }
      }
      StoresEqual(Fold(base, pre + post), Fold(base, pre + [op] + post));
    }
  }

  lemma {:induction false} FoldKeepsCustomers(s: Store, ops: seq<MapOp>)
    ensures s.Keys <= Fold(s, ops).Keys
  {
    if ops != [] {
      FoldKeepsCustomers(s, ops[..|ops| - 1]);
    }
  }
}
