/** The transaction manager: it numbers transactions and drives two-phase commit, one at a time. */
module Coordinator {
  import opened Records
  import opened ResourceManager

  /** What connecting to a cluster yields: its primary, else its backup, else nothing. */
  datatype Route = ToPrimary | ToBackup | Down

  /** The manager's connection to a node during one transaction: it works, or it breaks before the prepare arrives,
      before its answer comes back, or before the decision arrives. Nothing is heard over it afterwards. */
  datatype Link = Works | Deaf | Mute | Gone

  /** The network's behaviour during one transaction. */
  datatype Env = Env(route: nat -> Route, link: nat -> Link, onPrepare: nat -> nat -> bool, onCommit: nat -> nat -> Net)

  /** Every id is below the counter and every record is filed under its own transaction. */
  predicate LogBelow(d: TxnLog, next: Int32) {
    forall id | id in d :: id < next && forall r | r in d[id] :: r.txn == id
  }

  /** A committed transaction in memory: every prepare record followed by its commit record. */
  function Paired(id: Int32, recs: seq<LogRec>): seq<LogRec> {
    if recs == [] then [] else
      var r := recs[|recs| - 1];
      Paired(id, recs[..|recs| - 1]) + [r, CommitRec(id, r)]
  }

  lemma {:induction false} NewTxnLogIs(id: Int32, recs: seq<LogRec>)
    requires forall r | r in recs :: r.txn == id
    ensures NewTxnLog(id, recs) == if recs == [] then map[] else map[id := Paired(id, recs)]
  {
    if recs != [] {
      var (init, r) := (recs[..|recs| - 1], recs[|recs| - 1]);
      assert r in recs;
      assert forall q | q in init :: q in recs;
      NewTxnLogIs(id, init);
      assert Entry(NewTxnLog(id, init), id) == Paired(id, init);
      assert Paired(id, init) + [r] + [CommitRec(id, r)] == Paired(id, recs);
    }
  }

  lemma {:induction false} PairedAllOf(id: Int32, recs: seq<LogRec>)
    requires forall r | r in recs :: r.txn == id
    ensures forall r | r in Paired(id, recs) :: r.txn == id
  {
    if recs != [] {
      assert forall q | q in recs[..|recs| - 1] :: q in recs;
      PairedAllOf(id, recs[..|recs| - 1]);
    }
  }

  lemma PrepareKeepsLogBelow(n: Node, txn: Txn, connect: nat -> bool, next: Int32)
    requires n.Valid() && LogBelow(n.txnLog, txn.id) && txn.id < next
    ensures LogBelow(Prepared(n, txn, connect).txnLog, next)
  {
  }

  lemma CommitKeepsLogBelow(n: Node, id: Int32, nets: nat -> Net, next: Int32)
    requires n.Valid() && LogBelow(n.txnLog, next) && id < next
    ensures LogBelow(Committed(n, id, nets).txnLog, next)
  {
    NewTxnLogIs(id, Entry(n.txnLog, id));
    PairedAllOf(id, Entry(n.txnLog, id));
  }

  lemma AbortKeepsLogBelow(n: Node, id: Int32, next: Int32)
    requires n.Valid() && LogBelow(n.txnLog, next) && id < next
    ensures LogBelow(Aborted(n, id).txnLog, next)
  {
  }

  /** A yes vote followed by commit on a node without a gap applies exactly the valid prefix of the writes. */
  lemma CommitAppliesWrites(n: Node, txn: Txn, connect: nat -> bool, nets: nat -> Net)
    requires n.Valid() && n.Gap() == 0 && txn.id !in n.txnLog && Vote(n.record, txn.readSet)
    ensures var r := Committed(Prepared(n, txn, connect), txn.id, nets);
            r.record == Fold(n.record, OrderOps(ValidPrefix(txn.writeSet))) && r.Gap() == 0
  {
    CommitFolds(Prepared(n, txn, connect), txn.id, nets);
    RecOpsOfPrepare(txn.id, ValidPrefix(txn.writeSet));
  }

  /** The commit of `id` carries the writes of the transaction just prepared under it, whatever they are. */
  ghost predicate CommitsOwnWrites(d: TxnLog, id: Int32) {
    forall txn: Txn | txn.id == id :: RecOps(Entry(InsertPrepared(d, txn), id)) == OrderOps(ValidPrefix(txn.writeSet))
  }

  /** Preparing never overwrites an entry, so a commit can be trusted exactly when its id is new to the node. */
  lemma OwnWritesIffFreshId(d: TxnLog, id: Int32)
    ensures CommitsOwnWrites(d, id) <==> id !in d
  {
    if id in d {
      var none := Txn(id, [], []);
      var one := Txn(id, [], [Order(0, 0, 0)]);
      assert ValidPrefix(one.writeSet) == [Order(0, 0, 0)];
      assert InsertPrepared(d, none) == d == InsertPrepared(d, one);
      assert |OrderOps(ValidPrefix(none.writeSet))| == 0 && |OrderOps(ValidPrefix(one.writeSet))| == 1;
    } else {
      forall txn: Txn | txn.id == id
        ensures RecOps(Entry(InsertPrepared(d, txn), id)) == OrderOps(ValidPrefix(txn.writeSet))
      {
        RecOpsOfPrepare(id, ValidPrefix(txn.writeSet));
      }
    }
  }

  /** A commit on a node without a gap, whatever put the entry there. */
  lemma CommitFolds(n: Node, id: Int32, nets: nat -> Net)
    requires n.Valid() && n.Gap() == 0
    ensures var r := Committed(n, id, nets);
            && r.record == Fold(n.record, RecOps(Entry(n.txnLog, id))) && r.Gap() == 0
            && r.txnLog == NewTxnLog(id, Entry(n.txnLog, id))
  {
    AdminRunFolds(n, Entry(n.txnLog, id), nets);
    AdminRunKeeps(n, Entry(n.txnLog, id), nets);
  }

  lemma OneValidOrder(o: Order)
    requires o.IsValid()
    ensures ValidPrefix([o]) == [o]
  {
    assert [o][1..] == [] && ValidPrefix([]) == [];
    assert [o] + [] == [o];
  }

  /** A restarted manager numbers from 0 again. Two transactions numbered 0 at a fresh node: the second is voted for
      and committed, but what the commit writes is the first one's order again. */
  lemma ReusedIdCommitsOldWrites(connect: nat -> bool, nets: nat -> Net, again: nat -> bool, later: nat -> Net)
    ensures var start := Booted(map[], map[], 0, 1);
            var (first, second) := (Txn(0, [], [Order(5, 1, 1)]), Txn(0, [], [Order(6, 9, 1)]));
            var one := Committed(Prepared(start, first, connect), 0, nets);
            var two := Committed(Prepared(one, second, again), 0, later);
            Vote(one.record, second.readSet) && one.record == two.record == map[5 := 1]
  {
    var start := Booted(map[], map[], 0, 1);
    var (first, second) := (Txn(0, [], [Order(5, 1, 1)]), Txn(0, [], [Order(6, 9, 1)]));
    var one := Committed(Prepared(start, first, connect), 0, nets);
    var (r, op) := (PrepareRec(0, Order(5, 1, 1)), OpOf(5, 1));
    OneValidOrder(Order(5, 1, 1));
    hide ValidPrefix, Fold, NewTxnLog, RecOps, Committed;
    var p := Prepared(start, first, connect);
    assert Entry(p.txnLog, 0) == [r];
    CommitFolds(p, 0, nets);
    OpsOfOne(r);
    FoldOne(map[], op);
    NewTxnLogIs(0, [r]);
    PairedOne(0, r);
    assert Entry(one.txnLog, 0) == [r, CommitRec(0, r)];
    CommitFolds(Prepared(one, second, again), 0, later);
    OpsOfPair(0, r);
    FoldConcat(map[5 := 1], [op], [op]);
    FoldOne(map[5 := 1], op);
    assert [op] + [op] == [op, op];
  }

  lemma OpsOfOne(r: LogRec)
    ensures RecOps([r]) == [OpOf(r.cid, r.num)]
  {
  }

  lemma OpsOfPair(id: Int32, r: LogRec)
    ensures RecOps([r, CommitRec(id, r)]) == [OpOf(r.cid, r.num), OpOf(r.cid, r.num)]
  {
  }

  lemma PairedOne(id: Int32, r: LogRec)
    ensures Paired(id, [r]) == [r, CommitRec(id, r)]
  {
    assert [r][..0] == [] && Paired(id, []) == [];
    assert [] + [r, CommitRec(id, r)] == [r, CommitRec(id, r)];
  }

  lemma FoldOne(s: Store, op: MapOp)
    ensures Fold(s, [op]) == Apply(s, op)
  {
    assert [op][..0] == [] && Fold(s, []) == s;
    assert Fold(s, [op]) == Apply(Fold(s, [op][..0]), op);
  }

  ghost predicate Distinct(nodes: seq<LaptopFactory>) {
    forall i, j | 0 <= i < j < |nodes| :: nodes[i] != nodes[j]
  }

  ghost function Views(nodes: seq<LaptopFactory>): (vs: seq<Node>)
    reads nodes
    ensures |vs| == |nodes| && forall i | 0 <= i < |nodes| :: vs[i] == nodes[i].View()
  {
    if nodes == [] then [] else Views(nodes[..|nodes| - 1]) + [nodes[|nodes| - 1].View()]
  }

  ghost predicate HaveViews(nodes: seq<LaptopFactory>, vs: seq<Node>)
    reads nodes
  {
    |nodes| == |vs| && forall k | 0 <= k < |nodes| :: nodes[k].View() == vs[k]
  }

  /** What asking does to a node. */
  function Asked(n: Node, txn: Txn, connect: nat -> bool, link: Link): (r: Node)
    requires n.Valid()
    ensures r.Valid()
  {
    if link == Deaf then n else Prepared(n, txn, connect)
  }

  /** The nodes after the prepare loop asked the first `asked` of them. */
  predicate AskedFirst(was: seq<Node>, vs: seq<Node>, txn: Txn, env: Env, asked: nat) {
    |vs| == |was|
    && forall k | 0 <= k < |vs| && was[k].Valid() ::
         vs[k] == if k < asked then Asked(was[k], txn, env.onPrepare(k), env.link(k)) else was[k]
  }

  /** What a decision does to a node. */
  function Decided(n: Node, id: Int32, allOk: bool, nets: nat -> Net, link: Link): (r: Node)
    requires n.Valid()
    ensures r.Valid()
  {
    if link != Works then n else if allOk then Committed(n, id, nets) else Aborted(n, id)
  }

  /** The nodes after the decision loop told the first `told` of them. */
  predicate ToldFirst(was: seq<Node>, vs: seq<Node>, id: Int32, allOk: bool, env: Env, told: nat) {
    |vs| == |was|
    && forall k | 0 <= k < |vs| && was[k].Valid() ::
         vs[k] == if k < told then Decided(was[k], id, allOk, env.onCommit(k), env.link(k)) else was[k]
  }

  ghost predicate AllReady(nodes: seq<LaptopFactory>)
    reads nodes
  {
    forall i | 0 <= i < |nodes| :: nodes[i].Valid() && nodes[i].arq == []
  }

  /** The manager hears "No" only from a node whose answer arrives; any other answer, also none, passes for a yes. */
  predicate SaysNo(n: Node, readSet: seq<CustRec>, link: Link) {
    (link == Works || link == Gone) && !Vote(n.record, readSet)
  }

  ghost predicate NoneSaysNo(was: seq<Node>, readSet: seq<CustRec>, link: nat -> Link) {
    forall i | 0 <= i < |was| :: !SaysNo(was[i], readSet, link(i))
  }

  /** One node's share of an outcome: it applies exactly the valid prefix of the writes, or keeps its records. */
  predicate OneOutcome(was: Node, now: Node, writeSet: seq<Order>, ok: bool) {
    && (was.Gap() == 0 ==> now.Gap() == 0)
    && if ok then was.Gap() == 0 ==> now.record == Fold(was.record, OrderOps(ValidPrefix(writeSet)))
       else now.record == was.record
  }

  /** What a transaction comes to: it goes through unless some node was heard to say "No", and then every node whose
      connection held applies it. */
  ghost predicate TxnOutcome(was: seq<Node>, vs: seq<Node>, txn: Txn, link: nat -> Link, ok: bool) {
    && |vs| == |was| && (ok <==> NoneSaysNo(was, txn.readSet, link))
    && forall k | 0 <= k < |vs| :: OneOutcome(was[k], vs[k], txn.writeSet, ok && link(k) == Works)
  }

  lemma OutcomeForgetsId(was: seq<Node>, vs: seq<Node>, txn: Txn, id: Int32, link: nat -> Link, ok: bool)
    ensures TxnOutcome(was, vs, txn.(id := id), link, ok) <==> TxnOutcome(was, vs, txn, link, ok)
  {
  }

  /** All or nothing, over every connected node. */
  ghost predicate AllOrNothing(was: seq<Node>, vs: seq<Node>, txn: Txn, ok: bool) {
    |vs| == |was| && forall k | 0 <= k < |vs| :: OneOutcome(was[k], vs[k], txn.writeSet, ok)
  }

  /** An order that changes the given records. */
  lemma SomeWriteShows(record: Store) returns (o: Order)
    ensures o.IsValid() && Fold(record, OrderOps(ValidPrefix([o]))) != record
  {
    var v: Int32 := if 0 in record && record[0] == 1 then 2 else 1;
    o := Order(0, v, 1);
    var ops := [OpOf(0, v)];
    OneValidOrder(o);
    assert OrderOps([o]) == ops;
    FoldLookup(record, ops, 0);
    LastWriteIsLast(ops, 0, 0);
  }

  ghost predicate Fresh(was: seq<Node>, id: Int32) {
    forall k | 0 <= k < |was| :: was[k].Valid() && LogBelow(was[k].txnLog, id)
  }

  /** The two loops together, with or without the early break. */
  lemma TwoPhaseIsAtomic(was: seq<Node>, mid: seq<Node>, vs: seq<Node>, txn: Txn, env: Env, asked: nat, allOk: bool)
    requires txn.id < 0x7fff_ffff && Fresh(was, txn.id)
    requires AskedFirst(was, mid, txn, env, asked) && ToldFirst(mid, vs, txn.id, allOk, env, |was|)
    requires (allOk <==> NoneSaysNo(was, txn.readSet, env.link)) && (allOk ==> asked == |was|)
    ensures TxnOutcome(was, vs, txn, env.link, allOk)
    ensures Fresh(vs, txn.id + 1)
  {
    forall k | 0 <= k < |was|
      ensures vs[k].Valid() && LogBelow(vs[k].txnLog, txn.id + 1)
      ensures OneOutcome(was[k], vs[k], txn.writeSet, allOk && env.link(k) == Works)
    {
      assert was[k].Valid();
      assert allOk ==> !SaysNo(was[k], txn.readSet, env.link(k));
      NodeOutcome(was[k], txn, env.onPrepare(k), env.onCommit(k), env.link(k), k < asked, allOk);
    }
  }

  lemma NodeOutcome(n: Node, txn: Txn, connect: nat -> bool, nets: nat -> Net, link: Link, asked: bool, allOk: bool)
    requires n.Valid() && LogBelow(n.txnLog, txn.id) && txn.id < 0x7fff_ffff
    requires allOk ==> asked && !SaysNo(n, txn.readSet, link)
    ensures var p := if asked then Asked(n, txn, connect, link) else n;
            var r := Decided(p, txn.id, allOk, nets, link);
            LogBelow(r.txnLog, txn.id + 1) && OneOutcome(n, r, txn.writeSet, allOk && link == Works)
  {
    var p := if asked then Asked(n, txn, connect, link) else n;
    PrepareKeepsLogBelow(n, txn, connect, txn.id + 1);
    LogBelowLater(n.txnLog, txn.id);
    if link == Works && allOk {
      CommitKeepsLogBelow(p, txn.id, nets, txn.id + 1);
      if n.Gap() == 0 {
        CommitAppliesWrites(n, txn, connect, nets);
      }
    } else if link == Works {
      AbortKeepsLogBelow(p, txn.id, txn.id + 1);
    }
  }

  /** How the two loops end: `asked` nodes did not say "No", and if that is not all of them, the next one did. */
  ghost predicate LoopsEnd(was: seq<Node>, mid: seq<Node>, vs: seq<Node>, txn: Txn, env: Env, asked: nat, ok: bool) {
    && asked <= |was| && AskedFirst(was, mid, txn, env, asked) && ToldFirst(mid, vs, txn.id, ok, env, |was|)
    && (forall k | 0 <= k < asked :: !SaysNo(was[k], txn.readSet, env.link(k)))
    && if ok then asked == |was| else asked < |was| && SaysNo(was[asked], txn.readSet, env.link(asked))
  }

  lemma LoopsOutcome(was: seq<Node>, mid: seq<Node>, vs: seq<Node>, txn: Txn, env: Env, asked: nat, ok: bool)
    requires txn.id < 0x7fff_ffff && Fresh(was, txn.id) && LoopsEnd(was, mid, vs, txn, env, asked, ok)
    ensures TxnOutcome(was, vs, txn, env.link, ok) && Fresh(vs, txn.id + 1)
  {
    hide SaysNo, AskedFirst, ToldFirst, Fresh, TxnOutcome;
    TwoPhaseIsAtomic(was, mid, vs, txn, env, asked, ok);
  }

  // ---- What a transaction leaves in the log tables ----

  predicate IsDecided(recs: seq<LogRec>) {
    exists r | r in recs :: r.op != PREPARE
  }

  function Prepares(recs: seq<LogRec>): seq<LogRec> {
    if recs == [] then [] else
      var r := recs[|recs| - 1];
      Prepares(recs[..|recs| - 1]) + if r.op == PREPARE then [r] else []
  }

  /** One node's log table: a commit leaves this transaction alone, each prepare followed by its commit; an abort ends
      its entry with an abort record, and every other entry is kept. */
  ghost predicate LogOutcome(was: TxnLog, now: TxnLog, txn: Txn, works: bool, ok: bool, prepared: bool) {
    var recs := PrepareRecs(txn.id, ValidPrefix(txn.writeSet));
    if works && ok then now == if recs == [] then map[] else map[txn.id := Paired(txn.id, recs)]
    else
      && (forall id | id != txn.id :: (id in was <==> id in now) && (id in was ==> now[id] == was[id]))
      && (works ==> txn.id in now
                    && now[txn.id] == (if prepared then recs else []) + [LogRec(txn.id, 3, -1, -1, -1)])
  }

  /** The nodes up to `k` were asked and none of them said "No". */
  ghost predicate AllAgreeUpTo(was: seq<Node>, readSet: seq<CustRec>, link: nat -> Link, k: nat)
    requires k < |was|
  {
    forall j | 0 <= j <= k :: !SaysNo(was[j], readSet, link(j))
  }

  ghost predicate LogsOutcome(was: seq<Node>, vs: seq<Node>, txn: Txn, link: nat -> Link, ok: bool) {
    |vs| == |was|
    && forall k | 0 <= k < |vs| ::
         LogOutcome(was[k].txnLog, vs[k].txnLog, txn, link(k) == Works, ok, AllAgreeUpTo(was, txn.readSet, link, k))
  }

  lemma NodeLog(n: Node, txn: Txn, connect: nat -> bool, nets: nat -> Net, link: Link, asked: bool, ok: bool)
    requires n.Valid() && txn.id !in n.txnLog && (ok ==> asked)
    requires asked ==> !SaysNo(n, txn.readSet, link)
    ensures var p := if asked then Asked(n, txn, connect, link) else n;
            LogOutcome(n.txnLog, Decided(p, txn.id, ok, nets, link).txnLog, txn, link == Works, ok, asked)
  {
    var recs := PrepareRecs(txn.id, ValidPrefix(txn.writeSet));
    assert forall r | r in recs :: r.txn == txn.id;
    NewTxnLogIs(txn.id, recs);
    hide NewTxnLog, Paired, AdminRun, ValidPrefix, Vote;
    assert [] + [AbortRec(txn.id)] == [AbortRec(txn.id)];
  }

  lemma LoopsLogs(was: seq<Node>, mid: seq<Node>, vs: seq<Node>, txn: Txn, env: Env, asked: nat, ok: bool)
    requires Fresh(was, txn.id) && LoopsEnd(was, mid, vs, txn, env, asked, ok)
    ensures LogsOutcome(was, vs, txn, env.link, ok)
  {
    hide SaysNo, LogOutcome, Asked, Decided, LogBelow;
    forall k | 0 <= k < |was|
      ensures LogOutcome(was[k].txnLog, vs[k].txnLog, txn, env.link(k) == Works, ok,
                         AllAgreeUpTo(was, txn.readSet, env.link, k))
    {
      assert was[k].Valid();
      FreshMeans(was[k], txn.id);
      assert AllAgreeUpTo(was, txn.readSet, env.link, k) <==> k < asked;
      NodeLog(was[k], txn, env.onPrepare(k), env.onCommit(k), env.link(k), k < asked, ok);
    }
  }

  lemma FreshMeans(n: Node, id: Int32)
    requires LogBelow(n.txnLog, id)
    ensures id !in n.txnLog
  {
  }

  /** After a failure every node still connected has decided: the abort record stands behind what it had logged. */
  lemma FailureIsDecided(was: TxnLog, now: TxnLog, txn: Txn, prepared: bool)
    requires LogOutcome(was, now, txn, true, false, prepared)
    ensures var recs := Entry(now, txn.id);
            && IsDecided(recs) && Prepares(recs) == if prepared then PrepareRecs(txn.id, ValidPrefix(txn.writeSet)) else []
    ensures forall id | id != txn.id :: Entry(now, id) == Entry(was, id)
  {
    var logged := if prepared then PrepareRecs(txn.id, ValidPrefix(txn.writeSet)) else [];
    var abort := LogRec(txn.id, 3, -1, -1, -1);
    assert now[txn.id] == logged + [abort] && abort in now[txn.id];
    assert (logged + [abort])[..|logged|] == logged;
    AllPreparesKept(logged);
  }

  lemma {:induction false} AllPreparesKept(recs: seq<LogRec>)
    requires forall r | r in recs :: r.op == PREPARE
    ensures Prepares(recs) == recs
  {
    if recs != [] {
      var (init, r) := (recs[..|recs| - 1], recs[|recs| - 1]);
      assert r in recs && forall q | q in init :: q in recs;
      AllPreparesKept(init);
      assert recs == init + [r];
    }
  }

  /** A lost "No" passes for a yes: over a connection that breaks before the answer comes back, a transaction goes
      through although its one node has refused it. */
  lemma LostNoIsAYes(n: Node, txn: Txn, env: Env)
    requires n.Valid() && LogBelow(n.txnLog, txn.id) && !Vote(n.record, txn.readSet) && env.link(0) == Mute
    ensures LoopsEnd([n], [n], [n], txn, env, 1, true)
  {
  }

  ghost predicate FullOutcome(was: seq<Node>, vs: seq<Node>, txn: Txn, link: nat -> Link, ok: bool) {
    TxnOutcome(was, vs, txn, link, ok) && LogsOutcome(was, vs, txn, link, ok)
  }

  /** Whatever the transaction with this id and however its two loops end, it is all or nothing. */
  ghost predicate AlwaysAtomic(was: seq<Node>, id: Int32, env: Env) {
    forall mid, vs, txn, asked, ok | LoopsEnd(was, mid, vs, txn, env, asked, ok) && txn.id == id ::
      AllOrNothing(was, vs, txn, ok)
  }

  /** Over a broken connection the two loops report success for a transaction that its node has not applied. */
  lemma BrokenLinkSplits(was: seq<Node>, id: Int32, env: Env, k: nat)
    returns (mid: seq<Node>, vs: seq<Node>, txn: Txn)
    requires id < 0x7fff_ffff && Fresh(was, id) && k < |was| && was[k].Gap() == 0 && env.link(k) != Works
    ensures txn.id == id && LoopsEnd(was, mid, vs, txn, env, |was|, true)
    ensures vs[k].record == was[k].record && !AllOrNothing(was, vs, txn, true)
  {
    var o := SomeWriteShows(was[k].record);
    txn := Txn(id, [], [o]);
    var t := txn;
    hide Fold, ValidPrefix, OrderOps, Prepared, Committed, Aborted;
    assert forall i | 0 <= i < |was| :: was[i].Valid();
    mid := seq(|was|, i requires 0 <= i < |was| => Asked(was[i], t, env.onPrepare(i), env.link(i)));
    var m := mid;
    forall i | 0 <= i < |m|
      ensures m[i].Valid()
    {
      assert m[i] == Asked(was[i], t, env.onPrepare(i), env.link(i));
    }
    vs := seq(|m|, i requires 0 <= i < |m| => Decided(m[i], id, true, env.onCommit(i), env.link(i)));
    LoopsOutcome(was, mid, vs, txn, env, |was|, true);
    assert OneOutcome(was[k], vs[k], txn.writeSet, false);
    assert !OneOutcome(was[k], vs[k], txn.writeSet, true);
  }

  /** Exactly when the protocol is atomic over nodes without a gap: every connection holds to the end. */
  lemma AtomicIffLinksWork(was: seq<Node>, id: Int32, env: Env)
    requires id < 0x7fff_ffff && Fresh(was, id) && forall k | 0 <= k < |was| :: was[k].Gap() == 0
    ensures AlwaysAtomic(was, id, env) <==> forall k | 0 <= k < |was| :: env.link(k) == Works
  {
    hide LoopsEnd, Fresh, OneOutcome;
    if k :| 0 <= k < |was| && env.link(k) != Works {
      var mid, vs, txn := BrokenLinkSplits(was, id, env, k);
    } else {
      forall mid, vs, txn, asked, ok | LoopsEnd(was, mid, vs, txn, env, asked, ok) && txn.id == id
        ensures AllOrNothing(was, vs, txn, ok)
      {
        LoopsOutcome(was, mid, vs, txn, env, asked, ok);
      }
    }
  }

  /** The records after a run of transactions of which those marked went through. */
  function Applied(base: Store, txns: seq<Txn>, oks: seq<bool>): Store
    requires |txns| == |oks|
  {
    if txns == [] then base else
      var n := |txns| - 1;
      var before := Applied(base, txns[..n], oks[..n]);
      if oks[n] then Fold(before, OrderOps(ValidPrefix(txns[n].writeSet))) else before
  }

  /** One transaction of a run: a cluster could not be reached and nothing happened, or every connection held. */
  ghost predicate RunStep(was: seq<Node>, vs: seq<Node>, txn: Txn, up: bool, ok: bool) {
    if up then TxnOutcome(was, vs, txn, _ => Works, ok) else vs == was && !ok
  }

  lemma OutcomesAgree(was: seq<Node>, vs: seq<Node>, before: Store, txn: Txn, up: bool, ok: bool, k: nat)
    requires k < |was| && RunStep(was, vs, txn, up, ok)
    requires forall i | 0 <= i < |was| :: was[i].record == before
    requires was[k].Gap() == 0
    ensures |vs| == |was| && vs[k].Gap() == 0 && (ok <==> up && Vote(before, txn.readSet))
    ensures vs[k].record == if ok then Fold(before, OrderOps(ValidPrefix(txn.writeSet))) else before
  {
    hide Vote, Fold, OrderOps, ValidPrefix;
    assert was[k].record == before;
    if up {
      assert OneOutcome(was[k], vs[k], txn.writeSet, ok);
      assert SaysNo(was[k], txn.readSet, Works) <==> !Vote(before, txn.readSet);
    }
  }

  /** Nodes that start with equal records and no gap vote alike and stay equal over every run of transactions:
      a transaction goes through exactly when all clusters can be reached and it agrees with the records its
      predecessors left. */
  lemma {:induction false} RunsAgree(base: Store, runs: seq<seq<Node>>, txns: seq<Txn>, ups: seq<bool>, oks: seq<bool>,
                                     k: nat)
    requires |runs| == |txns| + 1 == |oks| + 1 == |ups| + 1 && k < |runs[0]|
    requires forall i | 0 <= i < |runs[0]| :: runs[0][i].record == base && runs[0][i].Gap() == 0
    requires forall m | 0 <= m < |txns| :: RunStep(runs[m], runs[m + 1], txns[m], ups[m], oks[m])
    ensures |runs[|txns|]| == |runs[0]|
    ensures runs[|txns|][k].record == Applied(base, txns, oks) && runs[|txns|][k].Gap() == 0
    ensures forall m | 0 <= m < |txns| :: oks[m] <==> ups[m] && Vote(Applied(base, txns[..m], oks[..m]), txns[m].readSet)
  {
    hide RunStep, Vote, Fold, OrderOps, ValidPrefix;
    var n := |txns| - 1;
    if n >= 0 {
      var before := Applied(base, txns[..n], oks[..n]);
      RunsAgree(base, runs[..n + 1], txns[..n], ups[..n], oks[..n], k);
      forall i | 0 <= i < |runs[0]|
        ensures runs[n][i].record == before
      {
        RunsAgree(base, runs[..n + 1], txns[..n], ups[..n], oks[..n], i);
      }
      OutcomesAgree(runs[n], runs[n + 1], before, txns[n], ups[n], oks[n], k);
      forall m | 0 <= m < n
        ensures oks[m] <==> ups[m] && Vote(Applied(base, txns[..m], oks[..m]), txns[m].readSet)
      {
        assert txns[..n][..m] == txns[..m] && oks[..n][..m] == oks[..m];
      }
    }
  }

  /** The nodes at the boundaries of a run of transactions. */
  ghost predicate RunOf(runs: seq<seq<Node>>, txns: seq<Txn>, ups: seq<bool>, oks: seq<bool>) {
    |runs| == |txns| + 1 == |oks| + 1 == |ups| + 1
    && forall m | 0 <= m < |txns| :: RunStep(runs[m], runs[m + 1], txns[m], ups[m], oks[m])
  }

  /** The replies of a run and the record it leaves. */
  ghost predicate AnsweredSerially(base: Store, txns: seq<Txn>, ups: seq<bool>, oks: seq<bool>) {
    |txns| == |ups| == |oks|
    && forall m | 0 <= m < |txns| :: oks[m] <==> ups[m] && Vote(Applied(base, txns[..m], oks[..m]), txns[m].readSet)
  }

  lemma RunOfAgrees(base: Store, runs: seq<seq<Node>>, txns: seq<Txn>, ups: seq<bool>, oks: seq<bool>)
    requires RunOf(runs, txns, ups, oks)
    requires forall k | 0 <= k < |runs[0]| :: runs[0][k].record == base && runs[0][k].Gap() == 0
    ensures runs[0] != [] ==> AnsweredSerially(base, txns, ups, oks)
    ensures runs[0] != [] ==> |runs[|txns|]| == |runs[0]|
    ensures forall k | 0 <= k < |runs[0]| && k < |runs[|txns|]| ::
              runs[|txns|][k].record == Applied(base, txns, oks) && runs[|txns|][k].Gap() == 0
  {
    hide RunStep, Applied, Vote;
    if runs[0] != [] {
      RunsAgree(base, runs, txns, ups, oks, 0);
    }
    forall k | 0 <= k < |runs[0]|
      ensures runs[|txns|][k].record == Applied(base, txns, oks) && runs[|txns|][k].Gap() == 0
    {
      RunsAgree(base, runs, txns, ups, oks, k);
    }
  }

  // ---- Runs at the primaries, over any connections ----

  /** Every cluster can be reached. */
  predicate Up(env: Env, n: nat) {
    forall j | 0 <= j < n :: env.route(j) != Down
  }

  /** No transaction goes to a backup: every cluster has its primary or is down. */
  ghost predicate Direct(env: Env) {
    forall j: nat :: env.route(j) != ToBackup
  }

  /** One transaction at the primaries: nothing happens if a cluster is down, else the two loops run. */
  ghost predicate DirectStep(was: seq<Node>, vs: seq<Node>, txn: Txn, env: Env, ok: bool) {
    |vs| == |was| && if Up(env, |was|) then TxnOutcome(was, vs, txn, env.link, ok) else vs == was && !ok
  }

  /** The transactions of a run that primary `i` applied: the successful ones over which its connection held. */
  function Took(envs: nat -> Env, i: nat, oks: seq<bool>): (took: seq<bool>)
    ensures |took| == |oks|
  {
    seq(|oks|, m requires 0 <= m < |oks| => oks[m] && envs(m).link(i) == Works)
  }

  ghost predicate DirectRun(runs: seq<seq<Node>>, txns: seq<Txn>, envs: nat -> Env, oks: seq<bool>) {
    && |runs| == |txns| + 1 == |oks| + 1
    && forall m | 0 <= m < |txns| :: DirectStep(runs[m], runs[m + 1], txns[m], envs(m), oks[m])
  }

  /** One step, seen from primary `i`. */
  lemma NodeStep(was: seq<Node>, vs: seq<Node>, txn: Txn, env: Env, ok: bool, i: nat)
    requires DirectStep(was, vs, txn, env, ok) && i < |was| && was[i].Gap() == 0
    ensures |vs| == |was| && vs[i].Gap() == 0
    ensures vs[i].record
            == if ok && env.link(i) == Works then Fold(was[i].record, OrderOps(ValidPrefix(txn.writeSet))) else was[i].record
  {
    hide NoneSaysNo, Fold, OrderOps, ValidPrefix;
    if Up(env, |was|) {
      assert OneOutcome(was[i], vs[i], txn.writeSet, ok && env.link(i) == Works);
    }
  }

  /** Over any connections every primary without a gap ends with exactly the transactions it took part in applied to
      its record, in order. */
  lemma {:induction false} NodeServed(runs: seq<seq<Node>>, txns: seq<Txn>, envs: nat -> Env, oks: seq<bool>, i: nat)
    requires DirectRun(runs, txns, envs, oks) && i < |runs[0]| && runs[0][i].Gap() == 0
    ensures |runs[|txns|]| == |runs[0]| && runs[|txns|][i].Gap() == 0
    ensures runs[|txns|][i].record == Applied(runs[0][i].record, txns, Took(envs, i, oks))
  {
    hide DirectStep, Fold, OrderOps, ValidPrefix;
    var k := |txns| - 1;
    if k >= 0 {
      NodeServed(runs[..k + 1], txns[..k], envs, oks[..k], i);
      NodeStep(runs[k], runs[k + 1], txns[k], envs(k), oks[k], i);
      assert Took(envs, i, oks)[..k] == Took(envs, i, oks[..k]);
    }
  }

  /** The manager's answer to transaction `m` of a run, as a function of what the primaries had applied before it. */
  ghost predicate Answered(start: seq<Node>, txns: seq<Txn>, envs: nat -> Env, oks: seq<bool>, m: nat)
    requires m < |txns| == |oks|
  {
    oks[m] <==> Up(envs(m), |start|) && forall i | 0 <= i < |start| ::
                  Consents(Applied(start[i].record, txns[..m], Took(envs, i, oks[..m])), txns[m].readSet, envs(m).link(i))
  }

  /** A node with this record is not heard to say "No". */
  predicate Consents(record: Store, readSet: seq<CustRec>, link: Link) {
    link == Works || link == Gone ==> Vote(record, readSet)
  }

  lemma {:induction false} DirectPrefix(runs: seq<seq<Node>>, txns: seq<Txn>, envs: nat -> Env, oks: seq<bool>, m: nat)
    requires DirectRun(runs, txns, envs, oks) && m <= |txns|
    ensures DirectRun(runs[..m + 1], txns[..m], envs, oks[..m]) && |runs[m]| == |runs[0]|
  {
    if m > 0 {
      DirectPrefix(runs, txns, envs, oks, m - 1);
      assert DirectStep(runs[m - 1], runs[m], txns[m - 1], envs(m - 1), oks[m - 1]);
    }
    hide DirectStep;
  }

  /** Over any connections: what was answered, transaction by transaction. */
  lemma RunAnswered(runs: seq<seq<Node>>, txns: seq<Txn>, envs: nat -> Env, oks: seq<bool>, m: nat)
    requires DirectRun(runs, txns, envs, oks) && m < |txns|
    requires forall i | 0 <= i < |runs[0]| :: runs[0][i].Gap() == 0
    ensures Answered(runs[0], txns, envs, oks, m)
  {
    DirectPrefix(runs, txns, envs, oks, m);
    var (was, env) := (runs[m], envs(m));
    assert DirectStep(was, runs[m + 1], txns[m], env, oks[m]);
    hide Vote, Applied, Took, OneOutcome, Up;
    forall i | 0 <= i < |was|
      ensures SaysNo(was[i], txns[m].readSet, env.link(i))
              <==> !Consents(Applied(runs[0][i].record, txns[..m], Took(envs, i, oks[..m])), txns[m].readSet, env.link(i))
    {
      NodeServed(runs[..m + 1], txns[..m], envs, oks[..m], i);
    }
    hide DirectRun, SaysNo, Consents;
  }

  /** A network in which no connection breaks and no transaction goes to a backup. */
  ghost predicate Calm(env: Env) {
    Direct(env) && forall i: nat :: env.link(i) == Works
  }

  lemma CalmStep(was: seq<Node>, vs: seq<Node>, txn: Txn, env: Env, ok: bool)
    requires DirectStep(was, vs, txn, env, ok) && Calm(env)
    ensures RunStep(was, vs, txn, Up(env, |was|), ok)
  {
    hide SaysNo, OneOutcome;
    if Up(env, |was|) {
      assert NoneSaysNo(was, txn.readSet, env.link) <==> NoneSaysNo(was, txn.readSet, _ => Works);
    }
  }

  /** Whether all clusters were up, transaction by transaction. */
  function Ups(envs: nat -> Env, n: nat, k: nat): (ups: seq<bool>)
    ensures |ups| == k
  {
    seq(k, m requires 0 <= m < k => Up(envs(m), n))
  }

  /** On a calm network the primaries go through a run of transactions together. */
  lemma CalmRun(base: Store, runs: seq<seq<Node>>, txns: seq<Txn>, envs: nat -> Env, oks: seq<bool>)
    requires DirectRun(runs, txns, envs, oks) && runs[0] != [] && forall m: nat :: Calm(envs(m))
    requires forall i | 0 <= i < |runs[0]| :: runs[0][i].record == base && runs[0][i].Gap() == 0
    ensures AnsweredSerially(base, txns, Ups(envs, |runs[0]|, |txns|), oks)
    ensures |runs[|txns|]| == |runs[0]|
    ensures forall i | 0 <= i < |runs[0]| :: runs[|txns|][i].record == Applied(base, txns, oks)
  {
    hide DirectStep, RunStep, AnsweredSerially, Calm, Up, Applied;
    forall m | 0 <= m < |txns|
      ensures RunStep(runs[m], runs[m + 1], txns[m], Ups(envs, |runs[0]|, |txns|)[m], oks[m])
    {
      DirectPrefix(runs, txns, envs, oks, m);
      CalmStep(runs[m], runs[m + 1], txns[m], envs(m), oks[m]);
    }
    RunOfAgrees(base, runs, txns, Ups(envs, |runs[0]|, |txns|), oks);
  }

  /** What the accept loop makes of its primaries, `start` before and `end` after. */
  ghost predicate ServedWell(start: seq<Node>, end: seq<Node>, txns: seq<Txn>, envs: nat -> Env, oks: seq<bool>) {
    && |start| == |end| && |txns| == |oks|
    && (forall i | 0 <= i < |start| && start[i].Gap() == 0 ::
          end[i].record == Applied(start[i].record, txns, Took(envs, i, oks)))
    && ((forall i | 0 <= i < |start| :: start[i].Gap() == 0) ==>
          forall m | 0 <= m < |txns| :: Answered(start, txns, envs, oks, m))
    && (forall base | (forall i | 0 <= i < |start| :: start[i].record == base && start[i].Gap() == 0)
                      && start != [] && forall m: nat :: Calm(envs(m)) ::
          && AnsweredSerially(base, txns, Ups(envs, |start|, |txns|), oks)
          && forall i | 0 <= i < |start| :: end[i].record == Applied(base, txns, oks))
  }

  lemma DirectRunServesWell(runs: seq<seq<Node>>, txns: seq<Txn>, envs: nat -> Env, oks: seq<bool>)
    requires DirectRun(runs, txns, envs, oks)
    ensures ServedWell(runs[0], runs[|txns|], txns, envs, oks)
  {
    var (start, end) := (runs[0], runs[|txns|]);
    DirectPrefix(runs, txns, envs, oks, |txns|);
    hide DirectStep, Answered, AnsweredSerially, Calm, Applied;
    forall i | 0 <= i < |start| && start[i].Gap() == 0
      ensures end[i].record == Applied(start[i].record, txns, Took(envs, i, oks))
    {
      NodeServed(runs, txns, envs, oks, i);
    }
    if forall i | 0 <= i < |start| :: start[i].Gap() == 0 {
      forall m | 0 <= m < |txns|
        ensures Answered(start, txns, envs, oks, m)
      {
        RunAnswered(runs, txns, envs, oks, m);
      }
    }
    forall base | (forall i | 0 <= i < |start| :: start[i].record == base && start[i].Gap() == 0)
                  && start != [] && forall m: nat :: Calm(envs(m))
      ensures AnsweredSerially(base, txns, Ups(envs, |start|, |txns|), oks)
      ensures forall i | 0 <= i < |start| :: end[i].record == Applied(base, txns, oks)
    {
      CalmRun(base, runs, txns, envs, oks);
    }
  }

  // ---- One transaction at all nodes ----

  /** All primaries and all backups, cluster by cluster. */
  datatype Nodes = Nodes(ps: seq<Node>, bs: seq<Node>)

  /** The node of cluster `i` a transaction is routed to. */
  function Target(s: Nodes, env: Env, i: nat): Node
    requires i < |s.ps| == |s.bs|
  {
    if env.route(i) == ToBackup then s.bs[i] else s.ps[i]
  }

  ghost predicate RoutedStep(was: Nodes, now: Nodes, txn: Txn, env: Env, ok: bool) {
    var n := |was.ps|;
    && n == |was.bs| == |now.ps| == |now.bs|
    && if exists i | 0 <= i < n :: env.route(i) == Down then !ok && now == was
       else
         && (ok <==> forall i | 0 <= i < n :: !SaysNo(Target(was, env, i), txn.readSet, env.link(i)))
         && forall i | 0 <= i < n ::
              && OneOutcome(Target(was, env, i), Target(now, env, i), txn.writeSet, ok && env.link(i) == Works)
              && LogOutcome(Target(was, env, i).txnLog, Target(now, env, i).txnLog, txn, env.link(i) == Works, ok,
                            forall j | 0 <= j <= i :: !SaysNo(Target(was, env, j), txn.readSet, env.link(j)))
              && if env.route(i) == ToBackup then now.ps[i] == was.ps[i] else now.bs[i] == was.bs[i]
  }

  lemma RoutedFrom(was: Nodes, now: Nodes, wasNodes: seq<Node>, nowNodes: seq<Node>, txn: Txn, env: Env, ok: bool)
    requires |was.ps| == |was.bs| == |now.ps| == |now.bs| == |wasNodes| == |nowNodes|
    requires forall i | 0 <= i < |was.ps| ::
               && env.route(i) != Down && wasNodes[i] == Target(was, env, i) && nowNodes[i] == Target(now, env, i)
               && if env.route(i) == ToBackup then now.ps[i] == was.ps[i] else now.bs[i] == was.bs[i]
    requires FullOutcome(wasNodes, nowNodes, txn, env.link, ok)
    ensures RoutedStep(was, now, txn, env, ok)
  {
    hide SaysNo, OneOutcome, LogOutcome;
    forall i | 0 <= i < |was.ps|
      ensures AllAgreeUpTo(wasNodes, txn.readSet, env.link, i)
              <==> forall j | 0 <= j <= i :: !SaysNo(Target(was, env, j), txn.readSet, env.link(j))
    {
    }
  }

  lemma RoutedMeans(was: Nodes, now: Nodes, txn: Txn, env: Env, ok: bool)
    requires RoutedStep(was, now, txn, env, ok)
    ensures |now.ps| == |was.ps| == |was.bs| == |now.bs|
    ensures !Up(env, |was.ps|) ==> !ok
    ensures Up(env, |was.ps|) ==>
              (ok <==> forall i | 0 <= i < |was.ps| ::
                         !SaysNo(if env.route(i) == ToBackup then was.bs[i] else was.ps[i], txn.readSet, env.link(i)))
    ensures Up(env, |was.ps|) ==>
              forall i | 0 <= i < |was.ps| && env.route(i) == ToBackup ::
                OneOutcome(was.bs[i], now.bs[i], txn.writeSet, ok && env.link(i) == Works)
    ensures Up(env, |was.ps|) ==>
              forall i | 0 <= i < |was.ps| && env.route(i) != ToBackup ::
                OneOutcome(was.ps[i], now.ps[i], txn.writeSet, ok && env.link(i) == Works)
  {
    hide OneOutcome, LogOutcome, SaysNo;
    if Up(env, |was.ps|) {
      forall i | 0 <= i < |was.ps|
        ensures OneOutcome(Target(was, env, i), Target(now, env, i), txn.writeSet, ok && env.link(i) == Works)
      {
      }
      forall i | 0 <= i < |was.ps|
        ensures if env.route(i) == ToBackup
                then OneOutcome(was.bs[i], now.bs[i], txn.writeSet, ok && env.link(i) == Works)
                else OneOutcome(was.ps[i], now.ps[i], txn.writeSet, ok && env.link(i) == Works)
      {
        assert OneOutcome(Target(was, env, i), Target(now, env, i), txn.writeSet, ok && env.link(i) == Works);
      }
    }
  }

  lemma NothingRouted(was: Nodes, now: Nodes, txn: Txn, env: Env)
    requires |was.ps| == |was.bs| == |now.ps| == |now.bs| && exists i | 0 <= i < |was.ps| :: env.route(i) == Down
    requires forall i | 0 <= i < |was.ps| :: now.ps[i] == was.ps[i] && now.bs[i] == was.bs[i]
    ensures RoutedStep(was, now, txn, env, false)
  {
    assert now.ps == was.ps && now.bs == was.bs;
  }

  // ---- Runs at all nodes, with whatever peers send each other in between ----

  /** What arrives at a node on one connection of a peer. */
  datatype Arrival = Arrival(mode: Mode, ms: seq<Msg>)

  /** The manager has issued the ids of all copied prepares. */
  predicate CopiesBelow(ms: seq<Msg>, next: int) {
    forall m | m in ms && m.Prepare? :: m.txn.id < next
  }

  function Arrived(n: Node, a: Arrival): Node {
    if n.Valid() then Receive(Peer(n, a.mode), a.ms).node else n
  }

  /** Nodes from number `first` on after their arrivals; primaries come first, then backups. */
  function AllArrived(vs: seq<Node>, inbox: nat -> Arrival, first: nat): (r: seq<Node>)
    ensures |r| == |vs|
  {
    seq(|vs|, j requires 0 <= j < |vs| => Arrived(vs[j], inbox(first + j)))
  }

  /** One transaction, and what then arrives at the nodes. */
  ghost predicate ServedStep(was: Nodes, now: Nodes, txn: Txn, env: Env, inbox: nat -> Arrival, ok: bool) {
    exists mid :: RoutedStep(was, mid, txn, env, ok)
                  && now == Nodes(AllArrived(mid.ps, inbox, 0), AllArrived(mid.bs, inbox, |mid.ps|))
  }

  ghost predicate ServedRun(runs: seq<Nodes>, txns: seq<Txn>, envs: nat -> Env, inbox: nat -> nat -> Arrival, oks: seq<bool>) {
    && |runs| == |txns| + 1 == |oks| + 1
    && forall m | 0 <= m < |txns| :: ServedStep(runs[m], runs[m + 1], txns[m], envs(m), inbox(m), oks[m])
  }

  /** Some run leads from `start` to `now`. */
  ghost predicate ServedFrom(start: Nodes, now: Nodes, txns: seq<Txn>, envs: nat -> Env, inbox: nat -> nat -> Arrival,
                             oks: seq<bool>) {
    exists runs :: ServedRun(runs, txns, envs, inbox, oks) && runs[0] == start && runs[|txns|] == now
  }

  lemma ServedOneMore(start: Nodes, was: Nodes, now: Nodes, txns: seq<Txn>, envs: nat -> Env, inbox: nat -> nat -> Arrival,
                      oks: seq<bool>, i: nat, ok: bool)
    requires i < |txns| && ServedFrom(start, was, txns[..i], envs, inbox, oks) && |oks| == i
    requires ServedStep(was, now, txns[i], envs(i), inbox(i), ok)
    ensures ServedFrom(start, now, txns[..i + 1], envs, inbox, oks + [ok])
  {
    hide ServedStep;
    var runs :| ServedRun(runs, txns[..i], envs, inbox, oks) && runs[0] == start && runs[i] == was;
    assert ServedRun(runs + [now], txns[..i + 1], envs, inbox, oks + [ok]);
  }

  lemma NothingServed(was: Nodes, txns: seq<Txn>, envs: nat -> Env, inbox: nat -> nat -> Arrival)
    ensures ServedFrom(was, was, txns[..0], envs, inbox, [])
  {
    assert ServedRun([was], txns[..0], envs, inbox, []);
  }

  /** Peers send the primaries nothing. */
  ghost predicate PrimariesAlone(inbox: nat -> Arrival, n: nat) {
    forall i | 0 <= i < n :: inbox(i).ms == []
  }

  /** A transaction that goes to no backup, with nothing arriving at the primaries, is a step of the primaries. */
  lemma StepIsDirect(was: Nodes, now: Nodes, txn: Txn, env: Env, inbox: nat -> Arrival, ok: bool)
    requires ServedStep(was, now, txn, env, inbox, ok) && Direct(env) && PrimariesAlone(inbox, |was.ps|)
    ensures DirectStep(was.ps, now.ps, txn, env, ok)
  {
    hide RoutedStep, OneOutcome, LogOutcome, SaysNo;
    var mid :| RoutedStep(was, mid, txn, env, ok)
               && now == Nodes(AllArrived(mid.ps, inbox, 0), AllArrived(mid.bs, inbox, |mid.ps|));
    RoutedDirect(was, mid, txn, env, ok);
    assert now.ps == mid.ps;
  }

  lemma RoutedDirect(was: Nodes, mid: Nodes, txn: Txn, env: Env, ok: bool)
    requires RoutedStep(was, mid, txn, env, ok) && Direct(env)
    ensures DirectStep(was.ps, mid.ps, txn, env, ok) && |mid.ps| == |was.ps|
  {
    hide OneOutcome, LogOutcome, SaysNo;
    if Up(env, |was.ps|) {
      assert forall i | 0 <= i < |was.ps| :: Target(was, env, i) == was.ps[i] && Target(mid, env, i) == mid.ps[i];
    }
  }

  /** As long as no transaction goes to a backup and peers send the primaries nothing. */
  lemma RunIsDirect(start: Nodes, end: Nodes, txns: seq<Txn>, envs: nat -> Env, inbox: nat -> nat -> Arrival, oks: seq<bool>)
    requires ServedFrom(start, end, txns, envs, inbox, oks)
    requires forall m: nat :: Direct(envs(m)) && PrimariesAlone(inbox(m), |start.ps|)
    ensures ServedWell(start.ps, end.ps, txns, envs, oks)
  {
    var runs: seq<Nodes> :| ServedRun(runs, txns, envs, inbox, oks) && runs[0] == start && runs[|txns|] == end;
    hide ServedStep, DirectStep, ServedWell, Direct, PrimariesAlone;
    var ps := seq(|runs|, m requires 0 <= m < |runs| => runs[m].ps);
    DirectSizes(runs, txns, envs, inbox, oks, |txns|);
    forall m | 0 <= m < |txns|
      ensures DirectStep(ps[m], ps[m + 1], txns[m], envs(m), oks[m])
    {
      StepIsDirect(runs[m], runs[m + 1], txns[m], envs(m), inbox(m), oks[m]);
    }
    DirectRunServesWell(ps, txns, envs, oks);
  }

  lemma {:induction false} DirectSizes(runs: seq<Nodes>, txns: seq<Txn>, envs: nat -> Env, inbox: nat -> nat -> Arrival,
                                       oks: seq<bool>, k: nat)
    requires ServedRun(runs, txns, envs, inbox, oks) && k <= |txns|
    ensures forall m | 0 <= m <= k :: |runs[m].ps| == |runs[0].ps|
  {
    if k > 0 {
      DirectSizes(runs, txns, envs, inbox, oks, k - 1);
      assert ServedStep(runs[k - 1], runs[k], txns[k - 1], envs(k - 1), inbox(k - 1), oks[k - 1]);
      hide RoutedStep, ServedRun;
      StepSize(runs[k - 1], runs[k], txns[k - 1], envs(k - 1), inbox(k - 1), oks[k - 1]);
    }
  }

  lemma StepSize(was: Nodes, now: Nodes, txn: Txn, env: Env, inbox: nat -> Arrival, ok: bool)
    requires ServedStep(was, now, txn, env, inbox, ok)
    ensures |now.ps| == |now.bs| == |was.ps| == |was.bs|
  {
    hide OneOutcome, LogOutcome, SaysNo;
  }

  lemma RoutedServes(base: Store, was: Nodes, mid: Nodes, txns: seq<Txn>, oks: seq<bool>, txn: Txn, env: Env, ok: bool)
    requires RoutedStep(was, mid, txn, env, ok) && |txns| == |oks| && was.ps != [] && |was.bs| == |was.ps|
    requires forall i | 0 <= i < |was.ps| :: env.route(i) != Down && env.link(i) == Works
    requires forall i | 0 <= i < |was.ps| ::
               Target(was, env, i).Gap() == 0 && Target(was, env, i).record == Applied(base, txns, oks)
    ensures ok <==> Vote(Applied(base, txns, oks), txn.readSet)
    ensures |mid.ps| == |mid.bs| == |was.ps|
    ensures forall i | 0 <= i < |was.ps| ::
              Target(mid, env, i).Gap() == 0 && Target(mid, env, i).record == Applied(base, txns + [txn], oks + [ok])
  {
    var serial := Applied(base, txns, oks);
    AppliedSnoc(base, txns, oks, txn, ok);
    hide Applied, Vote, Fold, ValidPrefix, OrderOps, LogOutcome, RoutedStep;
    RoutedMeans(was, mid, txn, env, ok);
    forall i | 0 <= i < |was.ps|
      ensures SaysNo(Target(was, env, i), txn.readSet, env.link(i)) <==> !Vote(serial, txn.readSet)
    {
    }
    hide SaysNo;
    assert SaysNo(Target(was, env, 0), txn.readSet, env.link(0)) <==> !Vote(serial, txn.readSet);
    forall i | 0 <= i < |was.ps|
      ensures Target(mid, env, i).Gap() == 0 && Target(mid, env, i).record == Applied(base, txns + [txn], oks + [ok])
    {
      assert OneOutcome(Target(was, env, i), Target(mid, env, i), txn.writeSet, ok && env.link(i) == Works);
    }
  }

  lemma AppliedSnoc(base: Store, txns: seq<Txn>, oks: seq<bool>, txn: Txn, ok: bool)
    requires |txns| == |oks|
    ensures var serial := Applied(base, txns, oks);
            Applied(base, txns + [txn], oks + [ok])
            == if ok then Fold(serial, OrderOps(ValidPrefix(txn.writeSet))) else serial
  {
    assert (txns + [txn])[..|txns|] == txns && (oks + [ok])[..|oks|] == oks;
  }

  /** A transaction of a run over any mixture of primaries and backups: if the nodes it is routed to stand where the
      serial run stands, however they came there, it goes through exactly when it agrees with the serial run, and
      those at which nothing arrives afterwards stand where the serial run then stands. */
  lemma MixedStepServes(base: Store, was: Nodes, now: Nodes, txns: seq<Txn>, oks: seq<bool>, txn: Txn, env: Env,
                        inbox: nat -> Arrival, ok: bool)
    requires ServedStep(was, now, txn, env, inbox, ok) && |txns| == |oks| && was.ps != [] && |was.bs| == |was.ps|
    requires forall i | 0 <= i < |was.ps| :: env.route(i) != Down && env.link(i) == Works
    requires forall i | 0 <= i < |was.ps| ::
               Target(was, env, i).Gap() == 0 && Target(was, env, i).record == Applied(base, txns, oks)
    ensures ok <==> Vote(Applied(base, txns, oks), txn.readSet)
    ensures |now.ps| == |now.bs| == |was.ps|
    ensures forall i | 0 <= i < |was.ps| && inbox(if env.route(i) == ToBackup then |was.ps| + i else i).ms == [] ::
              && Target(now, env, i).Gap() == 0
              && Target(now, env, i).record == Applied(base, txns + [txn], oks + [ok])
  {
    hide Vote, Applied, RoutedStep, Receive;
    var mid :| RoutedStep(was, mid, txn, env, ok)
               && now == Nodes(AllArrived(mid.ps, inbox, 0), AllArrived(mid.bs, inbox, |mid.ps|));
    RoutedServes(base, was, mid, txns, oks, txn, env, ok);
    forall i | 0 <= i < |was.ps| && inbox(if env.route(i) == ToBackup then |was.ps| + i else i).ms == []
      ensures Target(now, env, i) == Target(mid, env, i)
    {
      NothingArrives(Target(mid, env, i), inbox(if env.route(i) == ToBackup then |was.ps| + i else i));
    }
  }

  lemma NothingArrives(n: Node, a: Arrival)
    requires a.ms == []
    ensures Arrived(n, a) == n
  {
  }

  lemma {:induction false} ReceiveKeepsLogBelow(r: Peer, ms: seq<Msg>, next: Int32)
    requires r.node.Valid() && LogBelow(r.node.txnLog, next) && CopiesBelow(ms, next)
    ensures LogBelow(Receive(r, ms).node.txnLog, next)
  {
    if ms != [] {
      var k := |ms| - 1;
      assert forall m | m in ms[..k] :: m in ms;
      assert ms[k] in ms;
      ReceiveKeepsLogBelow(r, ms[..k], next);
      OneKeepsLogBelow(Receive(r, ms[..k]), ms[k], next);
    }
  }

  lemma OneKeepsLogBelow(r: Peer, m: Msg, next: Int32)
    requires r.node.Valid() && LogBelow(r.node.txnLog, next) && (m.Prepare? ==> m.txn.id < next)
    ensures LogBelow(ReceiveOne(r, m).node.txnLog, next)
  {
  }

  /** The requests under the ids the manager gives them. */
  function Numbered(requests: seq<Txn>, first: Int32): (txns: seq<Txn>)
    requires first as int + |requests| < 0x8000_0000
    ensures |txns| == |requests|
  {
    seq(|requests|, m requires 0 <= m < |requests| => var id: int := first; requests[m].(id := id + m))
  }

  /** Ready for the transaction numbered `next`. */
  ghost predicate Ready(n: LaptopFactory, next: Int32)
    reads n
  {
    n.Valid() && n.arq == [] && LogBelow(n.txnLog, next)
  }

  function ReplyOf(ok: bool): string {
    if ok then "Success" else "Failed"
  }

  class TransactionManager {
    var transactionId: Int32
    const rms: seq<LaptopFactory>
    const backups: seq<LaptopFactory>

    ghost predicate Valid()
      reads this, rms, backups
    {
      && |rms| == |backups| && Distinct(rms + backups)
      && forall n | n in rms + backups :: Ready(n, transactionId)
    }

    constructor (rms: seq<LaptopFactory>, backups: seq<LaptopFactory>)
      ensures this.rms == rms && this.backups == backups && transactionId == 0
    {
      this.rms, this.backups, transactionId := rms, backups, 0;
    }

    /** The nodes a transaction talks to, one a cluster, when no cluster is down. */
    function Connected(route: nat -> Route): (nodes: seq<LaptopFactory>)
      requires |rms| == |backups|
      ensures |nodes| == |rms| && forall i | 0 <= i < |nodes| :: nodes[i] in rms + backups
    {
      seq(|rms|, i requires 0 <= i < |rms| => if route(i) == ToBackup then backups[i] else rms[i])
    }

    predicate Reachable(route: nat -> Route) {
      forall i | 0 <= i < |rms| :: route(i) != Down
    }

    lemma ConnectedDistinct(route: nat -> Route)
      requires |rms| == |backups| && Distinct(rms + backups)
      ensures Distinct(Connected(route))
    {
      var all, nodes := rms + backups, Connected(route);
      forall i, j | 0 <= i < j < |nodes|
        ensures nodes[i] != nodes[j]
      {
        assert nodes[i] == all[i] || nodes[i] == all[|rms| + i];
        assert nodes[j] == all[j] || nodes[j] == all[|rms| + j];
      }
    }

    /** The connection loop: the first cluster without a reachable node ends the transaction. */
    method Connect(route: nat -> Route) returns (nodes: seq<LaptopFactory>, ok: bool)
      requires |rms| == |backups|
      ensures ok <==> Reachable(route)
      ensures ok ==> nodes == Connected(route)
    {
      nodes, ok := [], true;
      for i := 0 to |rms|
        invariant ok && nodes == Connected(route)[..i]
        invariant forall k | 0 <= k < i :: route(k) != Down
      {
        if route(i) == Down {
          return [], false;
        }
        nodes := nodes + [if route(i) == ToBackup then backups[i] else rms[i]];
      }
    }

    /** One prepare message and its answer. */
    static method AskOne(nodes: seq<LaptopFactory>, i: nat, txn: Txn, connect: nat -> bool, link: Link, ghost vs: seq<Node>)
      returns (reply: string)
      requires Distinct(nodes) && AllReady(nodes) && HaveViews(nodes, vs) && i < |nodes|
      modifies nodes[i]
      ensures AllReady(nodes)
      ensures reply == "No" <==> SaysNo(vs[i], txn.readSet, link)
      ensures HaveViews(nodes, vs[i := Asked(vs[i], txn, connect, link)])
    {
      hide Prepared, Vote;
      assert nodes[i].Valid();
      reply := "ErrorNo";
      if link != Deaf {
        var answer := nodes[i].TMPrepare(txn, connect);
        reply := if link == Mute then "ErrorNo" else answer;
      }
    }

    /** One decision message; the manager does not look at what comes back. */
    static method TellOne(nodes: seq<LaptopFactory>, i: nat, id: Int32, allOk: bool, nets: nat -> Net, link: Link,
                          ghost vs: seq<Node>)
      requires Distinct(nodes) && AllReady(nodes) && HaveViews(nodes, vs) && i < |nodes|
      modifies nodes[i]
      ensures AllReady(nodes)
      ensures HaveViews(nodes, vs[i := Decided(vs[i], id, allOk, nets, link)])
    {
      hide Committed, Aborted;
      assert nodes[i].Valid();
      if link == Works {
        if allOk {
          var _ := nodes[i].TMCommit(id, 0, nets);
        } else {
          var _ := nodes[i].TMAbort(id);
        }
      }
    }

    /** The prepare loop: it stops at the first "No"; the nodes behind it are never asked. */
    static method PrepareAll(nodes: seq<LaptopFactory>, txn: Txn, env: Env, ghost was: seq<Node>)
      returns (allOk: bool, ghost asked: nat, ghost vs: seq<Node>)
      requires Distinct(nodes) && AllReady(nodes) && HaveViews(nodes, was)
      modifies nodes
      ensures AllReady(nodes) && HaveViews(nodes, vs)
      ensures allOk <==> NoneSaysNo(was, txn.readSet, env.link)
      ensures asked <= |nodes| && AskedFirst(was, vs, txn, env, asked)
      ensures forall k | 0 <= k < asked :: !SaysNo(was[k], txn.readSet, env.link(k))
      ensures if allOk then asked == |nodes| else asked < |nodes| && SaysNo(was[asked], txn.readSet, env.link(asked))
    {
      hide Asked, SaysNo;
      allOk, asked, vs := true, 0, was;
      for i := 0 to |nodes|
        invariant allOk && asked == i && AllReady(nodes) && HaveViews(nodes, vs)
        invariant forall k | 0 <= k < i :: !SaysNo(was[k], txn.readSet, env.link(k))
        invariant AskedFirst(was, vs, txn, env, i)
      {
        assert nodes[i].Valid();
        var reply := AskOne(nodes, i, txn, env.onPrepare(i), env.link(i), vs);
        vs := vs[i := Asked(vs[i], txn, env.onPrepare(i), env.link(i))];
        if reply == "No" {
          RefusalChangesNothing(was[i], txn, env.onPrepare(i), env.link(i));
          allOk := false;
          break;
        }
        asked := i + 1;
      }
    }

    /** The decision loop: every connected node is told, asked or not. */
    static method DecideAll(nodes: seq<LaptopFactory>, id: Int32, allOk: bool, env: Env, ghost was: seq<Node>)
      returns (ghost vs: seq<Node>)
      requires Distinct(nodes) && AllReady(nodes) && HaveViews(nodes, was)
      modifies nodes
      ensures AllReady(nodes) && HaveViews(nodes, vs)
      ensures ToldFirst(was, vs, id, allOk, env, |nodes|)
    {
      hide Decided;
      vs := was;
      for i := 0 to |nodes|
        invariant AllReady(nodes) && HaveViews(nodes, vs)
        invariant ToldFirst(was, vs, id, allOk, env, i)
      {
        assert nodes[i].Valid();
        TellOne(nodes, i, id, allOk, env.onCommit(i), env.link(i), vs);
        vs := vs[i := Decided(vs[i], id, allOk, env.onCommit(i), env.link(i))];
      }
    }

    /** Both loops over the connected nodes. */
    static method TwoPhases(nodes: seq<LaptopFactory>, txn: Txn, env: Env) returns (allOk: bool)
      requires Distinct(nodes) && AllReady(nodes) && Fresh(Views(nodes), txn.id) && txn.id < 0x7fff_ffff
      modifies nodes
      ensures AllReady(nodes) && Fresh(Views(nodes), txn.id + 1)
      ensures FullOutcome(old(Views(nodes)), Views(nodes), txn, env.link, allOk)
    {
      ghost var was := Views(nodes);
      assert HaveViews(nodes, was);
      hide TxnOutcome, LogsOutcome, NoneSaysNo, SaysNo, AskedFirst, ToldFirst, Fresh, AllReady, Distinct;
      ghost var asked, mid;
      allOk, asked, mid := PrepareAll(nodes, txn, env, was);
      ghost var vs := DecideAll(nodes, txn.id, allOk, env, mid);
      TwoPhaseIsAtomic(was, mid, vs, txn, env, asked, allOk);
      LoopsLogs(was, mid, vs, txn, env, asked, allOk);
      assert Views(nodes) == vs;
    }

    static method Coordinate(nodes: seq<LaptopFactory>, txn: Txn, env: Env) returns (allOk: bool)
      requires Distinct(nodes) && txn.id < 0x7fff_ffff
      requires forall n | n in nodes :: Ready(n, txn.id)
      modifies nodes
      ensures forall n | n in nodes :: Ready(n, txn.id + 1)
      ensures allOk <==> NoneSaysNo(old(Views(nodes)), txn.readSet, env.link)
      ensures FullOutcome(old(Views(nodes)), Views(nodes), txn, env.link, allOk)
    {
      ReadyToFresh(nodes, txn.id);
      hide LogsOutcome;
      allOk := TwoPhases(nodes, txn, env);
      FreshToReady(nodes, txn.id + 1);
    }

    /** The nodes the transaction does not touch stay ready for the next one. */
    method Serve(nodes: seq<LaptopFactory>, txn: Txn, env: Env) returns (allOk: bool)
      requires |rms| == |backups| && Distinct(nodes) && txn.id < 0x7fff_ffff
      requires forall i | 0 <= i < |nodes| :: nodes[i] in rms + backups
      requires forall n | n in rms + backups :: Ready(n, txn.id)
      modifies nodes
      ensures forall n | n in rms + backups :: Ready(n, txn.id + 1)
      ensures allOk <==> NoneSaysNo(old(Views(nodes)), txn.readSet, env.link)
      ensures FullOutcome(old(Views(nodes)), Views(nodes), txn, env.link, allOk)
    {
      hide Distinct, FullOutcome, NoneSaysNo, LogBelow, Views;
      allOk := Coordinate(nodes, txn, env);
      forall n | n in rms + backups
        ensures Ready(n, txn.id + 1)
      {
        if n !in nodes {
          assert old(Ready(n, txn.id));
          LogBelowLater(n.txnLog, txn.id);
        }
      }
    }

    /** Connect, and run the transaction if every cluster can be reached. */
    method Dispatch(txn: Txn, env: Env) returns (reply: string)
      requires |rms| == |backups| && Distinct(rms + backups) && txn.id < 0x7fff_ffff
      requires forall n | n in rms + backups :: Ready(n, txn.id)
      modifies rms, backups
      ensures forall n | n in rms + backups :: Ready(n, txn.id + 1)
      ensures reply == if Reachable(env.route) && NoneSaysNo(old(Views(Connected(env.route))), txn.readSet, env.link)
                       then "Success" else "Failed"
      ensures Reachable(env.route) ==>
                FullOutcome(old(Views(Connected(env.route))), Views(Connected(env.route)), txn, env.link, reply == "Success")
      ensures forall n | n in rms + backups && !(Reachable(env.route) && n in Connected(env.route)) :: unchanged(n)
    {
      hide Distinct, FullOutcome, NoneSaysNo, LogBelow, Views, Ready, Reachable, Connected;
      var nodes, ok := Connect(env.route);
      if !ok {
        ReadyLater(rms + backups, txn.id);
        return "Failed";
      }
      ConnectedDistinct(env.route);
      var allOk := Serve(nodes, txn, env);
      reply := if allOk then "Success" else "Failed";
    }

    /** The connected nodes: one a cluster, and never the node a transaction is not routed to. */
    lemma ConnectedAre(env: Env)
      requires |rms| == |backups| && Distinct(rms + backups)
      ensures forall i | 0 <= i < |rms| ::
                && Connected(env.route)[i] == (if env.route(i) == ToBackup then backups[i] else rms[i])
                && (if env.route(i) == ToBackup then rms[i] else backups[i]) !in Connected(env.route)
    {
      var (all, n) := (rms + backups, |rms|);
      forall i | 0 <= i < n
        ensures (if env.route(i) == ToBackup then rms[i] else backups[i]) !in Connected(env.route)
      {
        var idle := if env.route(i) == ToBackup then i else n + i;
        forall j | 0 <= j < n
          ensures Connected(env.route)[j] != all[idle]
        {
          var slot := if env.route(j) == ToBackup then n + j else j;
          assert Connected(env.route)[j] == all[slot] && slot != idle;
        }
        assert all[idle] == if env.route(i) == ToBackup then rms[i] else backups[i];
      }
    }

    /** One transaction, told of the nodes it is connected to. */
    method HandleConnected(request: Txn, env: Env) returns (reply: string)
      requires Valid() && transactionId < 0x7fff_ffff
      modifies this, rms, backups
      ensures Valid() && transactionId == old(transactionId) + 1
      ensures reply == if Reachable(env.route) && NoneSaysNo(old(Views(Connected(env.route))), request.readSet, env.link)
                       then "Success" else "Failed"
      ensures Reachable(env.route) ==>
                FullOutcome(old(Views(Connected(env.route))), Views(Connected(env.route)),
                            request.(id := old(transactionId)), env.link, reply == "Success")
      ensures forall n | n in rms + backups && !(Reachable(env.route) && n in Connected(env.route)) :: unchanged(n)
    {
      hide FullOutcome, NoneSaysNo, LogBelow, Views, Ready, Reachable, Connected, Distinct;
      var txn := request.(id := transactionId);
      transactionId := transactionId + 1;
      reply := Dispatch(txn, env);
    }

    /** The views of the nodes a transaction is routed to, among those of all nodes. */
    lemma TargetsAre(env: Env, s: Nodes, nodes: seq<Node>)
      requires |rms| == |backups| && s == Nodes(Views(rms), Views(backups)) && nodes == Views(Connected(env.route))
      requires Distinct(rms + backups)
      ensures |s.ps| == |s.bs| == |nodes| == |rms|
      ensures forall i | 0 <= i < |rms| :: nodes[i] == Target(s, env, i)
    {
      ConnectedAre(env);
      hide Connected, Distinct;
    }

    /** Which nodes of which clusters stay as they are. */
    method HandleFramed(request: Txn, env: Env) returns (ok: bool)
      requires Valid() && transactionId < 0x7fff_ffff
      modifies this, rms, backups
      ensures Valid() && transactionId == old(transactionId) + 1
      ensures if Reachable(env.route)
              then FullOutcome(old(Views(Connected(env.route))), Views(Connected(env.route)),
                               request.(id := old(transactionId)), env.link, ok)
              else !ok
      ensures |rms| == |backups| && forall i | 0 <= i < |rms| ::
                && (env.route(i) == ToBackup || !Reachable(env.route) ==> unchanged(rms[i]))
                && (env.route(i) != ToBackup || !Reachable(env.route) ==> unchanged(backups[i]))
    {
      ghost var nodes := Connected(env.route);
      ConnectedAre(env);
      assert |rms| == |backups|;
      assert forall i | 0 <= i < |rms| :: rms[i] in rms + backups && backups[i] in rms + backups;
      hide Valid, Distinct, Connected, Reachable, FullOutcome, NoneSaysNo, Views;
      var reply := HandleConnected(request, env);
      ok := reply == "Success";
    }

    /** The same, with the views of all nodes before and after. */
    method HandleSeen(request: Txn, env: Env, ghost was: Nodes, ghost wasNodes: seq<Node>)
      returns (ok: bool, ghost now: Nodes, ghost nowNodes: seq<Node>)
      requires Valid() && transactionId < 0x7fff_ffff && was == Nodes(Views(rms), Views(backups))
      requires wasNodes == Views(Connected(env.route))
      modifies this, rms, backups
      ensures Valid() && transactionId == old(transactionId) + 1 && |rms| == |backups|
      ensures now == Nodes(Views(rms), Views(backups)) && |wasNodes| == |nowNodes| == |rms|
      ensures if Reachable(env.route) then FullOutcome(wasNodes, nowNodes, request.(id := old(transactionId)), env.link, ok)
              else !ok
      ensures forall i | 0 <= i < |rms| ::
                && nowNodes[i] == Target(now, env, i)
                && (env.route(i) == ToBackup || !Reachable(env.route) ==> unchanged(rms[i]) && now.ps[i] == was.ps[i])
                && (env.route(i) != ToBackup || !Reachable(env.route) ==> unchanged(backups[i]) && now.bs[i] == was.bs[i])
    {
      assert |rms| == |backups| && Distinct(rms + backups);
      hide *;
      ok := HandleFramed(request, env);
      now := Nodes(Views(rms), Views(backups));
      nowNodes := Views(Connected(env.route));
      TargetsAre(env, now, nowNodes);
      forall i | 0 <= i < |rms| && (env.route(i) == ToBackup || !Reachable(env.route))
        ensures now.ps[i] == was.ps[i]
      {
        assert rms[i].View() == old(rms[i].View());
      }
      forall i | 0 <= i < |rms| && (env.route(i) != ToBackup || !Reachable(env.route))
        ensures now.bs[i] == was.bs[i]
      {
        assert backups[i].View() == old(backups[i].View());
      }
    }

    /** The same again, node by node of every cluster. */
    method HandleRouted(request: Txn, env: Env) returns (ok: bool, ghost was: Nodes, ghost now: Nodes)
      requires Valid() && transactionId < 0x7fff_ffff
      modifies this, rms, backups
      ensures Valid() && transactionId == old(transactionId) + 1 && |rms| == |backups|
      ensures was == old(Nodes(Views(rms), Views(backups))) && now == Nodes(Views(rms), Views(backups))
      ensures RoutedStep(was, now, request.(id := old(transactionId)), env, ok)
      ensures forall i | 0 <= i < |rms| ::
                && (env.route(i) == ToBackup || !Reachable(env.route) ==> unchanged(rms[i]))
                && (env.route(i) != ToBackup || !Reachable(env.route) ==> unchanged(backups[i]))
    {
      was := Nodes(Views(rms), Views(backups));
      ghost var wasNodes := Views(Connected(env.route));
      ghost var txn := request.(id := transactionId);
      TargetsAre(env, was, wasNodes);
      assert Reachable(env.route) <==> forall i | 0 <= i < |rms| :: env.route(i) != Down;
      assert |was.ps| == |rms| && |was.bs| == |backups|;
      hide *;
      ghost var nowNodes;
      ok, now, nowNodes := HandleSeen(request, env, was, wasNodes);
      if Reachable(env.route) {
        RoutedFrom(was, now, wasNodes, nowNodes, txn, env, ok);
      } else {
        NothingRouted(was, now, txn, env);
      }
    }

    /** The outcome at each cluster. */
    method HandleEach(request: Txn, env: Env) returns (ok: bool)
      requires Valid() && transactionId < 0x7fff_ffff
      modifies this, rms, backups
      ensures Valid() && transactionId == old(transactionId) + 1
      ensures !Up(env, |rms|) ==>
                !ok && forall i | 0 <= i < |rms| :: unchanged(rms[i]) && unchanged(backups[i])
      ensures |rms| == |backups| && forall i | 0 <= i < |rms| ::
                if env.route(i) == ToBackup then unchanged(rms[i]) else unchanged(backups[i])
      ensures Up(env, |rms|) ==>
                (ok <==> forall i | 0 <= i < |rms| ::
                  !SaysNo(old(if env.route(i) == ToBackup then Views(backups)[i] else Views(rms)[i]),
                          request.readSet, env.link(i)))
      ensures Up(env, |rms|) ==>
                forall i | 0 <= i < |rms| && env.route(i) == ToBackup ::
                  OneOutcome(old(Views(backups)[i]), Views(backups)[i], request.writeSet, ok && env.link(i) == Works)
      ensures Up(env, |rms|) ==>
                forall i | 0 <= i < |rms| && env.route(i) != ToBackup ::
                  OneOutcome(old(Views(rms)[i]), Views(rms)[i], request.writeSet, ok && env.link(i) == Works)
      ensures RoutedStep(old(Nodes(Views(rms), Views(backups))), Nodes(Views(rms), Views(backups)),
                         request.(id := old(transactionId)), env, ok)
    {
      assert Reachable(env.route) <==> Up(env, |rms|);
      hide *;
      ghost var was, now;
      ok, was, now := HandleRouted(request, env);
      RoutedMeans(old(Nodes(Views(rms), Views(backups))), Nodes(Views(rms), Views(backups)),
                  request.(id := old(transactionId)), env, ok);
    }

    /** One transaction from the client's message to the client's reply. If a cluster is down nothing happens; else the
        node of each cluster it is routed to, its primary or its backup, has its share of the outcome, and the
        other node of that cluster is not touched. */
    method Handle(request: Txn, env: Env) returns (reply: string)
      requires Valid() && transactionId < 0x7fff_ffff
      modifies this, rms, backups
      ensures Valid() && transactionId == old(transactionId) + 1
      ensures reply == "Success" || reply == "Failed"
      ensures !Up(env, |rms|) ==>
                reply == "Failed" && forall i | 0 <= i < |rms| :: unchanged(rms[i]) && unchanged(backups[i])
      ensures |rms| == |backups| && forall i | 0 <= i < |rms| ::
                if env.route(i) == ToBackup then unchanged(rms[i]) else unchanged(backups[i])
      ensures Up(env, |rms|) ==>
                (reply == "Success" <==> forall i | 0 <= i < |rms| ::
                  !SaysNo(old(if env.route(i) == ToBackup then Views(backups)[i] else Views(rms)[i]),
                          request.readSet, env.link(i)))
      ensures Up(env, |rms|) ==>
                forall i | 0 <= i < |rms| && env.route(i) == ToBackup ::
                  OneOutcome(old(Views(backups)[i]), Views(backups)[i], request.writeSet, reply == "Success" && env.link(i) == Works)
      ensures Up(env, |rms|) ==>
                forall i | 0 <= i < |rms| && env.route(i) != ToBackup ::
                  OneOutcome(old(Views(rms)[i]), Views(rms)[i], request.writeSet, reply == "Success" && env.link(i) == Works)
      ensures RoutedStep(old(Nodes(Views(rms), Views(backups))), Nodes(Views(rms), Views(backups)),
                         request.(id := old(transactionId)), env, reply == "Success")
    {
      hide *;
      var ok := HandleEach(request, env);
      reply := if ok then "Success" else "Failed";
      assert (reply == "Success") == ok;
    }

    /** What one node makes of its arrivals. */
    static method ArriveAt(nodes: seq<LaptopFactory>, j: nat, a: Arrival, next: Int32, ghost vs: seq<Node>)
      requires Distinct(nodes) && HaveViews(nodes, vs) && j < |nodes| && CopiesBelow(a.ms, next)
      requires forall n | n in nodes :: Ready(n, next)
      modifies nodes[j]
      ensures forall n | n in nodes :: Ready(n, next)
      ensures HaveViews(nodes, vs[j := Arrived(vs[j], a)])
    {
      hide LogBelow, Receive, CopiesBelow;
      assert Ready(nodes[j], next);
      ReceiveKeepsLogBelow(Peer(nodes[j].View(), a.mode), a.ms, next);
      var _ := nodes[j].ReceiveFlow(a.mode, a.ms);
    }

    /** Between two connections: what peers have sent each other arrives. */
    static method ArriveAll(nodes: seq<LaptopFactory>, inbox: nat -> Arrival, next: Int32, ghost was: seq<Node>)
      requires Distinct(nodes) && HaveViews(nodes, was)
      requires forall n | n in nodes :: Ready(n, next)
      requires forall j: nat :: CopiesBelow(inbox(j).ms, next)
      modifies nodes
      ensures forall n | n in nodes :: Ready(n, next)
      ensures HaveViews(nodes, AllArrived(was, inbox, 0))
    {
      hide Ready, Arrived, CopiesBelow;
      ghost var vs := was;
      ghost var all := AllArrived(was, inbox, 0);
      for j := 0 to |nodes|
        invariant (forall n | n in nodes :: Ready(n, next)) && HaveViews(nodes, vs)
        invariant forall k | 0 <= k < |vs| :: vs[k] == if k < j then all[k] else was[k]
      {
        ArriveAt(nodes, j, inbox(j), next, vs);
        vs := vs[j := Arrived(vs[j], inbox(j))];
      }
      assert vs == all;
    }

    lemma ViewsSplit(s: Nodes, inbox: nat -> Arrival)
      requires HaveViews(rms, s.ps) && HaveViews(backups, s.bs)
      ensures HaveViews(rms + backups, s.ps + s.bs)
      ensures AllArrived(s.ps + s.bs, inbox, 0) == AllArrived(s.ps, inbox, 0) + AllArrived(s.bs, inbox, |s.ps|)
    {
      hide Arrived;
    }

    lemma ViewsJoin(ps: seq<Node>, bs: seq<Node>)
      requires |ps| == |rms| && |bs| == |backups| && HaveViews(rms + backups, ps + bs)
      ensures Views(rms) == ps && Views(backups) == bs
    {
      forall i | 0 <= i < |rms|
        ensures Views(rms)[i] == ps[i]
      {
        assert (rms + backups)[i] == rms[i] && (ps + bs)[i] == ps[i];
      }
      forall i | 0 <= i < |backups|
        ensures Views(backups)[i] == bs[i]
      {
        assert (rms + backups)[|rms| + i] == backups[i] && (ps + bs)[|rms| + i] == bs[i];
      }
    }

    method Arrivals(inbox: nat -> Arrival, ghost mid: Nodes)
      requires Valid() && mid == Nodes(Views(rms), Views(backups))
      requires forall j: nat :: CopiesBelow(inbox(j).ms, transactionId)
      modifies rms, backups
      ensures Valid()
      ensures Nodes(Views(rms), Views(backups)) == Nodes(AllArrived(mid.ps, inbox, 0), AllArrived(mid.bs, inbox, |mid.ps|))
    {
      ViewsSplit(mid, inbox);
      hide Views, AllArrived, CopiesBelow, Ready;
      ArriveAll(rms + backups, inbox, transactionId, mid.ps + mid.bs);
      ViewsJoin(AllArrived(mid.ps, inbox, 0), AllArrived(mid.bs, inbox, |mid.ps|));
    }

    /** One accepted connection, and what arrives at the nodes before the next one. */
    method ServeOne(request: Txn, env: Env, inbox: nat -> Arrival) returns (ok: bool, reply: string)
      requires Valid() && transactionId < 0x7fff_ffff
      requires forall j: nat :: CopiesBelow(inbox(j).ms, transactionId + 1)
      modifies this, rms, backups
      ensures Valid() && transactionId == old(transactionId) + 1
      ensures reply == ReplyOf(ok)
      ensures ServedStep(old(Nodes(Views(rms), Views(backups))), Nodes(Views(rms), Views(backups)),
                         request.(id := old(transactionId)), env, inbox, ok)
    {
      hide Valid, Views, RoutedStep, AllArrived, CopiesBelow, OneOutcome;
      reply := Handle(request, env);
      ok := reply == "Success";
      ghost var mid := Nodes(Views(rms), Views(backups));
      Arrivals(inbox, mid);
    }

    ghost predicate ServedHere(start: Nodes, txns: seq<Txn>, envs: nat -> Env, inbox: nat -> nat -> Arrival, oks: seq<bool>)
      reads this, rms, backups
    {
      ServedFrom(start, Nodes(Views(rms), Views(backups)), txns, envs, inbox, oks)
    }

    method ServeNext(requests: seq<Txn>, envs: nat -> Env, inbox: nat -> nat -> Arrival, i: nat, ghost first: Int32,
                     ghost start: Nodes, ghost oks: seq<bool>)
      returns (ok: bool, reply: string)
      requires Valid() && i < |requests| && |oks| == i
      requires first as int + |requests| < 0x8000_0000 && transactionId as int == first + i
      requires forall j: nat :: CopiesBelow(inbox(i)(j).ms, first + i + 1)
      requires ServedHere(start, Numbered(requests, first)[..i], envs, inbox, oks)
      modifies this, rms, backups
      ensures Valid() && transactionId == old(transactionId) + 1
      ensures reply == ReplyOf(ok)
      ensures ServedHere(start, Numbered(requests, first)[..i + 1], envs, inbox, oks + [ok])
    {
      ghost var was := Nodes(Views(rms), Views(backups));
      ghost var txns := Numbered(requests, first);
      hide Valid, Views, ServedFrom, ServedStep, CopiesBelow;
      ok, reply := ServeOne(requests[i], envs(i), inbox(i));
      ServedOneMore(start, was, Nodes(Views(rms), Views(backups)), txns, envs, inbox, oks, i, ok);
    }

    /** The accept loop: it serves one connection after the other, over any routes and connections and with whatever
        arrives from peers in between. While no transaction goes to a backup and peers send the primaries nothing, every
        primary ends with exactly the transactions it took part in, and each answer follows from what the
        primaries had applied; on a calm network they stay equal to each other and to the serial effect of the
        transactions answered "Success". */
    method ServeAll(requests: seq<Txn>, envs: nat -> Env, inbox: nat -> nat -> Arrival)
      returns (replies: seq<string>, ghost oks: seq<bool>)
      requires Valid() && transactionId as int + |requests| < 0x8000_0000
      requires forall m: nat, j: nat :: CopiesBelow(inbox(m)(j).ms, transactionId + m + 1)
      modifies this, rms, backups
      ensures Valid() && |replies| == |oks| == |requests|
      ensures forall m | 0 <= m < |oks| :: replies[m] == if oks[m] then "Success" else "Failed"
      ensures ServedFrom(old(Nodes(Views(rms), Views(backups))), Nodes(Views(rms), Views(backups)),
                         Numbered(requests, old(transactionId)), envs, inbox, oks)
      ensures (forall m: nat :: Direct(envs(m)) && PrimariesAlone(inbox(m), |rms|)) ==>
                ServedWell(old(Views(rms)), Views(rms), Numbered(requests, old(transactionId)), envs, oks)
    {
      replies, oks := [], [];
      ghost var first := transactionId;
      ghost var start := Nodes(Views(rms), Views(backups));
      ghost var txns := Numbered(requests, first);
      hide Valid, Views, ServedFrom, ServedWell, Direct, CopiesBelow;
      NothingServed(start, txns, envs, inbox);
      assert ServedHere(start, txns[..0], envs, inbox, oks);
      hide *;
      for i := 0 to |requests|
        invariant Valid() && transactionId == old(transactionId) + i && |replies| == |oks| == i
        invariant ServedHere(start, txns[..i], envs, inbox, oks)
        invariant replies == Replies(oks)
      {
        var ok, reply := ServeNext(requests, envs, inbox, i, first, start, oks);
        RepliesSnoc(oks, ok);
        replies, oks := replies + [reply], oks + [ok];
      }
      assert txns[..|requests|] == txns;
      RepliesAre(oks);
      ServedHereWell(start, txns, envs, inbox, oks);
    }

    lemma ServedHereWell(start: Nodes, txns: seq<Txn>, envs: nat -> Env, inbox: nat -> nat -> Arrival, oks: seq<bool>)
      requires ServedHere(start, txns, envs, inbox, oks) && |start.ps| == |rms|
      ensures ServedFrom(start, Nodes(Views(rms), Views(backups)), txns, envs, inbox, oks)
      ensures (forall m: nat :: Direct(envs(m)) && PrimariesAlone(inbox(m), |rms|)) ==>
                ServedWell(start.ps, Views(rms), txns, envs, oks)
    {
      hide ServedFrom, ServedWell, Views, Direct, PrimariesAlone;
      if forall m: nat :: Direct(envs(m)) && PrimariesAlone(inbox(m), |rms|) {
        RunIsDirect(start, Nodes(Views(rms), Views(backups)), txns, envs, inbox, oks);
      }
    }
  }

  lemma ViewsAre(nodes: seq<LaptopFactory>)
    ensures HaveViews(nodes, Views(nodes))
  {
  }

  function Replies(oks: seq<bool>): (replies: seq<string>)
    ensures |replies| == |oks|
  {
    seq(|oks|, m requires 0 <= m < |oks| => ReplyOf(oks[m]))
  }

  lemma RepliesSnoc(oks: seq<bool>, ok: bool)
    ensures Replies(oks + [ok]) == Replies(oks) + [ReplyOf(ok)]
  {
    hide ReplyOf;
  }

  lemma RepliesAre(oks: seq<bool>)
    ensures forall m | 0 <= m < |oks| :: Replies(oks)[m] == if oks[m] then "Success" else "Failed"
  {
  }

  lemma LogBelowLater(d: TxnLog, next: Int32)
    requires next < 0x7fff_ffff && LogBelow(d, next)
    ensures LogBelow(d, next + 1)
  {
  }

  lemma ReadyLater(nodes: seq<LaptopFactory>, next: Int32)
    requires next < 0x7fff_ffff && forall n | n in nodes :: Ready(n, next)
    ensures forall n | n in nodes :: Ready(n, next + 1)
  {
    forall n | n in nodes
      ensures Ready(n, next + 1)
    {
      LogBelowLater(n.txnLog, next);
    }
  }

  lemma ReadyToFresh(nodes: seq<LaptopFactory>, next: Int32)
    requires forall n | n in nodes :: Ready(n, next)
    ensures AllReady(nodes) && Fresh(Views(nodes), next)
  {
    forall k | 0 <= k < |nodes|
      ensures nodes[k].Valid() && nodes[k].arq == [] && LogBelow(Views(nodes)[k].txnLog, next)
    {
      assert Ready(nodes[k], next);
    }
  }

  lemma FreshToReady(nodes: seq<LaptopFactory>, next: Int32)
    requires AllReady(nodes) && Fresh(Views(nodes), next)
    ensures forall n | n in nodes :: Ready(n, next)
  {
    forall n | n in nodes
      ensures Ready(n, next)
    {
      var k :| 0 <= k < |nodes| && nodes[k] == n;
      assert Views(nodes)[k] == n.View();
    }
  }

  lemma RefusalChangesNothing(n: Node, txn: Txn, connect: nat -> bool, link: Link)
    requires n.Valid() && SaysNo(n, txn.readSet, link)
    ensures Asked(n, txn, connect, link) == n
  {
  }
}
