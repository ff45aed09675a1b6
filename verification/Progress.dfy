/** Honest clients get through: reads that no write has overtaken are confirmed, and the transaction commits. */
module Progress {
  import opened Records
  import opened ResourceManager
  import opened ClientWrites
  import opened Serializability
  import opened Conservation

  /** What a server with table `now` must answer: the number of a customer it has, and (-1, -1) for any other. */
  function Truth(now: Store, c: Int32): CustRec {
    if c in now then CustRec(c, now[c]) else CustRec(-1, -1)
  }

  /** The reads of a client's loop at a resource manager: each question gets its own answer. */
  lemma {:induction false} ServerAnswers(now: Store, cids: seq<Int32>)
    requires forall i | 0 <= i < |cids| :: cids[i] != -1
    ensures Answers(now, seq(|cids|, i requires 0 <= i < |cids| => Order(cids[i], -1, 2)))
            == seq(|cids|, i requires 0 <= i < |cids| => Truth(now, cids[i]))
  {
    var orders := seq(|cids|, i requires 0 <= i < |cids| => Order(cids[i], -1, 2));
    if cids != [] {
      var rest := cids[1..];
      ServerAnswers(now, rest);
      assert orders[1..] == seq(|rest|, i requires 0 <= i < |rest| => Order(rest[i], -1, 2));
    }
  }

  /** No write falls among the events, and the client neither submits nor asks a backup. */
  predicate Quiet(events: seq<Event>, client: nat) {
    forall e | e in events :: !e.Write? && !(e.Submit? && e.client == client) && !(e.ReadStale? && e.client == client)
  }

  /** The customers a client asks about. */
  function Asked(events: seq<Event>, client: nat): seq<Int32> {
    if events == [] then []
    else (if events[0].Read? && events[0].client == client then [events[0].cid] else []) + Asked(events[1..], client)
  }

  predicate AllHold(s: State, now: Store) {
    forall i | 0 <= i < |s.rms| :: s.rms[i] == now
  }

  function Truths(now: Store, cids: seq<Int32>): (rs: seq<CustRec>)
    ensures |rs| == |cids|
  {
    seq(|cids|, i requires 0 <= i < |cids| => Truth(now, cids[i]))
  }

  lemma QuietStep(s: State, e: Event, client: nat, now: Store)
    requires AllHold(s, now) && Enabled(s, e) && Quiet([e], client)
    ensures var t := Next(s, e);
            AllHold(t, now) && |t.rms| == |s.rms| && Readings(t, client) == Readings(s, client) + Truths(now, Asked([e], client))
  {
    hide Vote, OrderOps, ValidPrefix;
    assert e in [e];
    assert [e][1..] == [] && Asked([], client) == [];
    assert Readings(s, client) + [] == Readings(s, client);
    if e.Read? && e.client == client {
      assert Asked([e], client) == [e.cid];
      assert Truths(now, [e.cid]) == [Truth(now, e.cid)];
    }
  }

  lemma TruthsConcat(now: Store, a: seq<Int32>, b: seq<Int32>)
    ensures Truths(now, a + b) == Truths(now, a) + Truths(now, b)
  {
  }

  /** While no write falls, the tables stay, and what the client has read is the truth about them. */
  lemma {:induction false} QuietRun(s: State, events: seq<Event>, t: State, client: nat, now: Store)
    requires AllHold(s, now) && Quiet(events, client) && Trace(s, events) == Ended(t)
    ensures AllHold(t, now) && |t.rms| == |s.rms|
    ensures Readings(t, client) == Readings(s, client) + Truths(now, Asked(events, client))
    decreases |events|
  {
    hide Trace, AllHold, Truths, Asked, Quiet, Enabled, Next, Readings;
    FirstEvent(s, events, t, client);
    if events == [] {
      assert Truths(now, []) == [];
      assert Readings(s, client) + [] == Readings(s, client);
    } else {
      var (e, rest) := (events[0], events[1..]);
      QuietStep(s, e, client, now);
      QuietRun(Next(s, e), rest, t, client, now);
      TruthsConcat(now, Asked([e], client), Asked(rest, client));
    }
  }

  lemma FirstEvent(s: State, events: seq<Event>, t: State, client: nat)
    requires Quiet(events, client) && Trace(s, events) == Ended(t)
    ensures events == [] ==> t == s && Asked(events, client) == []
    ensures events != [] ==>
              && Enabled(s, events[0]) && Quiet([events[0]], client) && Quiet(events[1..], client)
              && Trace(Next(s, events[0]), events[1..]) == Ended(t)
              && Asked(events, client) == Asked([events[0]], client) + Asked(events[1..], client)
  {
    if events != [] {
      var (e, rest) := (events[0], events[1..]);
      assert e in events && forall f | f in rest :: f in events;
      hide Next, Enabled;
      assert [e][1..] == [] && Asked([], client) == [];
    }
  }

  lemma TruthsAgree(now: Store, cids: seq<Int32>)
    requires -1 !in now
    ensures Vote(now, Truths(now, cids))
  {
    forall r | r in Truths(now, cids)
      ensures Agrees(now, r)
    {
      var i :| 0 <= i < |cids| && r == Truth(now, cids[i]);
    }
  }

  lemma NoUnfilled(orders: seq<Order>)
    ensures forall op | op in OrderOps(ValidPrefix(orders)) :: op.arg1 != -1
  {
    ValidPrefixIsLongest(orders);
    var valid := ValidPrefix(orders);
    forall op | op in OrderOps(valid)
      ensures op.arg1 != -1
    {
      var i :| 0 <= i < |valid| && op == OpOf(valid[i].cid, valid[i].num);
      assert valid[i] in valid;
    }
  }

  lemma {:induction false} FoldKeepsOut(s: Store, ops: seq<MapOp>)
    requires -1 !in s && forall op | op in ops :: op.arg1 != -1
    ensures -1 !in Fold(s, ops)
  {
    if ops != [] {
      assert forall op | op in ops[..|ops| - 1] :: op in ops;
      assert ops[|ops| - 1] in ops;
      FoldKeepsOut(s, ops[..|ops| - 1]);
    }
  }

  /** The id of an unfilled order never becomes a customer. */
  lemma {:induction false} SerialKeepsOut(base: Store, history: seq<Txn>)
    requires -1 !in base
    ensures -1 !in Serial(base, history)
  {
    if history != [] {
      var n := |history| - 1;
      SerialKeepsOut(base, history[..n]);
      NoUnfilled(history[n].writeSet);
      FoldKeepsOut(Serial(base, history[..n]), Effect(history[n]));
    }
  }

  lemma {:induction false} TraceConcat(s: State, a: seq<Event>, t: State, b: seq<Event>)
    requires Trace(s, a) == Ended(t)
    ensures Trace(s, a + b) == Trace(t, b)
    decreases |a|
  {
    if a == [] {
      assert a + b == b;
    } else {
      TraceConcat(Next(s, a[0]), a[1..], t, b);
      assert (a + b)[1..] == a[1..] + b;
    }
  }

  /** Progress: from any reachable state without a commit under way, a client with nothing collected reads any
      customers at any resource managers, other clients doing what they like meanwhile; if no write falls among
      its reads, its transaction gets every vote and commits, whatever it writes. */
  lemma UndisturbedCommits(base: Store, n: nat, before: seq<Event>, s: State, quiet: seq<Event>, t: State,
                           client: nat, writeSet: seq<Order>)
    requires n > 0 && -1 !in base && Reaches(base, n, before, s) && !s.phase.Committing? && Readings(s, client) == []
    requires Quiet(quiet, client) && Trace(s, quiet) == Ended(t) && t.phase == Idle && t.next < 0x7fff_ffff
    ensures |t.rms| == n && AllHold(t, Serial(base, s.history))
    ensures var end := Trace(s, quiet + TxnEvents(client, writeSet, n, n, true));
            var txn := Txn(t.next, Truths(Serial(base, s.history), Asked(quiet, client)), writeSet);
            && end.Ended? && end.s.phase == Idle && end.s.history == t.history + [txn] && |end.s.rms| == n
            && forall i | 0 <= i < n :: end.s.rms[i] == Fold(t.rms[i], OrderOps(ValidPrefix(writeSet)))
  {
    var now := Serial(base, s.history);
    AtRest(base, n, before, s);
    SerialKeepsOut(base, s.history);
    QuietRun(s, quiet, t, client, now);
    TruthsAgree(now, Asked(quiet, client));
    assert [] + Truths(now, Asked(quiet, client)) == Truths(now, Asked(quiet, client));
    hide Trace, Fold, ValidPrefix, OrderOps, Serial, Vote, Reaches, TxnEvents, Truths, Asked, Quiet;
    TxnRuns(t, client, writeSet, n, true);
    TraceConcat(s, quiet, t, TxnEvents(client, writeSet, n, n, true));
  }

  lemma AtRest(base: Store, n: nat, before: seq<Event>, s: State)
    requires n > 0 && Reaches(base, n, before, s) && !s.phase.Committing?
    ensures |s.rms| == n && AllHold(s, Serial(base, s.history))
  {
    Reached(base, n, before, s);
    hide Serial, Reaches, Vote, ReadsKnown, Sequential;
  }

  /** And with what it builds from those reads, every customer it asked about in its loop ends at the number before
      plus the orders it places. */
  lemma UndisturbedAdds(base: Store, n: nat, before: seq<Event>, s: State, quiet: seq<Event>, t: State,
                        client: nat, writeSet: seq<Order>, input: Input, c: Int32, i: nat)
    requires n > 0 && -1 !in base && Reaches(base, n, before, s) && !s.phase.Committing? && Readings(s, client) == []
    requires Quiet(quiet, client) && Trace(s, quiet) == Ended(t) && t.phase == Idle && t.next < 0x7fff_ffff
    requires forall j | 0 <= j < |Asked(quiet, client)| :: Asked(quiet, client)[j] == j
    requires var readSet := Truths(Serial(base, s.history), Asked(quiet, client));
             Built(Txn(t.next, readSet, writeSet), input)
    requires i < n && NumberOf(Serial(base, s.history), c) >= 0
    requires Placed(input, c) > 0 ==> c < |Asked(quiet, client)|
    ensures var end := Trace(s, quiet + TxnEvents(client, writeSet, n, n, true));
            && end.Ended? && i < |end.s.rms|
            && NumberOf(end.s.rms[i], c) == NumberOf(Serial(base, s.history), c) + Placed(input, c)
  {
    var now := Serial(base, s.history);
    var txn := Txn(t.next, Truths(now, Asked(quiet, client)), writeSet);
    UndisturbedCommits(base, n, before, s, quiet, t, client, writeSet);
    TruthsConfirmed(now, Asked(quiet, client));
    assert Continues(now, txn, input, c) by {
      if Placed(input, c) > 0 && c in now {
        assert txn.readSet[c] == Truth(now, Asked(quiet, client)[c]);
      }
    }
    hide Trace, Serial, Reaches, Built, Continues, NumberOf, TxnEvents, Fold, Asked, Truths, Quiet;
    OneTransactionAdds(now, txn, input, c);
  }

  lemma TruthsConfirmed(now: Store, cids: seq<Int32>)
    ensures ReadsConfirmed(now, Truths(now, cids))
  {
  }
}
