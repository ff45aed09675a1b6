/** The whole system: clients read record by record while the manager runs one transaction at a time over n
    resource managers, write by write. */
module Serializability {
  import opened Records
  import opened ResourceManager
  import opened Coordinator

  datatype Phase =
    | Idle
    | Preparing(txn: Txn, asked: nat)
    | Committing(txn: Txn, rm: nat, k: nat)

  /** A backup is behind its primary, so it knows only customers the first resource manager knows; nothing is said of
      the values it answers with. `readings` holds the reads each client has collected so far; `history` the committed transactions. */
  datatype State = State(rms: seq<Store>, next: Int32, phase: Phase, readings: map<nat, seq<CustRec>>, history: seq<Txn>)

  datatype Event =
    | Read(client: nat, rm: nat, cid: Int32)       // one record read at one resource manager
    | ReadStale(client: nat, answer: CustRec)      // one record read at a backup, however far behind
    | Submit(client: nat, writeSet: seq<Order>)    // the client sends what it read with its writes
    | Ask                                          // one prepare message and its answer
    | Write                                        // one write of the commit at the current resource manager
    | NextRm                                       // the commit at that resource manager is done
    | Finish                                       // every resource manager has committed

  function Init(base: Store, n: nat): (s: State)
    ensures |s.rms| == n && forall i | 0 <= i < n :: s.rms[i] == base
  {
    State(seq(n, _ => base), 0, Idle, map[], [])
  }

  function Readings(s: State, client: nat): seq<CustRec> {
    if client in s.readings then s.readings[client] else []
  }

  function Effect(txn: Txn): seq<MapOp> {
    OrderOps(ValidPrefix(txn.writeSet))
  }

  predicate Enabled(s: State, e: Event) {
    match e
    case Read(_, rm, cid) => rm < |s.rms| && cid != -1
    case ReadStale(_, answer) => s.rms != [] && (answer.cid == -1 || answer.cid in s.rms[0])
    case Submit(_, _) => s.phase == Idle && s.next < 0x7fff_ffff
    case Ask => s.phase.Preparing?
    case Write => s.phase.Committing? && s.phase.rm < |s.rms| && s.phase.k < |Effect(s.phase.txn)|
    case NextRm => s.phase.Committing? && s.phase.rm < |s.rms| && s.phase.k == |Effect(s.phase.txn)|
    case Finish => s.phase.Committing? && s.phase.rm == |s.rms|
  }

  function Next(s: State, e: Event): State
    requires Enabled(s, e)
  {
    match e
    case Read(client, rm, cid) =>
      s.(readings := s.readings[client := Readings(s, client) + [ReadOf(s.rms[rm], cid)]])
    case ReadStale(client, answer) => s.(readings := s.readings[client := Readings(s, client) + [answer]])
    case Submit(client, writeSet) =>
      s.(phase := Preparing(Txn(s.next, Readings(s, client), writeSet), 0), next := s.next + 1,
         readings := s.readings[client := []])
    case Ask =>
      var Preparing(txn, i) := s.phase;
      if i >= |s.rms| then s.(phase := Committing(txn, 0, 0))
      else if Vote(s.rms[i], txn.readSet) then s.(phase := Preparing(txn, i + 1))
      else s.(phase := Idle)
    case Write =>
      var Committing(txn, i, k) := s.phase;
      s.(rms := s.rms[i := Apply(s.rms[i], Effect(txn)[k])], phase := Committing(txn, i, k + 1))
    case NextRm => s.(phase := Committing(s.phase.txn, s.phase.rm + 1, 0))
    case Finish => s.(phase := Idle, history := s.history + [s.phase.txn])
  }

  datatype Outcome = Ended(s: State) | Impossible

  function Trace(s: State, events: seq<Event>): Outcome
    decreases |events|
  {
    if events == [] then Ended(s)
    else if !Enabled(s, events[0]) then Impossible
    else Trace(Next(s, events[0]), events[1..])
  }

  predicate Reaches(base: Store, n: nat, events: seq<Event>, s: State) {
    Trace(Init(base, n), events) == Ended(s)
  }

  /** The committed transactions one after the other. */
  function Serial(base: Store, history: seq<Txn>): Store {
    if history == [] then base
    else Fold(Serial(base, history[..|history| - 1]), Effect(history[|history| - 1]))
  }

  /** A read of a present customer that the store confirms. */
  predicate Confirmed(s: Store, r: CustRec) {
    r.cid != -1 ==> r.cid in s && s[r.cid] == r.last
  }

  predicate ReadsKnown(s: Store, rs: seq<CustRec>) {
    forall i | 0 <= i < |rs| :: rs[i].cid != -1 ==> rs[i].cid in s
  }

  /** Where resource manager `i` stands while `txn` is on its way to all of them. */
  function Progress(now: Store, phase: Phase, i: nat): Store {
    if phase.Committing? && i < phase.rm then Fold(now, Effect(phase.txn))
    else if phase.Committing? && i == phase.rm && phase.k <= |Effect(phase.txn)| then Fold(now, Effect(phase.txn)[..phase.k])
    else now
  }

  predicate Sequential(base: Store, history: seq<Txn>) {
    forall m, i | 0 <= m < |history| && 0 <= i < |history[m].readSet| ::
      Confirmed(Serial(base, history[..m]), history[m].readSet[i])
  }

  ghost predicate Inv(base: Store, n: nat, s: State) {
    var now := Serial(base, s.history);
    && n > 0 && |s.rms| == n
    && (forall i | 0 <= i < n :: s.rms[i] == Progress(now, s.phase, i))
    && (s.phase.Committing? ==> s.phase.rm <= n && s.phase.k <= |Effect(s.phase.txn)| && (s.phase.rm == n ==> s.phase.k == 0))
    && (s.phase.Preparing? && s.phase.asked > 0 ==> Vote(now, s.phase.txn.readSet))
    && (s.phase.Committing? ==> Vote(now, s.phase.txn.readSet))
    && (!s.phase.Idle? ==> ReadsKnown(now, s.phase.txn.readSet) && s.phase.txn.id < s.next)
    && (forall c | c in s.readings :: ReadsKnown(s.rms[0], s.readings[c]))
    && Sequential(base, s.history)
    && IdsIncrease(s.history, if s.phase.Idle? then s.next else s.phase.txn.id)
  }

  lemma {:induction false} FoldGrows(s: Store, ops: seq<MapOp>, k: nat)
    requires k <= |ops|
    ensures Fold(s, ops[..k]).Keys <= Fold(s, ops).Keys
  {
    if k < |ops| {
      assert ops[..|ops| - 1][..k] == ops[..k];
      FoldGrows(s, ops[..|ops| - 1], k);
    } else {
      assert ops[..k] == ops;
    }
  }

  /** The first resource manager commits first, so it knows every customer any of them knows. */
  lemma FirstKnowsAll(base: Store, n: nat, s: State, i: nat)
    requires Inv(base, n, s) && i < n
    ensures s.rms[i].Keys <= s.rms[0].Keys
  {
    hide Serial, Sequential, Vote, Effect, ReadsKnown, Fold;
    var now := Serial(base, s.history);
    assert s.rms[i] == Progress(now, s.phase, i) && s.rms[0] == Progress(now, s.phase, 0);
    if s.phase.Committing? {
      var ops := Effect(s.phase.txn);
      FoldKeepsCustomers(now, ops);
      FoldKeepsCustomers(now, ops[..s.phase.k]);
      FoldGrows(now, ops, s.phase.k);
    }
  }

  lemma ReadKeepsInv(base: Store, n: nat, s: State, e: Event)
    requires Inv(base, n, s) && Enabled(s, e) && (e.Read? || e.ReadStale?)
    ensures Inv(base, n, Next(s, e))
  {
    hide Serial, Sequential, Vote, Effect, Progress;
    if e.Read? {
      FirstKnowsAll(base, n, s, e.rm);
    }
  }

  lemma SubmitKeepsInv(base: Store, n: nat, s: State, e: Event)
    requires Inv(base, n, s) && Enabled(s, e) && e.Submit?
    ensures Inv(base, n, Next(s, e))
  {
    hide Serial, Sequential, Vote, Effect;
    assert s.rms[0] == Progress(Serial(base, s.history), s.phase, 0);
  }

  lemma AskKeepsInv(base: Store, n: nat, s: State)
    requires Inv(base, n, s) && Enabled(s, Ask)
    ensures Inv(base, n, Next(s, Ask))
  {
    var now := Serial(base, s.history);
    assert s.phase.asked >= n ==> Vote(now, s.phase.txn.readSet);
    assert s.phase.asked < n ==> s.rms[s.phase.asked] == Progress(now, s.phase, s.phase.asked) == now;
    assert Fold(now, Effect(s.phase.txn)[..0]) == now;
    hide Serial, Sequential, Vote, Effect, Fold, ReadsKnown;
  }

  lemma WriteKeepsInv(base: Store, n: nat, s: State)
    requires Inv(base, n, s) && Enabled(s, Write)
    ensures Inv(base, n, Next(s, Write))
  {
    hide Serial, Sequential, Vote, Effect;
    var (now, ops, k) := (Serial(base, s.history), Effect(s.phase.txn), s.phase.k);
    var t := Next(s, Write);
    assert s.rms[s.phase.rm] == Progress(now, s.phase, s.phase.rm);
    assert ops[..k + 1][..k] == ops[..k];
    assert Fold(now, ops[..k + 1]) == Apply(Fold(now, ops[..k]), ops[k]);
    hide Fold;
    assert forall c | c in s.readings :: ReadsKnown(t.rms[0], t.readings[c]);
  }

  lemma NextRmKeepsInv(base: Store, n: nat, s: State)
    requires Inv(base, n, s) && Enabled(s, NextRm)
    ensures Inv(base, n, Next(s, NextRm))
  {
    var (now, ops) := (Serial(base, s.history), Effect(s.phase.txn));
    assert ops[..s.phase.k] == ops;
    assert Fold(now, ops[..0]) == now;
    hide Serial, Sequential, Vote, Effect, ReadsKnown, Fold;
    var t := Next(s, NextRm);
    forall i | 0 <= i < n
      ensures t.rms[i] == Progress(now, t.phase, i)
    {
      assert s.rms[i] == Progress(now, s.phase, i);
    }
  }

  lemma SerialSnoc(base: Store, history: seq<Txn>, txn: Txn)
    ensures Serial(base, history + [txn]) == Fold(Serial(base, history), Effect(txn))
  {
    assert (history + [txn])[..|history|] == history;
  }

  /** A yes vote confirms every read of a customer the store knows. */
  lemma VoteConfirms(s: Store, rs: seq<CustRec>, i: nat)
    requires Vote(s, rs) && ReadsKnown(s, rs) && i < |rs|
    ensures Confirmed(s, rs[i])
  {
    assert rs[i] in rs;
  }

  lemma SequentialSnoc(base: Store, history: seq<Txn>, txn: Txn)
    requires Sequential(base, history) && Vote(Serial(base, history), txn.readSet)
    requires ReadsKnown(Serial(base, history), txn.readSet)
    ensures Sequential(base, history + [txn])
  {
    hide Serial, Confirmed, Vote, ReadsKnown;
    var h := history + [txn];
    forall m, i | 0 <= m < |h| && 0 <= i < |h[m].readSet|
      ensures Confirmed(Serial(base, h[..m]), h[m].readSet[i])
    {
      if m < |history| {
        assert h[..m] == history[..m] && h[m] == history[m];
      } else {
        assert h[..m] == history;
        VoteConfirms(Serial(base, history), txn.readSet, i);
      }
    }
  }

  predicate IdsIncrease(history: seq<Txn>, bound: Int32) {
    (forall i, j | 0 <= i < j < |history| :: history[i].id < history[j].id)
    && (forall i | 0 <= i < |history| :: history[i].id < bound)
  }

  lemma FinishKeepsInv(base: Store, n: nat, s: State)
    requires Inv(base, n, s) && Enabled(s, Finish)
    ensures Inv(base, n, Next(s, Finish))
  {
    hide Serial, Sequential, Vote, Effect, ReadsKnown, Fold;
    var now := Serial(base, s.history);
    SerialSnoc(base, s.history, s.phase.txn);
    SequentialSnoc(base, s.history, s.phase.txn);
    assert IdsIncrease(s.history + [s.phase.txn], s.next);
    hide IdsIncrease;
    forall i | 0 <= i < n
      ensures s.rms[i] == Fold(now, Effect(s.phase.txn))
    {
      assert s.rms[i] == Progress(now, s.phase, i);
    }
  }

  lemma StepKeepsInv(base: Store, n: nat, s: State, e: Event)
    requires Inv(base, n, s) && Enabled(s, e)
    ensures Inv(base, n, Next(s, e))
  {
    hide Inv;
    match e
    case Read(_, _, _) => ReadKeepsInv(base, n, s, e);
    case ReadStale(_, _) => ReadKeepsInv(base, n, s, e);
    case Submit(_, _) => SubmitKeepsInv(base, n, s, e);
    case Ask => AskKeepsInv(base, n, s);
    case Write => WriteKeepsInv(base, n, s);
    case NextRm => NextRmKeepsInv(base, n, s);
    case Finish => FinishKeepsInv(base, n, s);
  }

  lemma {:induction false} RunsKeepInv(base: Store, n: nat, s: State, events: seq<Event>)
    requires Inv(base, n, s)
    ensures Trace(s, events).Ended? ==> Inv(base, n, Trace(s, events).s)
    decreases |events|
  {
    hide Inv;
    if events != [] && Enabled(s, events[0]) {
      StepKeepsInv(base, n, s, events[0]);
      RunsKeepInv(base, n, Next(s, events[0]), events[1..]);
    }
  }

  lemma Reached(base: Store, n: nat, events: seq<Event>, s: State)
    requires n > 0 && Reaches(base, n, events, s)
    ensures Inv(base, n, s)
  {
    assert Inv(base, n, Init(base, n));
    hide Inv, Init;
    RunsKeepInv(base, n, Init(base, n), events);
  }

  /** Serializability: in every run, every committed transaction read, of the customers present, exactly the
      state the transactions committed before it leave when run one after the other in order of their ids. */
  lemma CommittedReadsAreSerial(base: Store, n: nat, events: seq<Event>, s: State, m: nat, i: nat)
    requires n > 0 && Reaches(base, n, events, s)
    requires m < |s.history| && i < |s.history[m].readSet| && s.history[m].readSet[i].cid != -1
    ensures var (before, r) := (Serial(base, s.history[..m]), s.history[m].readSet[i]);
            r.cid in before && before[r.cid] == r.last
    ensures forall j | m < j < |s.history| :: s.history[m].id < s.history[j].id
  {
    Reached(base, n, events, s);
    hide Serial, Reaches, Vote, ReadsKnown, Progress;
    assert Confirmed(Serial(base, s.history[..m]), s.history[m].readSet[i]);
  }

  /** Between transactions all resource managers hold the result of running the committed ones one by one: they
      agree with each other for ever, and a failed transaction has left no trace. */
  lemma StoresAreSerial(base: Store, n: nat, events: seq<Event>, s: State, i: nat)
    requires n > 0 && Reaches(base, n, events, s) && i < n && |s.rms| == n && !s.phase.Committing?
    ensures s.rms[i] == Serial(base, s.history)
  {
    Reached(base, n, events, s);
    hide Serial, Reaches, Vote, ReadsKnown, Sequential;
  }

  /** Which stale reads a vote catches: all but those of customers that did not exist when they were read and
      exist now. */
  lemma VoteCatchesStaleRead(earlier: Store, now: Store, c: Int32)
    requires c != -1 && -1 !in now && earlier.Keys <= now.Keys
    ensures (Agrees(now, ReadOf(earlier, c)) ==> ReadOf(earlier, c) == ReadOf(now, c)) <==> (c in earlier || c !in now)
  {
    assert NO_RECORD.cid == -1;
  }

  // ---- The same transaction at the transaction manager ----

  lemma TraceStep(s: State, e: Event, rest: seq<Event>)
    requires Enabled(s, e)
    ensures Trace(s, [e] + rest) == Trace(Next(s, e), rest)
  {
    assert ([e] + rest)[1..] == rest;
  }

  lemma TraceEnd(s: State)
    ensures Trace(s, []) == Ended(s)
  {
  }

  function Asks(n: nat): seq<Event> {
    if n == 0 then [] else [Ask] + Asks(n - 1)
  }

  function Writes(n: nat): seq<Event> {
    if n == 0 then [] else [Write] + Writes(n - 1)
  }

  function Commits(rms: nat, writes: nat): seq<Event> {
    if rms == 0 then [] else Writes(writes) + ([NextRm] + Commits(rms - 1, writes))
  }

  /** One transaction without interruption, `asked` nodes having voted yes before the prepare loop ended. */
  function TxnEvents(client: nat, writeSet: seq<Order>, rms: nat, asked: nat, ok: bool): seq<Event> {
    [Submit(client, writeSet)]
    + (Asks(asked) + ([Ask] + if ok then Commits(rms, |OrderOps(ValidPrefix(writeSet))|) + [Finish] else []))
  }

  lemma {:induction false} AsksRun(s: State, n: nat, rest: seq<Event>)
    requires s.phase.Preparing? && s.phase.asked + n <= |s.rms|
    requires forall i | s.phase.asked <= i < s.phase.asked + n :: Vote(s.rms[i], s.phase.txn.readSet)
    ensures Trace(s, Asks(n) + rest) == Trace(s.(phase := Preparing(s.phase.txn, s.phase.asked + n)), rest)
    decreases n
  {
    hide Trace, Vote;
    if n == 0 {
      assert Asks(n) + rest == rest;
    } else {
      assert Asks(n) + rest == [Ask] + (Asks(n - 1) + rest);
      TraceStep(s, Ask, Asks(n - 1) + rest);
      AsksRun(Next(s, Ask), n - 1, rest);
    }
  }

  /** The commit at one resource manager from its `k`th write on. */
  lemma {:induction false} WritesRun(s: State, n: nat, rest: seq<Event>)
    requires s.phase.Committing? && s.phase.rm < |s.rms| && s.phase.k + n == |Effect(s.phase.txn)|
    ensures var (i, ops) := (s.phase.rm, Effect(s.phase.txn));
            Trace(s, Writes(n) + rest)
            == Trace(s.(rms := s.rms[i := Fold(s.rms[i], ops[s.phase.k..])], phase := Committing(s.phase.txn, i, |ops|)), rest)
    decreases n
  {
    hide Trace, Effect;
    var (i, k, ops) := (s.phase.rm, s.phase.k, Effect(s.phase.txn));
    if n == 0 {
      assert Writes(n) + rest == rest && ops[k..] == [];
      assert s.rms[i := Fold(s.rms[i], [])] == s.rms;
    } else {
      assert Writes(n) + rest == [Write] + (Writes(n - 1) + rest);
      TraceStep(s, Write, Writes(n - 1) + rest);
      var t := Next(s, Write);
      WritesRun(t, n - 1, rest);
      FoldFirst(s.rms[i], ops, k);
      assert t.rms[i := Fold(t.rms[i], ops[k + 1..])] == s.rms[i := Fold(s.rms[i], ops[k..])];
    }
  }

  lemma FoldFirst(s: Store, ops: seq<MapOp>, k: nat)
    requires k < |ops|
    ensures Fold(Apply(s, ops[k]), ops[k + 1..]) == Fold(s, ops[k..])
  {
    FoldConcat(s, [ops[k]], ops[k + 1..]);
    FoldOne(s, ops[k]);
    assert [ops[k]] + ops[k + 1..] == ops[k..];
  }

  /** The stores after the nodes from `i` on have committed. */
  function CommittedFrom(rms: seq<Store>, ops: seq<MapOp>, i: nat): (r: seq<Store>)
    ensures |r| == |rms|
  {
    seq(|rms|, j requires 0 <= j < |rms| => if j < i then rms[j] else Fold(rms[j], ops))
  }

  lemma CommittedFromStep(rms: seq<Store>, ops: seq<MapOp>, i: nat)
    requires i < |rms|
    ensures CommittedFrom(rms[i := Fold(rms[i], ops)], ops, i + 1) == CommittedFrom(rms, ops, i)
  {
    hide Fold;
  }

  lemma {:induction false} CommitsRun(s: State, n: nat, rest: seq<Event>)
    requires s.phase.Committing? && s.phase.k == 0 && s.phase.rm + n == |s.rms|
    ensures var ops := Effect(s.phase.txn);
            Trace(s, Commits(n, |ops|) + rest)
            == Trace(s.(rms := CommittedFrom(s.rms, ops, s.phase.rm), phase := Committing(s.phase.txn, |s.rms|, 0)), rest)
    decreases n
  {
    hide Trace, Effect, Fold, Writes;
    var (i, ops) := (s.phase.rm, Effect(s.phase.txn));
    if n == 0 {
      assert Commits(n, |ops|) + rest == rest && CommittedFrom(s.rms, ops, i) == s.rms;
    } else {
      var tail := Commits(n - 1, |ops|) + rest;
      assert Commits(n, |ops|) + rest == Writes(|ops|) + ([NextRm] + tail);
      WritesRun(s, |ops|, [NextRm] + tail);
      assert ops[0..] == ops;
      var t := s.(rms := s.rms[i := Fold(s.rms[i], ops)], phase := Committing(s.phase.txn, i, |ops|));
      TraceStep(t, NextRm, tail);
      CommitsRun(Next(t, NextRm), n - 1, rest);
      CommittedFromStep(s.rms, ops, i);
    }
  }

  /** The state after one transaction run without interruption. */
  function AfterTxn(s: State, client: nat, writeSet: seq<Order>, ok: bool): State
    requires s.next < 0x7fff_ffff
  {
    var txn := Txn(s.next, Readings(s, client), writeSet);
    State(if ok then CommittedFrom(s.rms, Effect(txn), 0) else s.rms, s.next + 1, Idle,
          s.readings[client := []], s.history + if ok then [txn] else [])
  }

  lemma TxnRuns(s: State, client: nat, writeSet: seq<Order>, asked: nat, ok: bool)
    requires s.phase == Idle && s.next < 0x7fff_ffff && asked <= |s.rms|
    requires forall i | 0 <= i < asked :: Vote(s.rms[i], Readings(s, client))
    requires if ok then asked == |s.rms| else asked < |s.rms| && !Vote(s.rms[asked], Readings(s, client))
    ensures Trace(s, TxnEvents(client, writeSet, |s.rms|, asked, ok)) == Ended(AfterTxn(s, client, writeSet, ok))
  {
    hide Trace, Vote, Fold, ValidPrefix, OrderOps, Asks, Commits;
    var txn := Txn(s.next, Readings(s, client), writeSet);
    var commits := if ok then Commits(|s.rms|, |Effect(txn)|) + [Finish] else [];
    TraceStep(s, Submit(client, writeSet), Asks(asked) + ([Ask] + commits));
    var s1 := Next(s, Submit(client, writeSet));
    AsksRun(s1, asked, [Ask] + commits);
    var s2 := s1.(phase := Preparing(txn, asked));
    TraceStep(s2, Ask, commits);
    var s3 := Next(s2, Ask);
    if ok {
      CommitsRun(s3, |s.rms|, [Finish]);
      var s4 := s3.(rms := CommittedFrom(s3.rms, Effect(txn), 0), phase := Committing(txn, |s.rms|, 0));
      assert [Finish] + [] == [Finish];
      TraceStep(s4, Finish, []);
      TraceEnd(Next(s4, Finish));
    } else {
      TraceEnd(s3);
      assert s.history + [] == s.history;
    }
  }

  /** What the two loops of the manager do to the node objects, logged entries and admin queues included, is what the
      machine does in a run of its steps: start it in the records of nodes without a gap to which the id is new,
      and it ends in their records after `PrepareAll` and `DecideAll`. */
  lemma TwoPhasesRefine(s: State, client: nat, writeSet: seq<Order>,
                        was: seq<Node>, mid: seq<Node>, vs: seq<Node>, env: Env, asked: nat, ok: bool)
    requires s.phase == Idle && s.next < 0x7fff_ffff && Fresh(was, s.next)
    requires |was| == |s.rms| && forall i | 0 <= i < |was| :: was[i].record == s.rms[i] && was[i].Gap() == 0
    requires forall i: nat :: env.link(i) == Works
    requires LoopsEnd(was, mid, vs, Txn(s.next, Readings(s, client), writeSet), env, asked, ok)
    ensures var end := Trace(s, TxnEvents(client, writeSet, |was|, asked, ok));
            && end.Ended? && end.s == AfterTxn(s, client, writeSet, ok) && |end.s.rms| == |vs|
            && forall i | 0 <= i < |vs| :: end.s.rms[i] == vs[i].record && vs[i].Gap() == 0
    ensures Fresh(vs, s.next + 1)
  {
    var txn := Txn(s.next, Readings(s, client), writeSet);
    hide Vote, Fold, ValidPrefix, OrderOps, AskedFirst, ToldFirst, Fresh, Trace, TxnEvents;
    assert forall i | 0 <= i < |was| :: SaysNo(was[i], txn.readSet, env.link(i)) <==> !Vote(s.rms[i], txn.readSet);
    LoopsOutcome(was, mid, vs, txn, env, asked, ok);
    TxnRuns(s, client, writeSet, asked, ok);
    forall i | 0 <= i < |vs|
      ensures AfterTxn(s, client, writeSet, ok).rms[i] == vs[i].record && vs[i].Gap() == 0
    {
      assert OneOutcome(was[i], vs[i], txn.writeSet, ok && env.link(i) == Works);
    }
  }

  // ---- The same history at the transaction manager ----

  /** The transactions that were answered "Success". */
  function Successful(txns: seq<Txn>, oks: seq<bool>): seq<Txn>
    requires |txns| == |oks|
  {
    if txns == [] then [] else
      var n := |txns| - 1;
      Successful(txns[..n], oks[..n]) + if oks[n] then [txns[n]] else []
  }

  /** The state a run of two-phase commits leaves at every node is the serial run of those it reported successful. */
  lemma {:induction false} AppliedIsSerial(base: Store, txns: seq<Txn>, oks: seq<bool>)
    requires |txns| == |oks|
    ensures Applied(base, txns, oks) == Serial(base, Successful(txns, oks))
  {
    if txns != [] {
      var n := |txns| - 1;
      var before := Successful(txns[..n], oks[..n]);
      AppliedIsSerial(base, txns[..n], oks[..n]);
      SerialSnoc(base, before, txns[n]);
      assert before + [] == before;
    }
  }

  // ---- What the vote does not catch ----

  function FirstOrder(client: nat): seq<Event> {
    [Submit(client, [Order(7, 1, 1)]), Ask, Ask, Write, NextRm, Finish]
  }

  lemma FirstOrderCommits(s: State, client: nat, rest: seq<Event>)
    requires s.phase == Idle && s.next < 0x7fff_ffff && |s.rms| == 1 && -1 !in s.rms[0]
    requires Readings(s, client) == [NO_RECORD]
    ensures var txn := Txn(s.next, [NO_RECORD], [Order(7, 1, 1)]);
            Trace(s, FirstOrder(client) + rest)
            == Trace(State([s.rms[0][7 := 1]], s.next + 1, Idle, s.readings[client := []], s.history + [txn]), rest)
  {
    var txn := Txn(s.next, [NO_RECORD], [Order(7, 1, 1)]);
    assert ValidPrefix(txn.writeSet) == txn.writeSet by {
      assert ValidPrefix(txn.writeSet[1..]) == [];
    }
    assert Effect(txn) == [OpOf(7, 1)];
    hide Trace, Effect, ValidPrefix;
    var s1 := Next(s, Submit(client, txn.writeSet));
    var s2, s3 := Next(s1, Ask), s1.(phase := Committing(txn, 0, 0));
    var s4 := Next(s3, Write);
    var s5 := Next(s4, NextRm);
    var t5 := [Finish] + rest;
    assert FirstOrder(client) + rest == [Submit(client, txn.writeSet)] + ([Ask] + ([Ask] + ([Write] + ([NextRm] + t5))));
    TraceStep(s, Submit(client, txn.writeSet), [Ask] + ([Ask] + ([Write] + ([NextRm] + t5))));
    TraceStep(s1, Ask, [Ask] + ([Write] + ([NextRm] + t5)));
    TraceStep(s2, Ask, [Write] + ([NextRm] + t5));
    assert Next(s2, Ask) == s3;
    TraceStep(s3, Write, [NextRm] + t5);
    TraceStep(s4, NextRm, t5);
    TraceStep(s5, Finish, rest);
    assert s4.rms == [s.rms[0][7 := 1]];
  }

  /** Two clients read customer 7 before it exists; both first orders commit and one of them is lost. */
  lemma AbsentReadsLoseAnUpdate()
    ensures var s := Trace(Init(map[], 1), [Read(0, 0, 7), Read(1, 0, 7)] + (FirstOrder(0) + (FirstOrder(1) + [])));
            s.Ended? && |s.s.history| == 2 && s.s.rms == [map[7 := 1]]
  {
    hide Trace;
    var s0 := Init(map[], 1);
    var s1 := Next(s0, Read(0, 0, 7));
    var s2 := Next(s1, Read(1, 0, 7));
    var tail := FirstOrder(0) + (FirstOrder(1) + []);
    assert [Read(0, 0, 7), Read(1, 0, 7)] + tail == [Read(0, 0, 7)] + ([Read(1, 0, 7)] + tail);
    TraceStep(s0, Read(0, 0, 7), [Read(1, 0, 7)] + tail);
    TraceStep(s1, Read(1, 0, 7), tail);
    FirstOrderCommits(s2, 0, FirstOrder(1) + []);
    var first := Txn(s2.next, [NO_RECORD], [Order(7, 1, 1)]);
    var s3 := State([s2.rms[0][7 := 1]], s2.next + 1, Idle, s2.readings[0 := []], s2.history + [first]);
    FirstOrderCommits(s3, 1, []);
    var second := Txn(s3.next, [NO_RECORD], [Order(7, 1, 1)]);
    var s4 := State([s3.rms[0][7 := 1]], s3.next + 1, Idle, s3.readings[1 := []], s3.history + [second]);
    TraceEnd(s4);
    assert s4.rms[0] == map[7 := 1];
  }
}
