/**
 The order path of apps/tradingd.cpp: one hot thread that submits intents into the
 ring and any number of submit workers that pop, gate, sign and send them.

 The ring is not abstracted: a thread inside try_push or try_pop advances by one
 atomic access of module Ring at a time, interleaved with everybody else's steps.
 Outcomes of foreign code (payload validation, the rate limiter, signing, the HTTP
 send) and the clock are chosen by the environment, as the parameters of an action.
 */
module Pipeline {

  import opened Common
  import R = Ring

  // ExecPayload reduced to what the path looks at, plus the decision time stamp.
  datatype Msg = Msg(strategy: nat, seqNo: nat, ttl: nat, decision: nat)

  datatype Kind = Expired | RateLimited | Shadow | SignError | TransportError | Submitted

  // Where the hot thread is inside InlineExecutor::submit.
  datatype Hot = HotIdle | Checking(m: Msg, valid: bool) | Pushing(m: Msg) | Dropping

  // Where a worker is inside submit_worker / process_order. k is the ring ticket.
  datatype Stage =
    | Polling
    | Fresh(m: Msg, k: nat)
    | Clocked(m: Msg, k: nat, age: nat)
    | Signing(m: Msg, k: nat, age: nat)
    | Sending(m: Msg, k: nat, age: nat)
    | Decided(k: nat, kind: Kind)
    | Stopped

  datatype Sent = Sent(k: nat, m: Msg)

  datatype Config = Config(ordersEnabled: bool, maxQueueAge: nat)

  datatype Counters = Counters(
    expired: nat, rateLimited: nat, shadow: nat, signErr: nat, transportErr: nat, submitted: nat)
  {
    function Sum(): nat { expired + rateLimited + shadow + signErr + transportErr + submitted }

    function Of(kind: Kind): nat {
      match kind
      case Expired => expired
      case RateLimited => rateLimited
      case Shadow => shadow
      case SignError => signErr
      case TransportError => transportErr
      case Submitted => submitted
    }

    function Bump(kind: Kind): (c: Counters)
      ensures c.Sum() == Sum() + 1 && forall k :: c.Of(k) == Of(k) + (if k == kind then 1 else 0)
    {
      match kind
      case Expired => this.(expired := expired + 1)
      case RateLimited => this.(rateLimited := rateLimited + 1)
      case Shadow => this.(shadow := shadow + 1)
      case SignError => this.(signErr := signErr + 1)
      case TransportError => this.(transportErr := transportErr + 1)
      case Submitted => this.(submitted := submitted + 1)
    }
  }

  // Thread 0 of the ring is the hot thread; the others are the workers.
  // submits, outcome and sent are histories.
  datatype Sys = Sys(
    cfg: Config,
    ring: R.State<Msg>,
    now: nat,
    stop: bool,
    hot: Hot,
    seqs: map<nat, nat>,
    workers: map<nat, Stage>,
    rejected: nat,
    droppedFull: nat,
    counters: Counters,
    submits: nat,
    outcome: map<nat, Kind>,
    sent: seq<Sent>)
  {
    function Work(w: nat, g: Stage): Sys { this.(workers := workers[w := g]) }
  }

  // ---------------------------------------------------------------- steps

  datatype Action =
    | Tick(dt: nat)
    | Signal                                      // g_stop is set (signal or shutdown)
    | Submit(strategy: nat, ttl: nat, valid: bool)
    | HotStep(weak: bool)
    | WorkerStep(w: nat, choice: bool)            // choice: weak CAS failure, or foreign success

  const HOT: nat := 0

  predicate TooOld(cfg: Config, m: Msg, age: nat) {
    (m.ttl != 0 && age > m.ttl) || age > cfg.maxQueueAge
  }

  function LastSeq(s: Sys, strategy: nat): nat {
    if strategy in s.seqs then s.seqs[strategy] else 0
  }

  function DoSubmit(s: Sys, strategy: nat, ttl: nat, valid: bool): Sys {
    if !s.hot.HotIdle? then s else
    var n := LastSeq(s, strategy) + 1;
    s.(seqs := s.seqs[strategy := n], submits := s.submits + 1,
       hot := Checking(Msg(strategy, n, ttl, s.now), valid))
  }

  function DoHot(s: Sys, weak: bool): Sys
    requires HOT in s.ring.pc && |s.ring.cells| > 0
  {
    match s.hot
    case HotIdle => s
    case Checking(m, valid) =>
      if valid then s.(hot := Pushing(m), ring := s.ring.At(HOT, R.PushLoad(m)))
      else s.(hot := HotIdle, rejected := s.rejected + 1)
    case Pushing(m) =>
      if s.ring.pc[HOT].PushDone? then
        s.(ring := s.ring.At(HOT, R.Idle), hot := if s.ring.pc[HOT].ok then HotIdle else Dropping)
      else s.(ring := R.Access(s.ring, HOT, weak))
    case Dropping => s.(hot := HotIdle, droppedFull := s.droppedFull + 1)
  }

  // process_order after the pop, one gate per step, in the source's order.
  function DoGate(s: Sys, w: nat, choice: bool): Sys
    requires w in s.workers
  {
    match s.workers[w]
    case Fresh(m, k) => s.Work(w, Clocked(m, k, if s.now >= m.decision then s.now - m.decision else 0))
    case Clocked(m, k, age) =>
      s.Work(w, if TooOld(s.cfg, m, age) then Decided(k, Expired)
                else if !choice then Decided(k, RateLimited)
                else if !s.cfg.ordersEnabled then Decided(k, Shadow)
                else Signing(m, k, age))
    case Signing(m, k, age) => s.Work(w, if choice then Sending(m, k, age) else Decided(k, SignError))
    case Sending(m, k, age) =>
      s.(sent := s.sent + [Sent(k, m)])
       .Work(w, Decided(k, if choice then Submitted else TransportError))
    case Decided(k, kind) =>
      s.(counters := s.counters.Bump(kind), outcome := s.outcome[k := kind]).Work(w, Polling)
    case _ => s
  }

  function DoWorker(s: Sys, w: nat, choice: bool): Sys
    requires w in s.workers && w in s.ring.pc && |s.ring.cells| > 0
  {
    if !s.workers[w].Polling? then DoGate(s, w, choice) else
    match s.ring.pc[w]
    case Idle => s.(ring := s.ring.At(w, R.PopLoad))
    case PopDone(None, _) =>
      s.(ring := s.ring.At(w, R.Idle)).Work(w, if choice && s.stop then Stopped else Polling)
    case PopDone(Some(m), k) => s.(ring := s.ring.At(w, R.Idle)).Work(w, Fresh(m, k))
    case _ => s.(ring := R.Access(s.ring, w, choice))
  }

  // Any action in any state; an action that is not possible leaves the state alone.
  function Do(s: Sys, a: Action): Sys {
    match a
    case Tick(dt) => s.(now := s.now + dt)
    case Signal => s.(stop := true)
    case Submit(strategy, ttl, valid) => DoSubmit(s, strategy, ttl, valid)
    case HotStep(weak) => if HOT in s.ring.pc && |s.ring.cells| > 0 then DoHot(s, weak) else s
    case WorkerStep(w, choice) =>
      if w in s.workers && w in s.ring.pc && |s.ring.cells| > 0 then DoWorker(s, w, choice) else s
  }

  function Exec(s: Sys, acts: seq<Action>): Sys
    decreases |acts|
  {
    if acts == [] then s else Do(Exec(s, acts[..|acts| - 1]), acts[|acts| - 1])
  }

  ghost predicate Init(s: Sys) {
    && R.Init(s.ring)
    && HOT in s.ring.pc && HOT !in s.workers && s.ring.pc.Keys == s.workers.Keys + {HOT}
    && s.hot.HotIdle? && (forall w | w in s.workers :: s.workers[w].Polling?)
    && s.seqs == map[] && s.rejected == s.droppedFull == s.submits == 0
    && s.counters == Counters(0, 0, 0, 0, 0, 0) && s.outcome == map[] && s.sent == []
  }

  // ---------------------------------------------------------------- invariant

  // The ticket of the order a worker is responsible for, from the moment its pop
  // claims it until its outcome is counted.
  function Held(s: Sys, w: nat): Option<nat>
    requires w in s.workers && w in s.ring.pc
  {
    match s.workers[w]
    case Polling => R.Taken(s.ring.pc[w])
    case Fresh(_, k) => Some(k)
    case Clocked(_, k, _) => Some(k)
    case Signing(_, k, _) => Some(k)
    case Sending(_, k, _) => Some(k)
    case Decided(k, _) => Some(k)
    case Stopped => None
  }

  ghost predicate Wired(s: Sys) {
    HOT in s.ring.pc && HOT !in s.workers && s.ring.pc.Keys == s.workers.Keys + {HOT}
  }

  ghost function InFlight(s: Sys): set<nat>
    requires Wired(s)
  {
    set w | w in s.workers && Held(s, w).Some?
  }

  // 1 while a submission is neither counted nor in the ring.
  function Entering(s: Sys): nat
    requires HOT in s.ring.pc
  {
    match s.hot
    case HotIdle => 0
    case Checking(_, _) => 1
    case Dropping => 1
    case Pushing(_) => if R.Entered(s.ring.pc[HOT]) then 0 else 1
  }

  // ---- the submitting side

  ghost predicate HotOk(s: Sys)
    requires HOT in s.ring.pc
  {
    var p := s.ring.pc[HOT];
    if s.hot.Pushing? then R.Pushing(p) && p.v == s.hot.m else p.Idle?
  }

  predicate SameId(a: Msg, b: Msg) { a.strategy == b.strategy && a.seqNo == b.seqNo }

  // Order ids: per strategy, the numbers 1, 2, ... in the order of submission.
  // Decisions are stamped with a clock that never goes back.
  ghost predicate IdsOk(s: Sys)
    requires HOT in s.ring.pc
  {
    var q := s.ring.pushed;
    && (forall i | 0 <= i < |q| :: q[i].seqNo <= LastSeq(s, q[i].strategy) && q[i].decision <= s.now)
    && (forall i, j | 0 <= i < j < |q| :: !SameId(q[i], q[j]))
    && (s.hot.Checking? || s.hot.Pushing? ==>
          s.hot.m.seqNo == LastSeq(s, s.hot.m.strategy) && s.hot.m.decision <= s.now)
    && ((s.hot.Checking? || s.hot.Pushing?) && Entering(s) == 1 ==>
          forall i | 0 <= i < |q| :: !SameId(q[i], s.hot.m))
  }

  ghost predicate HotSide(s: Sys) {
    && HOT in s.ring.pc
    && HotOk(s)
    && IdsOk(s)
    && |s.ring.pushed| == s.ring.enq
    && s.submits == s.rejected + s.droppedFull + Entering(s) + s.ring.enq
  }

  // ---- the working side

  ghost predicate Pushed(s: Sys, k: nat, m: Msg) {
    k < |s.ring.pushed| && s.ring.pushed[k] == m
  }

  ghost predicate WorkerOk(s: Sys, w: nat)
    requires w in s.workers && w in s.ring.pc
  {
    var p := s.ring.pc[w];
    var h := Held(s, w);
    && (p.Idle? || R.Popping(p))
    && (!s.workers[w].Polling? ==> p.Idle?)
    && (h.Some? ==> h.value < s.ring.deq && h.value !in s.outcome)
    && (match s.workers[w]
        case Fresh(m, k) => Pushed(s, k, m)
        case Clocked(m, k, _) => Pushed(s, k, m)
        case Signing(m, k, _) => Pushed(s, k, m)
        case Sending(m, k, _) => Pushed(s, k, m)
        case _ => true)
  }

  ghost predicate OneHolder(s: Sys) {
    Wired(s) &&
    forall v, w | v in s.workers && w in s.workers && v != w ::
      Held(s, v).Some? ==> Held(s, v) != Held(s, w)
  }

  // A worker whose order has already gone out.
  ghost predicate PastSend(g: Stage, k: nat) {
    g == Decided(k, Submitted) || g == Decided(k, TransportError)
  }

  ghost predicate Gone(s: Sys, k: nat) {
    || (k in s.outcome && PastSend(Decided(k, s.outcome[k]), k))
    || (exists w :: w in s.workers && PastSend(s.workers[w], k))
  }

  // Every transmitted order: it is the one pushed with its ticket, which is past sending.
  ghost predicate SentOk(s: Sys, e: Sent) {
    e.k < s.ring.deq && Pushed(s, e.k, e.m) && Gone(s, e.k)
  }

  ghost predicate SentsOk(s: Sys) {
    && (forall i | 0 <= i < |s.sent| :: SentOk(s, s.sent[i]))
    && (forall i, j | 0 <= i < j < |s.sent| :: s.sent[i].k != s.sent[j].k)
  }

  ghost predicate WorkersOk(s: Sys) {
    Wired(s) && forall w | w in s.workers :: WorkerOk(s, w)
  }

  ghost predicate Tally(s: Sys) {
    && Wired(s)
    && s.ring.deq == |InFlight(s)| + |s.outcome|
    && |s.outcome| == s.counters.Sum()
    && (forall k | k in s.outcome :: k < s.ring.deq)
  }

  ghost predicate WorkSide(s: Sys) {
    WorkersOk(s) && OneHolder(s) && SentsOk(s) && Tally(s)
  }

  ghost predicate Inv(s: Sys) {
    R.Inv(s.ring) && HotSide(s) && WorkSide(s)
  }

  // ---------------------------------------------------------------- preservation

  lemma InitInv(s: Sys)
    requires Init(s)
    ensures Inv(s)
  {
    R.InitInv(s.ring);
    assert InFlight(s) == {};
  }

  // The working side does not look at the hot thread.
  lemma WorkFrame(s: Sys, s': Sys)
    requires WorkSide(s)
    requires HotOnly(s, s')
    ensures WorkSide(s')
  {
    assert Wired(s');
    forall w | w in s'.workers ensures WorkerOk(s', w) && Held(s', w) == Held(s, w) { assert WorkerOk(s, w); }
    forall i | 0 <= i < |s'.sent| ensures SentOk(s', s'.sent[i]) { assert SentOk(s, s.sent[i]); }
    assert InFlight(s') == InFlight(s);
  }

  // The submitting side does not look at the workers.
  lemma HotFrame(s: Sys, s': Sys)
    requires HotSide(s)
    requires s'.hot == s.hot && s'.seqs == s.seqs && s'.now == s.now && s'.submits == s.submits
    requires s'.rejected == s.rejected && s'.droppedFull == s.droppedFull
    requires HOT in s'.ring.pc && s'.ring.pc[HOT] == s.ring.pc[HOT]
    requires s'.ring.enq == s.ring.enq && s'.ring.pushed == s.ring.pushed
    ensures HotSide(s')
  {
  }

  lemma HotRing(s: Sys, weak: bool)
    requires R.Inv(s.ring) && HOT in s.ring.pc && HotOk(s)
    ensures R.Inv(DoHot(s, weak).ring)
  {
    match s.hot {
      case HotIdle =>
      case Checking(m, valid) => if valid { R.LocalMove(s.ring, HOT, R.PushLoad(m)); }
      case Dropping =>
      case Pushing(m) =>
        if s.ring.pc[HOT].PushDone? { R.LocalMove(s.ring, HOT, R.Idle); } else { R.AccessInv(s.ring, HOT, weak); }
    }
  }

  // A hot-thread step leaves the workers' variables alone.
  ghost predicate HotOnly(s: Sys, s': Sys) {
    && s'.workers == s.workers && s'.outcome == s.outcome && s'.sent == s.sent && s'.cfg == s.cfg
    && s'.counters == s.counters && s'.ring.deq == s.ring.deq && s.ring.pushed <= s'.ring.pushed
    && R.OnlyMoved(s.ring, HOT, s'.ring)
  }

  lemma HotSideKept(s: Sys, weak: bool)
    requires HotSide(s) && |s.ring.cells| > 0
    ensures HotSide(DoHot(s, weak)) && HotOnly(s, DoHot(s, weak))
  {
    if s.hot.Pushing? && !s.ring.pc[HOT].PushDone? {
      R.AccessPushMove(s.ring, HOT, weak);
      HotMoved(s, R.Access(s.ring, HOT, weak));
    } else {
      HotLocal(s, weak);
    }
  }

  lemma HotLocal(s: Sys, weak: bool)
    requires HotSide(s) && |s.ring.cells| > 0
    requires s.hot.Pushing? ==> s.ring.pc[HOT].PushDone?
    ensures HotSide(DoHot(s, weak)) && HotOnly(s, DoHot(s, weak))
  {
    match s.hot
    case HotIdle =>
    case Checking(m, valid) => if valid { HotCalls(s, weak); }
    case Dropping =>
    case Pushing(m) => HotReturns(s, weak);
  }

  lemma HotCalls(s: Sys, weak: bool)
    requires HotSide(s) && |s.ring.cells| > 0 && s.hot.Checking? && s.hot.valid
    ensures HotSide(DoHot(s, weak)) && HotOnly(s, DoHot(s, weak))
  {
  }

  lemma HotReturns(s: Sys, weak: bool)
    requires HotSide(s) && |s.ring.cells| > 0 && s.hot.Pushing? && s.ring.pc[HOT].PushDone?
    ensures HotSide(DoHot(s, weak)) && HotOnly(s, DoHot(s, weak))
  {
  }

  lemma HotMoved(s: Sys, r: R.State<Msg>)
    requires HotSide(s) && s.hot.Pushing? && R.PushMove(s.ring, HOT, r)
    ensures HotSide(s.(ring := r)) && HotOnly(s, s.(ring := r))
  {
  }

  lemma SubmitHot(s: Sys, strategy: nat, ttl: nat, valid: bool)
    requires HotSide(s)
    ensures HotSide(DoSubmit(s, strategy, ttl, valid))
  {
  }

  // A worker step as the rest of the working side sees it.
  ghost predicate WorkOnly(s: Sys, w: nat, s': Sys) {
    && w in s.workers && s'.cfg == s.cfg && s'.ring.pushed == s.ring.pushed
    && s'.workers.Keys == s.workers.Keys && (forall v | v in s.workers && v != w :: s'.workers[v] == s.workers[v])
    && R.OnlyMoved(s.ring, w, s'.ring)
  }

  lemma OthersHold(s: Sys, w: nat, s': Sys)
    requires Wired(s) && WorkOnly(s, w, s')
    ensures Wired(s') && forall v | v in s.workers && v != w :: Held(s', v) == Held(s, v)
  {
  }

  lemma OthersOk(s: Sys, w: nat, s': Sys)
    requires WorkersOk(s) && OneHolder(s) && WorkOnly(s, w, s') && s'.ring.deq >= s.ring.deq
    requires forall k | k in s'.outcome && k !in s.outcome :: Held(s, w) == Some(k)
    requires Wired(s') && WorkerOk(s', w)
    ensures WorkersOk(s')
  {
    forall v | v in s.workers && v != w ensures WorkerOk(s', v) {
      assert WorkerOk(s, v);
    }
  }

  lemma StillOneHolder(s: Sys, w: nat, s': Sys)
    requires WorkersOk(s) && OneHolder(s) && WorkOnly(s, w, s') && Wired(s')
    requires Held(s', w) == Held(s, w) || Held(s', w) == None || Held(s', w) == Some(s.ring.deq)
    ensures OneHolder(s')
  {
    forall v | v in s.workers && v != w
      ensures Held(s', v) == Held(s, v) && Held(s', v) != Some(s.ring.deq)
      ensures Held(s', w).Some? ==> Held(s', v) != Held(s', w)
    {
      assert WorkerOk(s, v);
    }
  }

  lemma StillSent(s: Sys, w: nat, s': Sys)
    requires SentsOk(s) && WorkOnly(s, w, s') && s'.ring.deq >= s.ring.deq && s'.sent == s.sent
    requires forall k | k in s.outcome :: k in s'.outcome && s'.outcome[k] == s.outcome[k]
    requires forall k | PastSend(s.workers[w], k) :: Gone(s', k)
    ensures SentsOk(s')
  {
    forall i | 0 <= i < |s.sent| ensures SentOk(s', s.sent[i]) {
      assert SentOk(s, s.sent[i]);
      StillGone(s, w, s', s.sent[i].k);
    }
  }

  lemma StillGone(s: Sys, w: nat, s': Sys, k: nat)
    requires Gone(s, k) && WorkOnly(s, w, s')
    requires forall j | j in s.outcome :: j in s'.outcome && s'.outcome[j] == s.outcome[j]
    requires PastSend(s.workers[w], k) ==> Gone(s', k)
    ensures Gone(s', k)
  {
    if !(k in s.outcome && PastSend(Decided(k, s.outcome[k]), k)) {
      var v :| v in s.workers && PastSend(s.workers[v], k);
      assert v in s'.workers;
    }
  }

  lemma SameInFlight(s: Sys, w: nat, s': Sys)
    requires Wired(s) && WorkOnly(s, w, s') && Wired(s')
    ensures Held(s', w).Some? == Held(s, w).Some? ==> InFlight(s') == InFlight(s)
    ensures Held(s', w).Some? && Held(s, w).None? ==> InFlight(s') == InFlight(s) + {w} && w !in InFlight(s)
    ensures Held(s', w).None? && Held(s, w).Some? ==> InFlight(s') == InFlight(s) - {w} && w in InFlight(s)
  {
    OthersHold(s, w, s');
  }

  // The worker keeps what it holds: a pop access that claims nothing, handing the
  // popped order over, a gate, leaving the loop.
  lemma KeepsHolding(s: Sys, w: nat, s': Sys)
    requires WorkSide(s) && WorkOnly(s, w, s') && s'.ring.deq == s.ring.deq && s'.sent == s.sent
    requires s'.outcome == s.outcome && s'.counters == s.counters
    requires w in s'.ring.pc && Held(s', w) == Held(s, w) && WorkerOk(s', w)
    requires forall k | PastSend(s.workers[w], k) :: Gone(s', k)
    ensures WorkSide(s')
  {
    OthersHold(s, w, s');
    OthersOk(s, w, s');
    StillOneHolder(s, w, s');
    StillSent(s, w, s');
    SameInFlight(s, w, s');
  }

  lemma TakesTicket(s: Sys, w: nat, s': Sys)
    requires WorkSide(s) && WorkOnly(s, w, s') && s'.ring.deq == s.ring.deq + 1 && s'.sent == s.sent
    requires s'.outcome == s.outcome && s'.counters == s.counters
    requires Held(s, w) == None && w in s'.ring.pc && Held(s', w) == Some(s.ring.deq) && WorkerOk(s', w)
    requires s.workers[w].Polling?
    ensures WorkSide(s')
  {
    OthersHold(s, w, s');
    OthersOk(s, w, s');
    StillOneHolder(s, w, s');
    StillSent(s, w, s');
    SameInFlight(s, w, s');
  }

  lemma CountsOutcome(s: Sys, w: nat, choice: bool)
    requires WorkSide(s) && w in s.workers && s.workers[w].Decided?
    ensures WorkSide(DoGate(s, w, choice))
  {
    assert WorkerOk(s, w);
    Counted(s, w, s.workers[w].k, s.workers[w].kind, DoGate(s, w, choice));
  }

  lemma Counted(s: Sys, w: nat, k: nat, kind: Kind, s': Sys)
    requires WorkSide(s) && w in s.workers && s.workers[w] == Decided(k, kind) && WorkerOk(s, w)
    requires s' == s.(counters := s.counters.Bump(kind), outcome := s.outcome[k := kind]).Work(w, Polling)
    ensures WorkSide(s')
  {
    OthersHold(s, w, s');
    CountedWorkers(s, w, k, kind, s');
    StillSent(s, w, s');
    CountedTally(s, w, k, kind, s');
  }

  lemma CountedWorkers(s: Sys, w: nat, k: nat, kind: Kind, s': Sys)
    requires WorkersOk(s) && OneHolder(s) && w in s.workers && s.workers[w] == Decided(k, kind) && WorkerOk(s, w) && Wired(s')
    requires s' == s.(counters := s.counters.Bump(kind), outcome := s.outcome[k := kind]).Work(w, Polling)
    ensures WorkersOk(s') && OneHolder(s')
  {
    assert WorkerOk(s', w);
    OthersOk(s, w, s');
    StillOneHolder(s, w, s');
  }

  lemma CountedTally(s: Sys, w: nat, k: nat, kind: Kind, s': Sys)
    requires Tally(s) && w in s.workers && s.workers[w] == Decided(k, kind) && WorkerOk(s, w) && Wired(s')
    requires s' == s.(counters := s.counters.Bump(kind), outcome := s.outcome[k := kind]).Work(w, Polling)
    ensures Tally(s')
  {
    SameInFlight(s, w, s');
    assert s'.outcome.Keys == s.outcome.Keys + {k};
  }

  // Transmission: the ticket was not sent before, because nobody was past sending it.
  lemma Transmits(s: Sys, w: nat, choice: bool)
    requires WorkSide(s) && w in s.workers && s.workers[w].Sending?
    ensures WorkSide(DoGate(s, w, choice))
  {
    var k := s.workers[w].k;
    var mid := s.Work(w, Decided(k, if choice then Submitted else TransportError));
    assert WorkerOk(s, w);
    KeepsHolding(s, w, mid);
    forall i | 0 <= i < |s.sent| ensures s.sent[i].k != k { NotSentBefore(s, w, i); }
    SendOne(mid, w, Sent(k, s.workers[w].m));
  }

  lemma SendOne(s: Sys, w: nat, e: Sent)
    requires WorkSide(s) && w in s.workers && PastSend(s.workers[w], e.k)
    requires e.k < s.ring.deq && Pushed(s, e.k, e.m)
    requires forall i | 0 <= i < |s.sent| :: s.sent[i].k != e.k
    ensures WorkSide(s.(sent := s.sent + [e]))
  {
    var s' := s.(sent := s.sent + [e]);
    forall i | 0 <= i < |s'.sent| ensures SentOk(s', s'.sent[i]) {
      if i < |s.sent| { assert SentOk(s, s.sent[i]); }
    }
    WorkersFrame(s, s');
  }

  lemma WorkersFrame(s: Sys, s': Sys)
    requires WorkersOk(s) && OneHolder(s) && Tally(s) && s' == s.(sent := s'.sent)
    ensures WorkersOk(s') && OneHolder(s') && Tally(s')
  {
    forall w | w in s'.workers ensures Held(s', w) == Held(s, w) && WorkerOk(s', w) { assert WorkerOk(s, w); }
    assert InFlight(s') == InFlight(s);
  }

  lemma NotSentBefore(s: Sys, w: nat, i: nat)
    requires WorkersOk(s) && OneHolder(s) && SentsOk(s) && w in s.workers && s.workers[w].Sending? && i < |s.sent|
    ensures s.sent[i].k != s.workers[w].k
  {
    assert SentOk(s, s.sent[i]) && WorkerOk(s, w);
    if s.sent[i].k !in s.outcome {
      var v :| v in s.workers && PastSend(s.workers[v], s.sent[i].k);
      assert Held(s, v) == Some(s.sent[i].k) && Held(s, w) == Some(s.workers[w].k);
    }
  }

  lemma GateKept(s: Sys, w: nat, choice: bool)
    requires WorkSide(s) && w in s.workers && !s.workers[w].Polling?
    ensures WorkSide(DoGate(s, w, choice))
  {
    if s.workers[w].Decided? {
      CountsOutcome(s, w, choice);
    } else if s.workers[w].Sending? {
      Transmits(s, w, choice);
    } else {
      PlainGate(s, w, choice);
    }
  }

  lemma PlainGate(s: Sys, w: nat, choice: bool)
    requires WorkSide(s) && w in s.workers
    requires s.workers[w].Fresh? || s.workers[w].Clocked? || s.workers[w].Signing? || s.workers[w].Stopped?
    ensures WorkSide(DoGate(s, w, choice))
  {
    assert WorkerOk(s, w);
    if !s.workers[w].Stopped? {
      KeepsHolding(s, w, DoGate(s, w, choice));
    }
  }

  // The ring after a polling worker's step.
  lemma WorkerRing(s: Sys, w: nat, choice: bool)
    requires R.Inv(s.ring) && w in s.ring.pc && w in s.workers && s.workers[w].Polling?
    requires s.ring.pc[w].Idle? || R.Popping(s.ring.pc[w])
    ensures R.Inv(DoWorker(s, w, choice).ring)
  {
    var p := s.ring.pc[w];
    if p.Idle? {
      R.LocalMove(s.ring, w, R.PopLoad);
    } else if p.PopDone? {
      R.LocalMove(s.ring, w, R.Idle);
    } else {
      R.AccessInv(s.ring, w, choice);
    }
  }

  // A finished pop of worker w reports the value pushed with its ticket.
  ghost predicate PopsOk(s: Sys, w: nat)
    requires w in s.ring.pc
  {
    s.ring.pc[w].PopDone? && s.ring.pc[w].result.Some? ==> Pushed(s, s.ring.pc[w].pos, s.ring.pc[w].result.value)
  }

  lemma PollKept(s: Sys, w: nat, choice: bool)
    requires HotSide(s) && WorkSide(s) && w in s.workers && s.workers[w].Polling? && |s.ring.cells| > 0
    requires PopsOk(s, w)
    ensures HotSide(DoWorker(s, w, choice)) && WorkSide(DoWorker(s, w, choice))
  {
    assert WorkerOk(s, w);
    if s.ring.pc[w].Idle? || s.ring.pc[w].PopDone? {
      PollEdge(s, w, choice);
    } else {
      R.AccessPopMove(s.ring, w, choice);
      PopMoved(s, w, R.Access(s.ring, w, choice));
    }
  }

  // Entering try_pop, or taking its result.
  lemma PollEdge(s: Sys, w: nat, choice: bool)
    requires HotSide(s) && WorkSide(s) && w in s.workers && s.workers[w].Polling? && |s.ring.cells| > 0
    requires (s.ring.pc[w].Idle? || s.ring.pc[w].PopDone?) && PopsOk(s, w)
    ensures HotSide(DoWorker(s, w, choice)) && WorkSide(DoWorker(s, w, choice))
  {
    assert WorkerOk(s, w);
    EdgeIs(s, w, choice, DoWorker(s, w, choice));
    CrossEdge(s, w, DoWorker(s, w, choice));
  }

  // What entering or leaving try_pop does.
  ghost predicate AtEdge(s: Sys, w: nat, s': Sys)
    requires w in s.workers && w in s.ring.pc
  {
    && w in s'.workers && w in s'.ring.pc && s' == s.(ring := s.ring.At(w, s'.ring.pc[w]), workers := s.workers[w := s'.workers[w]])
    && Held(s', w) == Held(s, w) && WorkerOk(s', w)
  }

  lemma EdgeIs(s: Sys, w: nat, choice: bool, s': Sys)
    requires w in s.workers && w in s.ring.pc && |s.ring.cells| > 0 && s.workers[w].Polling? && WorkerOk(s, w) && PopsOk(s, w)
    requires (s.ring.pc[w].Idle? || s.ring.pc[w].PopDone?) && s' == DoWorker(s, w, choice)
    ensures AtEdge(s, w, s')
  {
    if s.ring.pc[w].Idle? { assert s.Work(w, Polling) == s; }
  }

  lemma CrossEdge(s: Sys, w: nat, s': Sys)
    requires HotSide(s) && WorkSide(s) && w in s.workers && s.workers[w].Polling? && AtEdge(s, w, s')
    ensures HotSide(s') && WorkSide(s')
  {
    HotFrame(s, s');
    KeepsHolding(s, w, s');
  }

  lemma PopMoved(s: Sys, w: nat, r: R.State<Msg>)
    requires HotSide(s) && WorkSide(s) && w in s.workers && s.workers[w].Polling? && R.PopMove(s.ring, w, r)
    ensures HotSide(s.(ring := r)) && WorkSide(s.(ring := r))
  {
    var s' := s.(ring := r);
    assert WorkerOk(s, w);
    HotFrame(s, s');
    if r.deq == s.ring.deq {
      KeepsHolding(s, w, s');
    } else {
      TakesTicket(s, w, s');
    }
  }

  lemma HotWaits(s: Sys, now': nat, stop': bool)
    requires HotSide(s) && now' >= s.now
    ensures HotSide(s.(now := now', stop := stop'))
  {
  }

  lemma DoRing(s: Sys, a: Action)
    requires R.Inv(s.ring) && HotSide(s) && WorkersOk(s) && |s.ring.cells| > 0
    ensures R.Inv(Do(s, a).ring)
  {
    if a.HotStep? {
      HotRing(s, a.weak);
      assert Do(s, a) == DoHot(s, a.weak);
    } else if a.WorkerStep? && a.w in s.workers && s.workers[a.w].Polling? {
      assert WorkerOk(s, a.w);
      WorkerRing(s, a.w, a.choice);
      assert Do(s, a) == DoWorker(s, a.w, a.choice);
    } else {
      SameRing(s, a);
    }
  }

  lemma SameRing(s: Sys, a: Action)
    requires !a.HotStep? && !(a.WorkerStep? && a.w in s.workers && s.workers[a.w].Polling?)
    ensures Do(s, a).ring == s.ring
  {
  }

  lemma WorkerKept(s: Sys, w: nat, choice: bool)
    requires HotSide(s) && WorkSide(s) && w in s.workers && |s.ring.cells| > 0 && PopsOk(s, w)
    ensures HotSide(DoWorker(s, w, choice)) && WorkSide(DoWorker(s, w, choice))
  {
    if s.workers[w].Polling? {
      PollKept(s, w, choice);
    } else {
      GateKept(s, w, choice);
      GateHot(s, w, choice);
    }
  }

  // A gate touches the worker, the counters and the histories of outcomes.
  lemma GateFrame(s: Sys, w: nat, choice: bool)
    requires w in s.workers
    ensures var s' := DoGate(s, w, choice);
      s' == s.(workers := s'.workers, counters := s'.counters, outcome := s'.outcome, sent := s'.sent)
  {
  }

  lemma GateHot(s: Sys, w: nat, choice: bool)
    requires HotSide(s) && w in s.workers
    ensures HotSide(DoGate(s, w, choice))
  {
    GateFrame(s, w, choice);
    HotFrame(s, DoGate(s, w, choice));
  }

  // Everything but a worker's step.
  lemma OthersHot(s: Sys, a: Action)
    requires HotSide(s) && |s.ring.cells| > 0 && !a.WorkerStep?
    ensures HotSide(Do(s, a))
  {
    if a.Tick? {
      HotWaits(s, s.now + a.dt, s.stop);
    } else if a.Signal? {
      HotWaits(s, s.now, true);
    } else if a.Submit? {
      SubmitHot(s, a.strategy, a.ttl, a.valid);
    } else {
      HotSideKept(s, a.weak);
      assert Do(s, a) == DoHot(s, a.weak);
    }
  }

  lemma OthersWork(s: Sys, a: Action)
    requires HotSide(s) && |s.ring.cells| > 0 && !a.WorkerStep?
    ensures HotOnly(s, Do(s, a))
  {
    if a.HotStep? {
      HotSideKept(s, a.weak);
      assert Do(s, a) == DoHot(s, a.weak);
    } else {
      SameRing(s, a);
    }
  }

  lemma OthersKept(s: Sys, a: Action)
    requires HotSide(s) && WorkSide(s) && |s.ring.cells| > 0 && !a.WorkerStep?
    ensures HotSide(Do(s, a)) && WorkSide(Do(s, a))
  {
    OthersHot(s, a);
    OthersWork(s, a);
    WorkFrame(s, Do(s, a));
  }

  lemma DoSides(s: Sys, a: Action)
    requires HotSide(s) && WorkSide(s) && |s.ring.cells| > 0
    requires a.WorkerStep? && a.w in s.workers ==> PopsOk(s, a.w)
    ensures HotSide(Do(s, a)) && WorkSide(Do(s, a))
  {
    if !a.WorkerStep? { OthersKept(s, a); } else if a.w in s.workers { WorkerKept(s, a.w, a.choice); }
  }

  lemma RingFacts(s: Sys, a: Action)
    requires R.Inv(s.ring) && Wired(s)
    ensures |s.ring.cells| > 0
    ensures a.WorkerStep? && a.w in s.workers ==> PopsOk(s, a.w)
  {
    if a.WorkerStep? && a.w in s.workers && s.ring.pc[a.w].PopDone? && s.ring.pc[a.w].result.Some? {
      R.PopResult(s.ring, a.w);
    }
  }

  lemma DoInv(s: Sys, a: Action)
    requires Inv(s)
    ensures Inv(Do(s, a))
  {
    RingFacts(s, a);
    DoRing(s, a);
    DoSides(s, a);
  }

  lemma {:induction false} ExecInv(s: Sys, acts: seq<Action>)
    requires Init(s)
    ensures Inv(Exec(s, acts))
    decreases |acts|
  {
    if acts == [] {
      InitInv(s);
    } else {
      ExecInv(s, acts[..|acts| - 1]);
      DoInv(Exec(s, acts[..|acts| - 1]), acts[|acts| - 1]);
    }
  }

  // ---------------------------------------------------------------- theorems

  lemma ExecSides(s0: Sys, acts: seq<Action>)
    requires Init(s0)
    ensures var s := Exec(s0, acts); HotSide(s) && WorkSide(s) && s.ring.deq <= s.ring.enq
  {
    ExecInv(s0, acts);
  }

  /** Every submission is accounted for, at every moment of every interleaving: it was
      rejected, dropped at a full ring, is on its way into the ring, sits in the ring,
      is in the hands of exactly one worker, or has exactly one counted outcome. */
  lemma EverySubmissionAccounted(s0: Sys, acts: seq<Action>)
    requires Init(s0)
    ensures var s := Exec(s0, acts);
      && Wired(s) && s.ring.deq <= s.ring.enq == |s.ring.pushed|
      && s.submits == s.rejected + s.droppedFull + Entering(s) + |s.ring.Queue()| + |InFlight(s)| + s.counters.Sum()
      && s.counters.Sum() == |s.outcome|
  {
    ExecSides(s0, acts);
  }

  /** After the join (hot thread done, every worker out of its loop) nothing is in
      flight, and size_approx, reported as `undrained`, is exactly what is missing. */
  lemma ShutdownBalance(s0: Sys, acts: seq<Action>)
    requires Init(s0)
    requires var s := Exec(s0, acts); s.hot.HotIdle? && forall w | w in s.workers :: s.workers[w].Stopped?
    ensures var s := Exec(s0, acts);
      && s.ring.deq <= s.ring.enq
      && var undrained := s.ring.enq - s.ring.deq;
         s.submits == s.rejected + s.droppedFull + undrained + s.counters.Sum()
  {
    ExecSides(s0, acts);
    NobodyHolds(Exec(s0, acts));
  }

  lemma NobodyHolds(s: Sys)
    requires Wired(s) && forall w | w in s.workers :: s.workers[w].Stopped?
    ensures InFlight(s) == {}
  {
  }

  // ---- when nothing is left undrained

  // Worker w has not given up on the ring for good, and has no failed pop to report.
  predicate Looking(s: Sys, w: nat) {
    && w in s.workers && w in s.ring.pc && !s.workers[w].Stopped?
    && !(s.workers[w].Polling? && s.ring.pc[w].PopDone? && s.ring.pc[w].result.None?)
  }

  // If it has, it found the ring empty.
  predicate FoundEmpty(s: Sys, w: nat) { w in s.workers && w in s.ring.pc && (Looking(s, w) || s.ring.deq == s.ring.enq) }

  lemma NobodyPushes(s: Sys)
    requires HotSide(s) && WorkersOk(s) && s.hot.HotIdle?
    ensures forall u | u in s.ring.pc :: !R.Pushing(s.ring.pc[u])
  {
    forall u | u in s.ring.pc ensures !R.Pushing(s.ring.pc[u]) {
      if u != HOT { assert WorkerOk(s, u); }
    }
  }

  // A worker's step, seen by the others.
  ghost predicate Passed(s: Sys, v: nat, s': Sys) {
    && s'.hot == s.hot && s'.ring.enq == s.ring.enq && s'.ring.deq >= s.ring.deq
    && (forall u | u in s.workers :: u in s'.workers && (u != v ==> s'.workers[u] == s.workers[u]))
    && (forall u | u in s.ring.pc :: u in s'.ring.pc && (u != v ==> s'.ring.pc[u] == s.ring.pc[u]))
  }

  lemma GatePassed(s: Sys, v: nat, choice: bool)
    requires v in s.workers
    ensures Passed(s, v, DoGate(s, v, choice))
  {
    GateFrame(s, v, choice);
  }

  lemma PollPassed(s: Sys, v: nat, choice: bool)
    requires v in s.workers && v in s.ring.pc && |s.ring.cells| > 0 && s.workers[v].Polling?
    requires s.ring.pc[v].Idle? || R.Popping(s.ring.pc[v])
    ensures Passed(s, v, DoWorker(s, v, choice))
  {
    PollIs(s, v, choice);
    if !s.ring.pc[v].Idle? && !s.ring.pc[v].PopDone? { R.AccessPopMove(s.ring, v, choice); }
  }

  lemma OthersLook(s: Sys, v: nat, s': Sys, w: nat)
    requires v != w && FoundEmpty(s, w) && Passed(s, v, s') && s'.ring.deq <= s'.ring.enq
    ensures FoundEmpty(s', w)
  {
  }

  // A worker about to fail, and what it has seen.
  ghost predicate SeesEmpty(s: Sys, w: nat, choice: bool)
    requires w in s.ring.pc && |s.ring.cells| > 0
  {
    s.ring.pc[w].PopSeq? && R.Access(s.ring, w, choice).pc[w] == R.PopDone(None, s.ring.pc[w].pos) ==> s.ring.deq == s.ring.enq
  }

  // Its own step: inside try_pop, at either end of it, and elsewhere.
  lemma AccessLook(s: Sys, w: nat, choice: bool)
    requires w in s.workers && w in s.ring.pc && |s.ring.cells| > 0 && s.workers[w].Polling? && SeesEmpty(s, w, choice)
    requires R.Popping(s.ring.pc[w]) && !s.ring.pc[w].PopDone?
    ensures FoundEmpty(s.(ring := R.Access(s.ring, w, choice)), w)
  {
    R.AccessPopMove(s.ring, w, choice);
    var p := R.Access(s.ring, w, choice).pc[w];
    if p.PopDone? && p.result.None? { R.OnlySeqGivesUp(s.ring, w, choice); }
  }

  lemma EdgeLook(s: Sys, w: nat, choice: bool)
    requires w in s.workers && w in s.ring.pc && |s.ring.cells| > 0 && s.workers[w].Polling? && FoundEmpty(s, w)
    requires s.ring.pc[w].Idle? || s.ring.pc[w].PopDone?
    ensures FoundEmpty(DoWorker(s, w, choice), w)
  {
  }

  lemma GateLook(s: Sys, w: nat, choice: bool)
    requires w in s.workers && w in s.ring.pc && !s.workers[w].Polling? && s.ring.pc[w].Idle? && FoundEmpty(s, w)
    ensures FoundEmpty(DoGate(s, w, choice), w)
  {
    GateFrame(s, w, choice);
  }

  lemma OwnLook(s: Sys, w: nat, choice: bool)
    requires w in s.workers && w in s.ring.pc && |s.ring.cells| > 0 && WorkerOk(s, w) && FoundEmpty(s, w) && SeesEmpty(s, w, choice)
    ensures FoundEmpty(DoWorker(s, w, choice), w)
  {
    if !s.workers[w].Polling? {
      GateLook(s, w, choice);
    } else if s.ring.pc[w].Idle? || s.ring.pc[w].PopDone? {
      EdgeLook(s, w, choice);
    } else {
      AccessLook(s, w, choice);
      assert DoWorker(s, w, choice) == s.(ring := R.Access(s.ring, w, choice));
    }
  }

  lemma WorkerLook(s: Sys, v: nat, choice: bool, w: nat)
    requires WorkersOk(s) && v in s.workers && v in s.ring.pc && |s.ring.cells| > 0 && FoundEmpty(s, w) && SeesEmpty(s, w, choice)
    requires DoWorker(s, v, choice).ring.deq <= DoWorker(s, v, choice).ring.enq
    ensures FoundEmpty(DoWorker(s, v, choice), w) && DoWorker(s, v, choice).hot == s.hot
  {
    assert WorkerOk(s, v);
    if s.workers[v].Polling? { PollPassed(s, v, choice); } else { GatePassed(s, v, choice); }
    if v == w { OwnLook(s, w, choice); } else { OthersLook(s, v, DoWorker(s, v, choice), w); }
  }

  // What the ring contributes.
  lemma LookFacts(s: Sys, w: nat, choice: bool)
    requires Inv(s) && s.hot.HotIdle? && w in s.ring.pc
    ensures |s.ring.cells| > 0 && SeesEmpty(s, w, choice)
  {
    NobodyPushes(s);
    if s.ring.pc[w].PopSeq? { R.GivesUpEmpty(s.ring, w, choice); }
  }

  lemma StillEmpty(s: Sys, a: Action, w: nat, s': Sys)
    requires WorkersOk(s) && s.hot.HotIdle? && !a.Submit? && FoundEmpty(s, w) && s' == Do(s, a) && s'.ring.deq <= s'.ring.enq
    requires |s.ring.cells| > 0 && (a.WorkerStep? ==> SeesEmpty(s, w, a.choice))
    ensures s'.hot.HotIdle? && FoundEmpty(s', w)
  {
    if a.WorkerStep? && a.w in s.workers && a.w in s.ring.pc {
      WorkerLook(s, a.w, a.choice, w);
      assert s' == DoWorker(s, a.w, a.choice);
    } else {
      IdleStep(s, a, s');
    }
  }

  lemma IdleStep(s: Sys, a: Action, s': Sys)
    requires s.hot.HotIdle? && !a.Submit? && s' == Do(s, a) && !(a.WorkerStep? && a.w in s.workers && a.w in s.ring.pc)
    ensures s'.hot.HotIdle? && s'.workers == s.workers && s'.ring == s.ring
  {
  }

  predicate NoSubmits(acts: seq<Action>) { forall i | 0 <= i < |acts| :: !acts[i].Submit? }

  lemma EmptyNext(s0: Sys, acts: seq<Action>, a: Action, w: nat, s: Sys) returns (s': Sys)
    requires Init(s0) && s == Exec(s0, acts) && s.hot.HotIdle? && FoundEmpty(s, w) && !a.Submit?
    ensures s' == Exec(s0, acts + [a]) && s'.hot.HotIdle? && FoundEmpty(s', w)
  {
    s' := Do(s, a);
    ExecSides(s0, acts);
    ExecSides(s0, acts + [a]);
    ExecSnoc(s0, acts, a);
    ExecLook(s0, acts, w, a.WorkerStep? && a.choice);
    StillEmpty(s, a, w, s');
  }

  lemma {:induction false} LooksToTheEnd(s0: Sys, before: seq<Action>, after: seq<Action>, w: nat, s: Sys) returns (s': Sys)
    requires Init(s0) && s == Exec(s0, before) && s.hot.HotIdle? && FoundEmpty(s, w) && NoSubmits(after)
    ensures s' == Exec(s0, before + after) && s'.hot.HotIdle? && FoundEmpty(s', w)
    decreases |after|
  {
    if after == [] {
      assert before + after == before;
      s' := s;
    } else {
      var s1 := EmptyNext(s0, before, after[0], w, s);
      s' := LooksToTheEnd(s0, before + [after[0]], after[1..], w, s1);
      Regroup(before, after);
    }
  }

  lemma Regroup(a: seq<Action>, b: seq<Action>)
    requires b != []
    ensures a + [b[0]] + b[1..] == a + b
  {
  }

  lemma ExecLook(s0: Sys, acts: seq<Action>, w: nat, choice: bool)
    requires Init(s0) && Exec(s0, acts).hot.HotIdle? && w in Exec(s0, acts).ring.pc
    ensures |Exec(s0, acts).ring.cells| > 0 && SeesEmpty(Exec(s0, acts), w, choice)
  {
    ExecInv(s0, acts);
    LookFacts(Exec(s0, acts), w, choice);
  }

  lemma ExecSnoc(s0: Sys, acts: seq<Action>, a: Action)
    ensures Exec(s0, acts + [a]) == Do(Exec(s0, acts), a)
  {
    assert (acts + [a])[..|acts|] == acts;
  }

  /** If, once the hot thread has submitted its last order and the push has returned, some
      worker has yet to give up on the ring, then nothing is left undrained at the join and
      the counters account for every submission. */
  lemma NothingUndrained(s0: Sys, before: seq<Action>, after: seq<Action>, w: nat)
    requires Init(s0) && Exec(s0, before).hot.HotIdle? && Looking(Exec(s0, before), w) && NoSubmits(after)
    requires var s := Exec(s0, before + after); forall v | v in s.workers :: s.workers[v].Stopped?
    ensures var s := Exec(s0, before + after);
      s.ring.enq == s.ring.deq && s.submits == s.rejected + s.droppedFull + s.counters.Sum()
  {
    var s := LooksToTheEnd(s0, before, after, w, Exec(s0, before));
    ShutdownBalance(s0, before + after);
  }

  /** A worker stops only after the signal. */
  lemma {:induction false} StopsWhenTold(s0: Sys, acts: seq<Action>)
    requires Init(s0)
    ensures var s := Exec(s0, acts);
      (s.stop <==> s0.stop || Signal in acts) && forall w | w in s.workers && s.workers[w].Stopped? :: s.stop
    decreases |acts|
  {
    if acts != [] {
      StopsWhenTold(s0, acts[..|acts| - 1]);
      StopStep(Exec(s0, acts[..|acts| - 1]), acts[|acts| - 1]);
    }
  }

  lemma WorkerStop(s: Sys, w: nat, choice: bool)
    requires w in s.workers && w in s.ring.pc && |s.ring.cells| > 0 && (s.workers[w].Stopped? ==> s.stop)
    ensures var s' := DoWorker(s, w, choice);
      s'.stop == s.stop && s'.workers == s.workers[w := s'.workers[w]] && (s'.workers[w].Stopped? ==> s.stop)
  {
    assert s.workers == s.workers[w := s.workers[w]];
  }

  lemma StopStep(s: Sys, a: Action)
    requires forall w | w in s.workers && s.workers[w].Stopped? :: s.stop
    ensures var s' := Do(s, a);
      (s'.stop <==> s.stop || a.Signal?) && forall w | w in s'.workers && s'.workers[w].Stopped? :: s'.stop
  {
    if a.WorkerStep? && a.w in s.workers && a.w in s.ring.pc && |s.ring.cells| > 0 { WorkerStop(s, a.w, a.choice); }
  }

  /** Once told, a worker that has found the ring empty may stop. */
  lemma MayStop(s0: Sys, acts: seq<Action>, w: nat)
    requires Init(s0) && Signal in acts
    requires var s := Exec(s0, acts); w in s.workers && s.workers[w].Polling? && w in s.ring.pc && s.ring.pc[w].PopDone? && s.ring.pc[w].result.None?
    ensures var s' := Exec(s0, acts + [WorkerStep(w, true)]); w in s'.workers && s'.workers[w].Stopped?
  {
    StopsWhenTold(s0, acts);
    ExecCells(s0, acts);
    ExecSnoc(s0, acts, WorkerStep(w, true));
  }

  // ---- each counter on its own

  // Tickets with this outcome.
  ghost function Outcomes(outcome: map<nat, Kind>, kind: Kind): set<nat> { set k | k in outcome && outcome[k] == kind }

  ghost predicate CountsEach(c: Counters, outcome: map<nat, Kind>) { forall kind :: c.Of(kind) == |Outcomes(outcome, kind)| }

  // Workers whose order is out but not counted yet.
  predicate Reports(g: Stage) { g.Decided? && (g.kind == Submitted || g.kind == TransportError) }

  ghost function Reporting(workers: map<nat, Stage>): set<nat> { set w | w in workers && Reports(workers[w]) }

  ghost predicate CountsSent(s: Sys) { |s.sent| == s.counters.submitted + s.counters.transportErr + |Reporting(s.workers)| }

  lemma OutcomesNext(outcome: map<nat, Kind>, k: nat, kind: Kind, x: Kind)
    requires k !in outcome
    ensures |Outcomes(outcome[k := kind], x)| == |Outcomes(outcome, x)| + (if x == kind then 1 else 0)
  {
    assert Outcomes(outcome[k := kind], x) == if x == kind then Outcomes(outcome, x) + {k} else Outcomes(outcome, x);
  }

  lemma OneMoreOutcome(c: Counters, outcome: map<nat, Kind>, k: nat, kind: Kind)
    requires CountsEach(c, outcome) && k !in outcome
    ensures CountsEach(c.Bump(kind), outcome[k := kind])
  {
    var c' := c.Bump(kind);
    forall x ensures c'.Of(x) == |Outcomes(outcome[k := kind], x)| { OutcomesNext(outcome, k, kind, x); }
  }

  lemma ReportingNext(workers: map<nat, Stage>, w: nat, g: Stage)
    requires w in workers
    ensures |Reporting(workers[w := g])| == |Reporting(workers)| - (if Reports(workers[w]) then 1 else 0) + (if Reports(g) then 1 else 0)
  {
    assert Reporting(workers[w := g]) == if Reports(g) then Reporting(workers) + {w} else Reporting(workers) - {w};
  }

  lemma GateCounts(s: Sys, w: nat, choice: bool)
    requires CountsEach(s.counters, s.outcome) && CountsSent(s)
    requires w in s.workers && !s.workers[w].Polling? && (s.workers[w].Decided? ==> s.workers[w].k !in s.outcome)
    ensures CountsEach(DoGate(s, w, choice).counters, DoGate(s, w, choice).outcome) && CountsSent(DoGate(s, w, choice))
  {
    var s', g := DoGate(s, w, choice), s.workers[w];
    if g.Stopped? {
      assert s' == s;
    } else {
      ReportingNext(s.workers, w, s'.workers[w]);
      assert s'.workers == s.workers[w := s'.workers[w]];
    }
    if g.Decided? { OneMoreOutcome(s.counters, s.outcome, g.k, g.kind); }
  }

  // A worker at the ring, or the hot thread, counts and sends nothing.
  lemma PollIs(s: Sys, w: nat, choice: bool)
    requires w in s.workers && w in s.ring.pc && |s.ring.cells| > 0 && s.workers[w].Polling?
    ensures var s' := DoWorker(s, w, choice);
      w in s'.workers && s' == s.(ring := s'.ring, workers := s.workers[w := s'.workers[w]]) && !Reports(s'.workers[w])
  {
  }

  lemma HotIs(s: Sys, weak: bool)
    requires HOT in s.ring.pc && |s.ring.cells| > 0
    ensures var s' := DoHot(s, weak);
      s' == s.(hot := s'.hot, ring := s'.ring, rejected := s'.rejected, droppedFull := s'.droppedFull)
  {
  }

  lemma StepCounts(s: Sys, a: Action)
    requires CountsEach(s.counters, s.outcome) && CountsSent(s) && WorkersOk(s)
    ensures CountsEach(Do(s, a).counters, Do(s, a).outcome) && CountsSent(Do(s, a))
  {
    if a.HotStep? {
      if HOT in s.ring.pc && |s.ring.cells| > 0 { HotIs(s, a.weak); }
    } else if a.WorkerStep? && a.w in s.workers && a.w in s.ring.pc && |s.ring.cells| > 0 {
      assert WorkerOk(s, a.w);
      if s.workers[a.w].Polling? {
        PollIs(s, a.w, a.choice);
        ReportingNext(s.workers, a.w, DoWorker(s, a.w, a.choice).workers[a.w]);
      } else {
        GateCounts(s, a.w, a.choice);
      }
    }
  }

  lemma {:induction false} ExecCounts(s0: Sys, acts: seq<Action>)
    requires Init(s0)
    ensures CountsEach(Exec(s0, acts).counters, Exec(s0, acts).outcome) && CountsSent(Exec(s0, acts))
    decreases |acts|
  {
    if acts == [] {
      assert Reporting(s0.workers) == {};
      forall kind ensures s0.counters.Of(kind) == |Outcomes(s0.outcome, kind)| { assert Outcomes(s0.outcome, kind) == {}; }
    } else {
      ExecCounts(s0, acts[..|acts| - 1]);
      ExecSides(s0, acts[..|acts| - 1]);
      StepCounts(Exec(s0, acts[..|acts| - 1]), acts[|acts| - 1]);
    }
  }

  /** Each outcome counter is, at every moment, the number of tickets with that outcome;
      and after the join the orders transmitted are exactly those counted as submitted or
      as transport errors. */
  lemma CountersExact(s0: Sys, acts: seq<Action>)
    requires Init(s0)
    ensures var s := Exec(s0, acts);
      && (forall kind :: s.counters.Of(kind) == |Outcomes(s.outcome, kind)|)
      && ((forall w | w in s.workers :: s.workers[w].Stopped?) ==> |s.sent| == s.counters.submitted + s.counters.transportErr)
  {
    ExecCounts(s0, acts);
    var s := Exec(s0, acts);
    if forall w | w in s.workers :: s.workers[w].Stopped? { assert Reporting(s.workers) == {}; }
  }

  // ---- where the orders come from

  // A submission the hot thread accepted: it was between calls.
  ghost predicate Submission(s0: Sys, acts: seq<Action>, j: nat) {
    j < |acts| && acts[j].Submit? && Exec(s0, acts[..j]).hot.HotIdle?
  }

  predicate Counts(s: Sys, a: Action, strategy: nat) { a.Submit? && s.hot.HotIdle? && a.strategy == strategy }

  // How many submissions of this strategy there have been.
  function SubmitsOf(s0: Sys, acts: seq<Action>, strategy: nat): nat
    decreases |acts|
  {
    if acts == [] then 0
    else
      var before := acts[..|acts| - 1];
      SubmitsOf(s0, before, strategy) + if Counts(Exec(s0, before), acts[|acts| - 1], strategy) then 1 else 0
  }

  // And how many of valid, or of invalid, payloads.
  function SubmitsWith(s0: Sys, acts: seq<Action>, valid: bool): nat
    decreases |acts|
  {
    if acts == [] then 0
    else
      var before, a := acts[..|acts| - 1], acts[|acts| - 1];
      SubmitsWith(s0, before, valid) + if a.Submit? && Exec(s0, before).hot.HotIdle? && a.valid == valid then 1 else 0
  }

  // Order m comes from submission j: its strategy, its time to live, the time of the
  // decision, and the next number of its strategy.
  ghost predicate From(s0: Sys, acts: seq<Action>, j: nat, m: Msg, valid: bool) {
    && Submission(s0, acts, j) && acts[j] == Submit(m.strategy, m.ttl, valid)
    && m.decision == Exec(s0, acts[..j]).now && m.seqNo == SubmitsOf(s0, acts[..j], m.strategy) + 1
  }

  ghost predicate Issued(s0: Sys, acts: seq<Action>, m: Msg, valid: bool) { exists j: nat :: From(s0, acts, j, m, valid) }

  ghost predicate PushedIssued(s0: Sys, acts: seq<Action>, q: seq<Msg>) { forall k | 0 <= k < |q| :: Issued(s0, acts, q[k], true) }

  ghost predicate HotIssued(s0: Sys, acts: seq<Action>, h: Hot) {
    (h.Checking? ==> Issued(s0, acts, h.m, h.valid)) && (h.Pushing? ==> Issued(s0, acts, h.m, true))
  }

  ghost predicate Numbered(s0: Sys, acts: seq<Action>, s: Sys) { forall strategy :: LastSeq(s, strategy) == SubmitsOf(s0, acts, strategy) }

  ghost predicate Totals(s0: Sys, acts: seq<Action>, s: Sys) {
    && s.submits == SubmitsWith(s0, acts, true) + SubmitsWith(s0, acts, false)
    && s.rejected + (if s.hot.Checking? && !s.hot.valid then 1 else 0) == SubmitsWith(s0, acts, false)
  }

  ghost predicate Origins(s0: Sys, acts: seq<Action>, s: Sys) {
    PushedIssued(s0, acts, s.ring.pushed) && HotIssued(s0, acts, s.hot) && Numbered(s0, acts, s) && Totals(s0, acts, s)
  }

  lemma IssuedLater(s0: Sys, acts: seq<Action>, a: Action, m: Msg, valid: bool)
    requires Issued(s0, acts, m, valid)
    ensures Issued(s0, acts + [a], m, valid)
  {
    var j: nat :| From(s0, acts, j, m, valid);
    FromLater(s0, acts, a, j, m, valid);
  }

  lemma FromLater(s0: Sys, acts: seq<Action>, a: Action, j: nat, m: Msg, valid: bool)
    requires From(s0, acts, j, m, valid)
    ensures From(s0, acts + [a], j, m, valid)
  {
    assert (acts + [a])[..j] == acts[..j];
  }

  lemma IssuedNow(s0: Sys, acts: seq<Action>, a: Action, m: Msg, s: Sys)
    requires s == Exec(s0, acts) && a.Submit? && s.hot.HotIdle? && LastSeq(s, a.strategy) == SubmitsOf(s0, acts, a.strategy)
    requires m == Msg(a.strategy, LastSeq(s, a.strategy) + 1, a.ttl, s.now)
    ensures Issued(s0, acts + [a], m, a.valid)
  {
    assert (acts + [a])[..|acts|] == acts;
    assert From(s0, acts + [a], |acts|, m, a.valid);
  }

  lemma CountsNext(s0: Sys, acts: seq<Action>, a: Action, s: Sys, strategy: nat, valid: bool)
    requires s == Exec(s0, acts)
    ensures SubmitsOf(s0, acts + [a], strategy) == SubmitsOf(s0, acts, strategy) + if Counts(s, a, strategy) then 1 else 0
    ensures SubmitsWith(s0, acts + [a], valid)
         == SubmitsWith(s0, acts, valid) + if a.Submit? && s.hot.HotIdle? && a.valid == valid then 1 else 0
  {
    assert (acts + [a])[..|acts|] == acts;
  }

  lemma OldIssued(s0: Sys, acts: seq<Action>, a: Action, q: seq<Msg>)
    requires PushedIssued(s0, acts, q)
    ensures PushedIssued(s0, acts + [a], q)
  {
    forall k | 0 <= k < |q| ensures Issued(s0, acts + [a], q[k], true) { IssuedLater(s0, acts, a, q[k], true); }
  }

  lemma NumberedNext(s0: Sys, acts: seq<Action>, a: Action, s: Sys, s': Sys)
    requires s == Exec(s0, acts) && Numbered(s0, acts, s)
    requires s'.seqs == if a.Submit? && s.hot.HotIdle? then s.seqs[a.strategy := LastSeq(s, a.strategy) + 1] else s.seqs
    ensures Numbered(s0, acts + [a], s')
  {
    forall strategy: nat ensures LastSeq(s', strategy) == SubmitsOf(s0, acts + [a], strategy) { CountsNext(s0, acts, a, s, strategy, true); }
  }

  lemma TotalsNext(s0: Sys, acts: seq<Action>, a: Action, s: Sys, s': Sys)
    requires s == Exec(s0, acts) && Totals(s0, acts, s)
    requires s'.submits == s.submits + if a.Submit? && s.hot.HotIdle? then 1 else 0
    requires s'.rejected + (if s'.hot.Checking? && !s'.hot.valid then 1 else 0)
          == s.rejected + (if s.hot.Checking? && !s.hot.valid then 1 else 0) + if a.Submit? && s.hot.HotIdle? && !a.valid then 1 else 0
    ensures Totals(s0, acts + [a], s')
  {
    CountsNext(s0, acts, a, s, 0, true);
    CountsNext(s0, acts, a, s, 0, false);
  }

  lemma SubmitOrigins(s0: Sys, acts: seq<Action>, a: Action, s: Sys, s': Sys)
    requires s == Exec(s0, acts) && Origins(s0, acts, s) && a.Submit? && s.hot.HotIdle? && s' == DoSubmit(s, a.strategy, a.ttl, a.valid)
    ensures Origins(s0, acts + [a], s')
  {
    OldIssued(s0, acts, a, s.ring.pushed);
    IssuedNow(s0, acts, a, s'.hot.m, s);
    NumberedNext(s0, acts, a, s, s');
    TotalsNext(s0, acts, a, s, s');
  }

  // What a step that submits nothing may do to the hot side.
  ghost predicate Forwards(s: Sys, s': Sys) {
    && s'.seqs == s.seqs && s'.submits == s.submits && s.ring.pushed <= s'.ring.pushed
    && (forall k | |s.ring.pushed| <= k < |s'.ring.pushed| :: s.hot.Pushing? && s'.ring.pushed[k] == s.hot.m)
    && (s'.hot.Checking? ==> s'.hot == s.hot)
    && (s'.hot.Pushing? ==> (s.hot.Pushing? || (s.hot.Checking? && s.hot.valid)) && s'.hot.m == s.hot.m)
    && s'.rejected + (if s'.hot.Checking? && !s'.hot.valid then 1 else 0) == s.rejected + (if s.hot.Checking? && !s.hot.valid then 1 else 0)
  }

  lemma ForwardIssued(s0: Sys, acts: seq<Action>, a: Action, s: Sys, s': Sys)
    requires PushedIssued(s0, acts, s.ring.pushed) && HotIssued(s0, acts, s.hot) && Forwards(s, s')
    ensures PushedIssued(s0, acts + [a], s'.ring.pushed) && HotIssued(s0, acts + [a], s'.hot)
  {
    forall k | 0 <= k < |s'.ring.pushed| ensures Issued(s0, acts + [a], s'.ring.pushed[k], true) {
      if k < |s.ring.pushed| { assert s'.ring.pushed[k] == s.ring.pushed[k]; }
      IssuedLater(s0, acts, a, s'.ring.pushed[k], true);
    }
    if s'.hot.Checking? { IssuedLater(s0, acts, a, s.hot.m, s.hot.valid); }
    if s'.hot.Pushing? { IssuedLater(s0, acts, a, s.hot.m, true); }
  }

  lemma ForwardOrigins(s0: Sys, acts: seq<Action>, a: Action, s: Sys, s': Sys)
    requires s == Exec(s0, acts) && Origins(s0, acts, s) && !(a.Submit? && s.hot.HotIdle?) && Forwards(s, s')
    ensures Origins(s0, acts + [a], s')
  {
    ForwardIssued(s0, acts, a, s, s');
    NumberedNext(s0, acts, a, s, s');
    TotalsNext(s0, acts, a, s, s');
  }

  lemma HotForwards(s: Sys, weak: bool)
    requires HOT in s.ring.pc && |s.ring.cells| > 0 && HotOk(s)
    ensures Forwards(s, DoHot(s, weak))
  {
    if s.hot.Pushing? && !s.ring.pc[HOT].PushDone? { R.AccessPushMove(s.ring, HOT, weak); }
  }

  lemma WorkForwards(s: Sys, w: nat, choice: bool)
    requires w in s.workers && w in s.ring.pc && |s.ring.cells| > 0 && WorkerOk(s, w)
    ensures Forwards(s, DoWorker(s, w, choice))
  {
    if s.workers[w].Polling? {
      PollIs(s, w, choice);
      PollPushes(s, w, choice);
    } else {
      GateFrame(s, w, choice);
    }
  }

  lemma StepOrigins(s0: Sys, acts: seq<Action>, a: Action, s: Sys)
    requires s == Exec(s0, acts) && Origins(s0, acts, s) && HOT in s.ring.pc && |s.ring.cells| > 0 && HotOk(s) && WorkersOk(s)
    ensures Origins(s0, acts + [a], Do(s, a))
  {
    if a.Submit? && s.hot.HotIdle? {
      SubmitOrigins(s0, acts, a, s, Do(s, a));
    } else {
      if a.HotStep? {
        HotForwards(s, a.weak);
      } else if a.WorkerStep? && a.w in s.workers {
        assert WorkerOk(s, a.w);
        WorkForwards(s, a.w, a.choice);
      }
      assert Forwards(s, Do(s, a));
      ForwardOrigins(s0, acts, a, s, Do(s, a));
    }
  }

  lemma {:induction false} ExecOrigins(s0: Sys, acts: seq<Action>)
    requires Init(s0)
    ensures Origins(s0, acts, Exec(s0, acts))
    decreases |acts|
  {
    if acts != [] {
      var k := |acts| - 1;
      ExecOrigins(s0, acts[..k]);
      LastOrigins(s0, acts[..k], acts[k], acts);
    }
  }

  lemma LastOrigins(s0: Sys, before: seq<Action>, a: Action, acts: seq<Action>)
    requires Init(s0) && Origins(s0, before, Exec(s0, before)) && acts == before + [a]
    ensures Origins(s0, acts, Exec(s0, acts))
  {
    ExecSides(s0, before);
    ExecCells(s0, before);
    ExecSnoc(s0, before, a);
    StepOrigins(s0, before, a, Exec(s0, before));
  }

  /** Every order in the ring's history comes from one submission of a valid payload: it has
      that submission's strategy and time to live, the time it was made as its decision
      time, and the next number of its strategy. Invalid payloads are counted as rejected,
      each once, and nothing else is. */
  lemma SubmissionsExact(s0: Sys, acts: seq<Action>, k: nat)
    requires Init(s0) && k < |Exec(s0, acts).ring.pushed|
    ensures var s := Exec(s0, acts);
      && (exists j: nat :: From(s0, acts, j, s.ring.pushed[k], true))
      && s.submits == SubmitsWith(s0, acts, true) + SubmitsWith(s0, acts, false)
      && (s.hot.HotIdle? ==> s.rejected == SubmitsWith(s0, acts, false))
  {
    ExecOrigins(s0, acts);
    assert Issued(s0, acts, Exec(s0, acts).ring.pushed[k], true);
  }

  // ---- what becomes of each order, and why

  // What the environment did to each ticket in a run: the clock reading the worker took
  // when it began with the order, the rate limiter's answer, whether signing and whether
  // sending succeeded.
  datatype Trace = Trace(read: map<nat, nat>, took: map<nat, bool>, signed: map<nat, bool>, answered: map<nat, bool>)

  function Note(g: Stage, now: nat, choice: bool, tr: Trace): Trace {
    match g
    case Fresh(_, k) => tr.(read := tr.read[k := now])
    case Clocked(_, k, _) => tr.(took := tr.took[k := choice])
    case Signing(_, k, _) => tr.(signed := tr.signed[k := choice])
    case Sending(_, k, _) => tr.(answered := tr.answered[k := choice])
    case _ => tr
  }

  function Noted(s: Sys, a: Action, tr: Trace): Trace {
    if a.WorkerStep? && a.w in s.workers && a.w in s.ring.pc && |s.ring.cells| > 0
    then Note(s.workers[a.w], s.now, a.choice, tr) else tr
  }

  function Traced(s0: Sys, acts: seq<Action>): Trace
    decreases |acts|
  {
    if acts == [] then Trace(map[], map[], map[], map[])
    else var before := acts[..|acts| - 1]; Noted(Exec(s0, before), acts[|acts| - 1], Traced(s0, before))
  }

  // Past its own time to live or the limit on time in the queue.
  predicate Stale(cfg: Config, m: Msg, read: nat) {
    read - m.decision > cfg.maxQueueAge || (m.ttl != 0 && read - m.decision > m.ttl)
  }

  // What should become of order m with this ticket, as far as its trace tells.
  function Fate(cfg: Config, m: Msg, tr: Trace, k: nat): Option<Kind> {
    if k !in tr.read then None
    else if Stale(cfg, m, tr.read[k]) then Some(Expired)
    else if k !in tr.took then None
    else if !tr.took[k] then Some(RateLimited)
    else if !cfg.ordersEnabled then Some(Shadow)
    else if k !in tr.signed then None
    else if !tr.signed[k] then Some(SignError)
    else if k !in tr.answered then None
    else Some(if tr.answered[k] then Submitted else TransportError)
  }

  // It was young enough when the worker began with it, the rate limiter let it through
  // and orders are enabled.
  predicate Cleared(cfg: Config, m: Msg, tr: Trace, k: nat) {
    k in tr.read && !Stale(cfg, m, tr.read[k]) && k in tr.took && tr.took[k] && cfg.ordersEnabled
  }

  predicate Ready(cfg: Config, m: Msg, tr: Trace, k: nat) { Cleared(cfg, m, tr, k) && k in tr.signed && tr.signed[k] }

  ghost predicate Transmitted(s: Sys, k: nat) { exists i :: 0 <= i < |s.sent| && s.sent[i].k == k }

  // The outcome is the one the trace asks for, and the order went out if it says so.
  ghost predicate Fits(s: Sys, tr: Trace, k: nat, kind: Kind) {
    k < |s.ring.pushed| && Fate(s.cfg, s.ring.pushed[k], tr, k) == Some(kind) && (Reports(Decided(k, kind)) ==> Transmitted(s, k))
  }

  ghost predicate StageTold(s: Sys, tr: Trace, g: Stage) {
    match g
    case Clocked(m, k, age) => k in tr.read && tr.read[k] >= m.decision && age == tr.read[k] - m.decision
    case Signing(m, k, _) => Cleared(s.cfg, m, tr, k)
    case Sending(m, k, _) => Ready(s.cfg, m, tr, k)
    case Decided(k, kind) => Fits(s, tr, k, kind)
    case _ => true
  }

  ghost predicate WorkersTold(s: Sys, tr: Trace) { forall w | w in s.workers :: StageTold(s, tr, s.workers[w]) }

  ghost predicate OutcomesTold(s: Sys, tr: Trace) { forall k | k in s.outcome :: Fits(s, tr, k, s.outcome[k]) }

  ghost predicate SentTold(s: Sys, tr: Trace) {
    forall i | 0 <= i < |s.sent| :: Pushed(s, s.sent[i].k, s.sent[i].m) && Ready(s.cfg, s.sent[i].m, tr, s.sent[i].k)
  }

  ghost predicate Told(s: Sys, tr: Trace) { WorkersTold(s, tr) && OutcomesTold(s, tr) && SentTold(s, tr) }

  // What is told of ticket j.
  predicate SameFor(tr: Trace, tr': Trace, j: nat) {
    && (j in tr'.read <==> j in tr.read) && (j in tr.read ==> tr'.read[j] == tr.read[j])
    && (j in tr'.took <==> j in tr.took) && (j in tr.took ==> tr'.took[j] == tr.took[j])
    && (j in tr'.signed <==> j in tr.signed) && (j in tr.signed ==> tr'.signed[j] == tr.signed[j])
    && (j in tr'.answered <==> j in tr.answered) && (j in tr.answered ==> tr'.answered[j] == tr.answered[j])
  }

  function TicketOf(g: Stage): Option<nat> {
    match g
    case Fresh(_, k) => Some(k)
    case Clocked(_, k, _) => Some(k)
    case Signing(_, k, _) => Some(k)
    case Sending(_, k, _) => Some(k)
    case Decided(k, _) => Some(k)
    case _ => None
  }

  lemma NoteOnly(g: Stage, now: nat, choice: bool, tr: Trace, j: nat)
    requires TicketOf(g) != Some(j)
    ensures SameFor(tr, Note(g, now, choice, tr), j)
  {
  }

  lemma NotedOnly(s: Sys, a: Action, tr: Trace, j: nat)
    requires a.WorkerStep? && a.w in s.workers && a.w in s.ring.pc && Held(s, a.w) != Some(j)
    ensures SameFor(tr, Noted(s, a, tr), j)
  {
    assert !s.workers[a.w].Polling? ==> Held(s, a.w) == TicketOf(s.workers[a.w]);
    NoteOnly(s.workers[a.w], s.now, a.choice, tr, j);
  }

  lemma FateSame(cfg: Config, m: Msg, tr: Trace, tr': Trace, k: nat)
    requires SameFor(tr, tr', k)
    ensures Fate(cfg, m, tr', k) == Fate(cfg, m, tr, k) && Cleared(cfg, m, tr', k) == Cleared(cfg, m, tr, k)
    ensures Ready(cfg, m, tr', k) == Ready(cfg, m, tr, k)
  {
  }

  // Histories only grow.
  ghost predicate Grows(s: Sys, s': Sys) {
    s'.cfg == s.cfg && s.ring.pushed <= s'.ring.pushed && s.sent <= s'.sent
  }

  lemma FitsKept(s: Sys, tr: Trace, s': Sys, tr': Trace, k: nat, kind: Kind)
    requires Fits(s, tr, k, kind) && Grows(s, s') && SameFor(tr, tr', k)
    ensures Fits(s', tr', k, kind)
  {
    FateSame(s.cfg, s.ring.pushed[k], tr, tr', k);
    if Reports(Decided(k, kind)) {
      var i :| 0 <= i < |s.sent| && s.sent[i].k == k;
      assert s'.sent[i] == s.sent[i];
    }
  }

  lemma StageKept(s: Sys, tr: Trace, s': Sys, tr': Trace, g: Stage)
    requires StageTold(s, tr, g) && Grows(s, s') && (TicketOf(g).Some? ==> SameFor(tr, tr', TicketOf(g).value))
    ensures StageTold(s', tr', g)
  {
    match g
    case Clocked(m, k, age) => FateSame(s.cfg, m, tr, tr', k);
    case Signing(m, k, age) => FateSame(s.cfg, m, tr, tr', k);
    case Sending(m, k, age) => FateSame(s.cfg, m, tr, tr', k);
    case Decided(k, kind) => FitsKept(s, tr, s', tr', k, kind);
    case _ =>
  }

  // Everybody but worker w.
  ghost predicate Spares(s: Sys, w: nat, tr: Trace, tr': Trace)
    requires w in s.workers && w in s.ring.pc
  {
    forall j: nat | Held(s, w) != Some(j) :: SameFor(tr, tr', j)
  }

  lemma OthersTold(s: Sys, w: nat, tr: Trace, s': Sys, tr': Trace)
    requires WorkersOk(s) && OneHolder(s) && WorkersTold(s, tr) && w in s.workers && Grows(s, s') && Spares(s, w, tr, tr')
    requires s'.workers.Keys == s.workers.Keys && (forall v | v in s.workers && v != w :: s'.workers[v] == s.workers[v])
    requires StageTold(s', tr', s'.workers[w])
    ensures WorkersTold(s', tr')
  {
    forall v | v in s'.workers && v != w ensures StageTold(s', tr', s'.workers[v]) {
      assert WorkerOk(s, v) && StageTold(s, tr, s.workers[v]);
      StageKept(s, tr, s', tr', s.workers[v]);
    }
  }

  lemma OutcomesKept(s: Sys, w: nat, tr: Trace, s': Sys, tr': Trace)
    requires WorkersOk(s) && OutcomesTold(s, tr) && w in s.workers && Grows(s, s') && Spares(s, w, tr, tr')
    requires forall k | k in s'.outcome :: if k in s.outcome then s'.outcome[k] == s.outcome[k] else Fits(s', tr', k, s'.outcome[k])
    ensures OutcomesTold(s', tr')
  {
    assert WorkerOk(s, w);
    forall k | k in s'.outcome ensures Fits(s', tr', k, s'.outcome[k]) {
      if k in s.outcome { FitsKept(s, tr, s', tr', k, s.outcome[k]); }
    }
  }

  // A ticket that has gone out is nobody's to begin with.
  lemma GoneIsPast(s: Sys, w: nat, k: nat)
    requires WorkersOk(s) && OneHolder(s) && Gone(s, k) && w in s.workers && Held(s, w) == Some(k)
    ensures PastSend(s.workers[w], k)
  {
    assert WorkerOk(s, w);
    if !(k in s.outcome) {
      var v :| v in s.workers && PastSend(s.workers[v], k);
      assert Held(s, v) == Some(k);
    }
  }

  lemma SentKept(s: Sys, w: nat, tr: Trace, s': Sys, tr': Trace)
    requires WorkersOk(s) && OneHolder(s) && SentsOk(s) && SentTold(s, tr) && w in s.workers && Grows(s, s') && Spares(s, w, tr, tr')
    requires s.workers[w].Decided? ==> tr' == tr
    requires forall i | |s.sent| <= i < |s'.sent| :: Pushed(s', s'.sent[i].k, s'.sent[i].m) && Ready(s'.cfg, s'.sent[i].m, tr', s'.sent[i].k)
    ensures SentTold(s', tr')
  {
    forall i | 0 <= i < |s'.sent| ensures Pushed(s', s'.sent[i].k, s'.sent[i].m) && Ready(s'.cfg, s'.sent[i].m, tr', s'.sent[i].k) {
      if i < |s.sent| {
        var e := s.sent[i];
        assert s'.sent[i] == e && SentOk(s, e);
        if Held(s, w) == Some(e.k) { GoneIsPast(s, w, e.k); }
        FateSame(s.cfg, e.m, tr, tr', e.k);
      }
    }
  }

  lemma SparesOthers(s: Sys, a: Action, tr: Trace)
    requires a.WorkerStep? && a.w in s.workers && a.w in s.ring.pc
    ensures Spares(s, a.w, tr, Noted(s, a, tr))
  {
    forall j: nat | Held(s, a.w) != Some(j) ensures SameFor(tr, Noted(s, a, tr), j) { NotedOnly(s, a, tr, j); }
  }

  // The gates, one at a time: where the worker is then is what its trace asks for.
  lemma ReadTold(s: Sys, w: nat, tr: Trace, m: Msg, k: nat, s': Sys, tr': Trace)
    requires HotSide(s) && Pushed(s, k, m) && s' == s.Work(w, Clocked(m, k, if s.now >= m.decision then s.now - m.decision else 0))
    requires tr' == tr.(read := tr.read[k := s.now])
    ensures StageTold(s', tr', s'.workers[w])
  {
  }

  lemma ClockedTold(s: Sys, w: nat, tr: Trace, m: Msg, k: nat, age: nat, choice: bool, s': Sys, tr': Trace)
    requires Pushed(s, k, m) && StageTold(s, tr, Clocked(m, k, age)) && tr' == tr.(took := tr.took[k := choice])
    requires s' == s.Work(w, if TooOld(s.cfg, m, age) then Decided(k, Expired) else if !choice then Decided(k, RateLimited)
                             else if !s.cfg.ordersEnabled then Decided(k, Shadow) else Signing(m, k, age))
    ensures StageTold(s', tr', s'.workers[w])
  {
    assert TooOld(s.cfg, m, age) <==> Stale(s.cfg, m, tr.read[k]);
  }

  lemma SignedTold(s: Sys, w: nat, tr: Trace, m: Msg, k: nat, age: nat, choice: bool, s': Sys, tr': Trace)
    requires Pushed(s, k, m) && StageTold(s, tr, Signing(m, k, age)) && tr' == tr.(signed := tr.signed[k := choice])
    requires s' == s.Work(w, if choice then Sending(m, k, age) else Decided(k, SignError))
    ensures StageTold(s', tr', s'.workers[w])
  {
  }

  lemma AnsweredTold(s: Sys, w: nat, tr: Trace, m: Msg, k: nat, age: nat, choice: bool, s': Sys, tr': Trace)
    requires Pushed(s, k, m) && StageTold(s, tr, Sending(m, k, age)) && tr' == tr.(answered := tr.answered[k := choice])
    requires s' == s.(sent := s.sent + [Sent(k, m)]).Work(w, Decided(k, if choice then Submitted else TransportError))
    ensures StageTold(s', tr', s'.workers[w]) && Ready(s.cfg, m, tr', k)
  {
    assert s'.sent[|s.sent|].k == k;
  }

  lemma OwnEarly(s: Sys, w: nat, choice: bool, tr: Trace, s': Sys, tr': Trace)
    requires HotSide(s) && w in s.workers && w in s.ring.pc && WorkerOk(s, w) && StageTold(s, tr, s.workers[w]) && |s.ring.cells| > 0
    requires s.workers[w].Fresh? || s.workers[w].Clocked?
    requires s' == DoGate(s, w, choice) && tr' == Noted(s, WorkerStep(w, choice), tr)
    ensures w in s'.workers && StageTold(s', tr', s'.workers[w])
  {
    var g := s.workers[w];
    if g.Fresh? { ReadTold(s, w, tr, g.m, g.k, s', tr'); } else { ClockedTold(s, w, tr, g.m, g.k, g.age, choice, s', tr'); }
  }

  lemma OwnLate(s: Sys, w: nat, choice: bool, tr: Trace, s': Sys, tr': Trace)
    requires w in s.workers && w in s.ring.pc && WorkerOk(s, w) && StageTold(s, tr, s.workers[w]) && |s.ring.cells| > 0
    requires s.workers[w].Signing? || s.workers[w].Sending?
    requires s' == DoGate(s, w, choice) && tr' == Noted(s, WorkerStep(w, choice), tr)
    ensures w in s'.workers && StageTold(s', tr', s'.workers[w])
  {
    var g := s.workers[w];
    if g.Signing? { SignedTold(s, w, tr, g.m, g.k, g.age, choice, s', tr'); } else { AnsweredTold(s, w, tr, g.m, g.k, g.age, choice, s', tr'); }
  }

  lemma OwnEnd(s: Sys, w: nat, choice: bool, tr: Trace, s': Sys, tr': Trace)
    requires w in s.workers && (s.workers[w].Decided? || s.workers[w].Stopped?) && s' == DoGate(s, w, choice)
    ensures w in s'.workers && StageTold(s', tr', s'.workers[w])
  {
  }

  lemma OwnTold(s: Sys, w: nat, choice: bool, tr: Trace, s': Sys, tr': Trace)
    requires HotSide(s) && w in s.workers && w in s.ring.pc && WorkerOk(s, w) && StageTold(s, tr, s.workers[w]) && |s.ring.cells| > 0
    requires !s.workers[w].Polling? && s' == DoGate(s, w, choice) && tr' == Noted(s, WorkerStep(w, choice), tr)
    ensures w in s'.workers && StageTold(s', tr', s'.workers[w])
  {
    if s.workers[w].Fresh? || s.workers[w].Clocked? {
      OwnEarly(s, w, choice, tr, s', tr');
    } else if s.workers[w].Signing? || s.workers[w].Sending? {
      OwnLate(s, w, choice, tr, s', tr');
    } else {
      OwnEnd(s, w, choice, tr, s', tr');
    }
  }

  // What a gate adds to the histories.
  lemma GateOutcomeIs(s: Sys, w: nat, choice: bool)
    requires w in s.workers
    ensures DoGate(s, w, choice).outcome == if s.workers[w].Decided? then s.outcome[s.workers[w].k := s.workers[w].kind] else s.outcome
  {
  }

  lemma GateSentIs(s: Sys, w: nat, choice: bool)
    requires w in s.workers
    ensures DoGate(s, w, choice).sent
         == if s.workers[w].Sending? then s.sent + [Sent(s.workers[w].k, s.workers[w].m)] else s.sent
  {
  }

  lemma GateHistories(s: Sys, w: nat, choice: bool, s': Sys)
    requires w in s.workers && !s.workers[w].Polling? && s' == DoGate(s, w, choice)
    ensures Grows(s, s') && s'.workers.Keys == s.workers.Keys && s'.ring == s.ring
    ensures forall v | v in s.workers && v != w :: s'.workers[v] == s.workers[v]
  {
    GatePassed(s, w, choice);
    GateFrame(s, w, choice);
    GateSentIs(s, w, choice);
    GateKeys(s, w, choice);
  }

  lemma GateKeys(s: Sys, w: nat, choice: bool)
    requires w in s.workers
    ensures DoGate(s, w, choice).workers.Keys == s.workers.Keys
  {
  }

  lemma GateTold(s: Sys, w: nat, choice: bool, tr: Trace, s': Sys, tr': Trace)
    requires HotSide(s) && WorkersOk(s) && OneHolder(s) && SentsOk(s) && Told(s, tr)
    requires w in s.workers && w in s.ring.pc && |s.ring.cells| > 0 && !s.workers[w].Polling?
    requires s' == DoGate(s, w, choice) && tr' == Noted(s, WorkerStep(w, choice), tr)
    ensures Told(s', tr')
  {
    assert WorkerOk(s, w) && StageTold(s, tr, s.workers[w]);
    SparesOthers(s, WorkerStep(w, choice), tr);
    GateHistories(s, w, choice, s');
    OwnTold(s, w, choice, tr, s', tr');
    OthersTold(s, w, tr, s', tr');
    GateOutcomes(s, w, choice, tr, s', tr');
    GateSent(s, w, choice, tr, s', tr');
  }

  lemma GateOutcomes(s: Sys, w: nat, choice: bool, tr: Trace, s': Sys, tr': Trace)
    requires WorkersOk(s) && OutcomesTold(s, tr) && w in s.workers && StageTold(s, tr, s.workers[w]) && !s.workers[w].Polling?
    requires s' == DoGate(s, w, choice) && tr' == Noted(s, WorkerStep(w, choice), tr) && Spares(s, w, tr, tr') && Grows(s, s')
    ensures OutcomesTold(s', tr')
  {
    assert WorkerOk(s, w);
    GateOutcomeIs(s, w, choice);
    if s.workers[w].Decided? { FitsKept(s, tr, s', tr', s.workers[w].k, s.workers[w].kind); }
    OutcomesKept(s, w, tr, s', tr');
  }

  lemma GateSent(s: Sys, w: nat, choice: bool, tr: Trace, s': Sys, tr': Trace)
    requires WorkersOk(s) && OneHolder(s) && SentsOk(s) && SentTold(s, tr) && w in s.workers && StageTold(s, tr, s.workers[w])
    requires w in s.ring.pc && |s.ring.cells| > 0 && !s.workers[w].Polling?
    requires s' == DoGate(s, w, choice) && tr' == Noted(s, WorkerStep(w, choice), tr) && Spares(s, w, tr, tr')
    ensures SentTold(s', tr')
  {
    assert WorkerOk(s, w);
    GateHistories(s, w, choice, s');
    GateSentIs(s, w, choice);
    SentKept(s, w, tr, s', tr');
  }

  // At the ring nothing is told.
  lemma PollTold(s: Sys, w: nat, choice: bool, tr: Trace, s': Sys)
    requires WorkersOk(s) && OneHolder(s) && SentsOk(s) && Told(s, tr) && |s.ring.cells| > 0
    requires w in s.workers && w in s.ring.pc && s.workers[w].Polling? && s' == DoWorker(s, w, choice) && s'.ring.pushed == s.ring.pushed
    ensures Told(s', tr)
  {
    PollIs(s, w, choice);
    OthersTold(s, w, tr, s', tr);
    OutcomesKept(s, w, tr, s', tr);
    SentKept(s, w, tr, s', tr);
  }

  // The hot thread and the environment neither.
  lemma ElseTold(s: Sys, tr: Trace, s': Sys)
    requires Told(s, tr) && Grows(s, s') && s'.workers == s.workers && s'.outcome == s.outcome && s'.sent == s.sent
    ensures Told(s', tr)
  {
    forall w | w in s'.workers ensures StageTold(s', tr, s'.workers[w]) { StageKept(s, tr, s', tr, s.workers[w]); }
    forall k | k in s'.outcome ensures Fits(s', tr, k, s'.outcome[k]) { FitsKept(s, tr, s', tr, k, s.outcome[k]); }
  }

  lemma StepTold(s: Sys, a: Action, tr: Trace)
    requires HotSide(s) && WorkSide(s) && Told(s, tr) && |s.ring.cells| > 0
    ensures Told(Do(s, a), Noted(s, a, tr))
  {
    if !a.WorkerStep? {
      OthersWork(s, a);
      ElseTold(s, tr, Do(s, a));
    } else if a.w in s.workers {
      assert WorkerOk(s, a.w);
      if s.workers[a.w].Polling? {
        PollPassed(s, a.w, a.choice);
        PollPushes(s, a.w, a.choice);
        PollTold(s, a.w, a.choice, tr, Do(s, a));
      } else {
        GateTold(s, a.w, a.choice, tr, Do(s, a), Noted(s, a, tr));
      }
    }
  }

  lemma PollPushes(s: Sys, w: nat, choice: bool)
    requires w in s.workers && w in s.ring.pc && |s.ring.cells| > 0 && s.workers[w].Polling?
    requires s.ring.pc[w].Idle? || R.Popping(s.ring.pc[w])
    ensures DoWorker(s, w, choice).ring.pushed == s.ring.pushed
  {
    if !s.ring.pc[w].Idle? && !s.ring.pc[w].PopDone? { R.AccessPopMove(s.ring, w, choice); }
  }

  lemma {:induction false} ExecTold(s0: Sys, acts: seq<Action>)
    requires Init(s0)
    ensures Told(Exec(s0, acts), Traced(s0, acts))
    decreases |acts|
  {
    if acts != [] {
      var before := acts[..|acts| - 1];
      ExecTold(s0, before);
      ExecSides(s0, before);
      ExecCells(s0, before);
      StepTold(Exec(s0, before), acts[|acts| - 1], Traced(s0, before));
    }
  }

  lemma ExecCells(s0: Sys, acts: seq<Action>)
    requires Init(s0)
    ensures |Exec(s0, acts).ring.cells| > 0
  {
    ExecInv(s0, acts);
  }

  /** Every order's outcome is the one its trace asks for: expired exactly if it was over a
      limit when the worker took it up and read the clock; else rate-limited, shadowed,
      failed to sign, failed to send or submitted, by the rate limiter's answer, the
      order-entry switch, and what signing and sending did, in this order. It was
      transmitted exactly if its outcome is one of the last two. */
  lemma OutcomeExact(s0: Sys, acts: seq<Action>, k: nat)
    requires Init(s0) && k in Exec(s0, acts).outcome
    ensures var s, tr := Exec(s0, acts), Traced(s0, acts);
      && k < |s.ring.pushed| && Fate(s.cfg, s.ring.pushed[k], tr, k) == Some(s.outcome[k])
      && (Transmitted(s, k) <==> s.outcome[k] == Submitted || s.outcome[k] == TransportError)
  {
    ExecTold(s0, acts);
    OutcomeOf(Exec(s0, acts), Traced(s0, acts), k);
  }

  lemma OutcomeOf(s: Sys, tr: Trace, k: nat)
    requires OutcomesTold(s, tr) && SentTold(s, tr) && k in s.outcome
    ensures k < |s.ring.pushed| && Fate(s.cfg, s.ring.pushed[k], tr, k) == Some(s.outcome[k])
    ensures Transmitted(s, k) <==> s.outcome[k] == Submitted || s.outcome[k] == TransportError
  {
    assert Fits(s, tr, k, s.outcome[k]);
    if Transmitted(s, k) {
      var i :| 0 <= i < |s.sent| && s.sent[i].k == k;
      assert Ready(s.cfg, s.sent[i].m, tr, s.sent[i].k);
    }
  }

  /** Whatever is transmitted is the order pushed with its ticket and was allowed out: order
      entry enabled, and, when the worker took it up and read the clock, within its own time
      to live and the limit on time in the queue. No ring ticket and no order id is ever
      transmitted twice. */
  lemma OnlyAllowedOrdersSentOnce(s0: Sys, acts: seq<Action>)
    requires Init(s0)
    ensures AllowedAndOnce(Exec(s0, acts), Traced(s0, acts))
  {
    ExecSides(s0, acts);
    ExecTold(s0, acts);
    OnlyAllowed(Exec(s0, acts), Traced(s0, acts));
  }

  predicate Allowed(s: Sys, tr: Trace, e: Sent) {
    && s.cfg.ordersEnabled && e.k in tr.read && e.k < |s.ring.pushed| && s.ring.pushed[e.k] == e.m
    && tr.read[e.k] - e.m.decision <= s.cfg.maxQueueAge && (e.m.ttl != 0 ==> tr.read[e.k] - e.m.decision <= e.m.ttl)
  }

  ghost predicate AllowedAndOnce(s: Sys, tr: Trace) {
    && (forall i | 0 <= i < |s.sent| :: Allowed(s, tr, s.sent[i]))
    && (forall i, j | 0 <= i < j < |s.sent| :: s.sent[i].k != s.sent[j].k)
    && (forall i, j | 0 <= i < j < |s.sent| :: !SameId(s.sent[i].m, s.sent[j].m))
  }

  lemma OnlyAllowed(s: Sys, tr: Trace)
    requires SentsOk(s) && HotSide(s) && SentTold(s, tr)
    ensures AllowedAndOnce(s, tr)
  {
    forall i, j | 0 <= i < j < |s.sent| ensures !SameId(s.sent[i].m, s.sent[j].m) {
      assert SentOk(s, s.sent[i]) && SentOk(s, s.sent[j]);
      var a, b := s.sent[i].k, s.sent[j].k;
      if a < b { assert !SameId(s.ring.pushed[a], s.ring.pushed[b]); } else { assert !SameId(s.ring.pushed[b], s.ring.pushed[a]); }
    }
  }
}
