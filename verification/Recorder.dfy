/**
 The durable recorder of include/kalshi/ws_recorder.hpp: a producer that records
 frames and markers into the ring without ever blocking, a writer thread that drains
 the ring into the log and reports overflow as loss markers, and stop().

 As in module Pipeline the ring is the real one: both sides advance inside try_push
 and try_pop one atomic access at a time. The model starts after start().
 */
module Recorder {

  import R = Ring

  datatype Rec = Frame(id: nat) | Mark(kind: nat)

  // What reaches the log: records taken from the ring, and loss markers.
  datatype Entry = Stored(rec: Rec) | Loss(count: nat)

  // Inside record() / mark().
  datatype Prod = ProdIdle | Pushing(rec: Rec) | CountRecorded | CountDropped(frame: bool) | CountLoss

  // Inside drain_loop() or drain_once().
  datatype Cons = Check | Pop | Write(rec: Rec) | Emit | WriteLoss(count: nat) | Exited

  // Inside stop().
  datatype Stop = NotStopping | Joining | Draining | Stopped

  // calls, marks, closed and quiet are histories: record() and mark() calls so far, "the
  // producer is done", and "the producer was done when stop() began".
  datatype Sys = Sys(
    ring: R.State<Rec>,
    running: bool,
    prod: Prod,
    cons: Cons,
    stop: Stop,
    recorded: nat,
    dropped: nat,
    pendingLoss: nat,
    out: seq<Entry>,
    calls: nat,
    marks: nat,
    closed: bool,
    quiet: bool)

  const PRODUCER: nat := 0
  const WRITER: nat := 1
  const STOPPER: nat := 2

  // The thread that is draining: the writer, and after the join the caller of stop().
  function Drainer(s: Sys): nat { if s.stop.Draining? || s.stop.Stopped? then STOPPER else WRITER }

  // ---------------------------------------------------------------- steps

  datatype Action = Record(rec: Rec) | Finish | ProdStep(weak: bool) | ConsStep(weak: bool) | BeginStop | Join

  ghost predicate Wired(s: Sys) {
    && PRODUCER in s.ring.pc && WRITER in s.ring.pc && STOPPER in s.ring.pc && |s.ring.cells| > 0
    && (forall u | u in s.ring.pc :: u == PRODUCER || u == WRITER || u == STOPPER)
  }

  function DoProd(s: Sys, weak: bool): Sys
    requires PRODUCER in s.ring.pc && |s.ring.cells| > 0
  {
    match s.prod
    case ProdIdle => s
    case Pushing(rec) =>
      if s.ring.pc[PRODUCER].PushDone? then
        s.(ring := s.ring.At(PRODUCER, R.Idle),
           prod := if !s.ring.pc[PRODUCER].ok then CountDropped(rec.Frame?)
                   else if rec.Frame? then CountRecorded else ProdIdle)
      else s.(ring := R.Access(s.ring, PRODUCER, weak))
    case CountRecorded => s.(recorded := s.recorded + 1, prod := ProdIdle)
    case CountDropped(frame) => s.(dropped := s.dropped + 1, prod := if frame then CountLoss else ProdIdle)
    case CountLoss => s.(pendingLoss := s.pendingLoss + 1, prod := ProdIdle)
  }

  // After emit_pending_loss: the writer loops, stop() is finished.
  function AfterEmit(s: Sys): Sys {
    if s.stop.Draining? then s.(cons := Exited, stop := Stopped) else s.(cons := Check)
  }

  function DoCons(s: Sys, weak: bool): Sys
    requires Drainer(s) in s.ring.pc && |s.ring.cells| > 0
  {
    var t := Drainer(s);
    match s.cons
    case Check => s.(cons := if s.running then Pop else Exited)
    case Pop =>
      (match s.ring.pc[t]
       case Idle => s.(ring := s.ring.At(t, R.PopLoad))
       case PopDone(None, _) => s.(ring := s.ring.At(t, R.Idle), cons := Emit)
       case PopDone(Some(rec), _) => s.(ring := s.ring.At(t, R.Idle), cons := Write(rec))
       case _ => s.(ring := R.Access(s.ring, t, weak)))
    case Write(rec) => s.(out := s.out + [Stored(rec)], cons := Pop)
    case Emit =>
      if s.pendingLoss == 0 then AfterEmit(s) else s.(pendingLoss := 0, cons := WriteLoss(s.pendingLoss))
    case WriteLoss(n) => AfterEmit(s.(out := s.out + [Loss(n)]))
    case Exited => s
  }

  function Do(s: Sys, a: Action): Sys {
    match a
    case Record(rec) =>
      if s.prod.ProdIdle? && !s.closed then
        s.(prod := Pushing(rec), ring := s.ring.At(PRODUCER, R.PushLoad(rec)),
           calls := s.calls + (if rec.Frame? then 1 else 0), marks := s.marks + (if rec.Frame? then 0 else 1))
      else s
    case Finish => if s.prod.ProdIdle? then s.(closed := true) else s
    case ProdStep(weak) => if PRODUCER in s.ring.pc && |s.ring.cells| > 0 then DoProd(s, weak) else s
    case ConsStep(weak) => if Drainer(s) in s.ring.pc && |s.ring.cells| > 0 then DoCons(s, weak) else s
    case BeginStop => if s.running then s.(running := false, stop := Joining, quiet := s.closed) else s
    case Join => if s.stop.Joining? && s.cons.Exited? then s.(stop := Draining, cons := Pop) else s
  }

  function Exec(s: Sys, acts: seq<Action>): Sys
    decreases |acts|
  {
    if acts == [] then s else Do(Exec(s, acts[..|acts| - 1]), acts[|acts| - 1])
  }

  ghost predicate Init(s: Sys) {
    && R.Init(s.ring) && Wired(s) && s.running
    && s.prod.ProdIdle? && s.cons.Check? && s.stop.NotStopping?
    && s.recorded == s.dropped == s.pendingLoss == s.calls == s.marks == 0
    && s.out == [] && !s.closed && !s.quiet
  }

  // ---------------------------------------------------------------- measures

  function Frames(recs: seq<Rec>): nat
    decreases |recs|
  {
    if recs == [] then 0
    else Frames(recs[..|recs| - 1]) + (if recs[|recs| - 1].Frame? then 1 else 0)
  }

  // The ring records written so far, in the order written.
  function Records(out: seq<Entry>): seq<Rec>
    decreases |out|
  {
    if out == [] then []
    else Records(out[..|out| - 1]) + (if out[|out| - 1].Stored? then [out[|out| - 1].rec] else [])
  }

  function Lost(out: seq<Entry>): nat
    decreases |out|
  {
    if out == [] then 0
    else Lost(out[..|out| - 1]) + (if out[|out| - 1].Loss? then out[|out| - 1].count else 0)
  }

  lemma FramesPush(recs: seq<Rec>, r: Rec)
    ensures Frames(recs + [r]) == Frames(recs) + (if r.Frame? then 1 else 0)
  {
    assert (recs + [r])[..|recs|] == recs;
  }

  lemma OutAppend(out: seq<Entry>, e: Entry)
    ensures Records(out + [e]) == Records(out) + (if e.Stored? then [e.rec] else [])
    ensures Lost(out + [e]) == Lost(out) + (if e.Loss? then e.count else 0)
  {
    assert (out + [e])[..|out|] == out;
  }

  // 1 while a recorded frame is neither in the ring nor in pending_loss_.
  function InTransit(s: Sys): nat
    requires PRODUCER in s.ring.pc
  {
    match s.prod
    case Pushing(rec) => if rec.Frame? && !R.Entered(s.ring.pc[PRODUCER]) then 1 else 0
    case CountDropped(frame) => if frame then 1 else 0
    case CountLoss => 1
    case _ => 0
  }

  function BeingWritten(s: Sys): nat {
    if s.cons.WriteLoss? then s.cons.count else 0
  }

  // 1 while the drainer has taken a record it has not written yet.
  function InHand(s: Sys): nat
    requires Drainer(s) in s.ring.pc
  {
    if s.cons.Write? || (s.cons.Pop? && R.Taken(s.ring.pc[Drainer(s)]).Some?) then 1 else 0
  }

  // ---------------------------------------------------------------- invariant

  ghost predicate Roles(s: Sys) {
    && Wired(s)
    && (var p := s.ring.pc[PRODUCER];
        if s.prod.Pushing? then R.Pushing(p) && p.v == s.prod.rec else p.Idle?)
    && (var p := s.ring.pc[Drainer(s)]; p.Idle? || (s.cons.Pop? && R.Popping(p)))
    && s.ring.pc[WRITER + STOPPER - Drainer(s)].Idle?
    && (s.stop.Draining? ==> s.cons != Check && s.cons != Exited)
    && (s.running <==> s.stop.NotStopping?)
    && (s.stop.Stopped? ==> s.cons.Exited?)
    && (s.quiet ==> s.closed) && (s.closed ==> s.prod.ProdIdle?)
  }

  ghost predicate ProdSide(s: Sys)
    requires PRODUCER in s.ring.pc
  {
    s.calls == Frames(s.ring.pushed) + InTransit(s) + s.pendingLoss + BeingWritten(s) + Lost(s.out)
  }

  ghost predicate ConsSide(s: Sys)
    requires Drainer(s) in s.ring.pc
  {
    && s.ring.deq == |Records(s.out)| + InHand(s)
    && Records(s.out) <= s.ring.pushed
    && (s.cons.Write? ==> s.ring.deq <= |s.ring.pushed| && s.cons.rec == s.ring.pushed[|Records(s.out)|])
    && (s.cons.Pop? && R.Taken(s.ring.pc[Drainer(s)]).Some? ==>
          R.Taken(s.ring.pc[Drainer(s)]).value == |Records(s.out)|)
  }

  predicate FoundEmpty(p: R.Pc<Rec>) { p.PopDone? && p.result.None? }

  predicate PastEmpty(s: Sys)
    requires STOPPER in s.ring.pc
  {
    (s.cons.Pop? && FoundEmpty(s.ring.pc[STOPPER])) || s.cons.Emit? || s.cons.WriteLoss?
  }

  // Once the last drain has found the ring empty behind a finished producer, it stays
  // empty, and the last emit_pending_loss leaves nothing pending.
  ghost predicate Drained(s: Sys)
    requires STOPPER in s.ring.pc
  {
    s.quiet ==>
      && (s.stop.Draining? && PastEmpty(s) ==> s.ring.deq == s.ring.enq)
      && (s.stop.Draining? && s.cons.WriteLoss? ==> s.pendingLoss == 0)
      && (s.stop.Stopped? ==> s.ring.deq == s.ring.enq && s.pendingLoss == 0)
  }

  ghost predicate Sides(s: Sys) {
    Roles(s) && ProdSide(s) && ConsSide(s) && Drained(s) && |s.ring.pushed| == s.ring.enq && s.ring.deq <= s.ring.enq
  }

  ghost predicate Inv(s: Sys) { R.Inv(s.ring) && Sides(s) }

  // ---------------------------------------------------------------- preservation

  lemma InitInv(s: Sys)
    requires Init(s)
    ensures Inv(s)
  {
    R.InitInv(s.ring);
  }

  lemma DoRing(s: Sys, a: Action)
    requires R.Inv(s.ring) && Roles(s)
    ensures R.Inv(Do(s, a).ring)
  {
    var t := Drainer(s);
    if a.Record? && s.prod.ProdIdle? && !s.closed {
      R.LocalMove(s.ring, PRODUCER, R.PushLoad(a.rec));
    } else if a.ProdStep? && s.prod.Pushing? {
      if s.ring.pc[PRODUCER].PushDone? { R.LocalMove(s.ring, PRODUCER, R.Idle); }
      else { R.AccessInv(s.ring, PRODUCER, a.weak); }
    } else if a.ConsStep? && s.cons.Pop? {
      DrainerRing(s, a.weak);
    }
  }

  lemma DrainerRing(s: Sys, weak: bool)
    requires R.Inv(s.ring) && Roles(s) && s.cons.Pop?
    ensures R.Inv(DoCons(s, weak).ring)
  {
    var t := Drainer(s);
    var p := s.ring.pc[t];
    if p.Idle? {
      R.LocalMove(s.ring, t, R.PopLoad);
    } else if p.PopDone? {
      R.LocalMove(s.ring, t, R.Idle);
    } else {
      R.AccessInv(s.ring, t, weak);
    }
  }

  lemma RecordKept(s: Sys, rec: Rec)
    requires Sides(s)
    ensures Sides(Do(s, Record(rec)))
  {
  }

  lemma ProdMoved(s: Sys, r: R.State<Rec>)
    requires Sides(s) && s.prod.Pushing? && R.PushMove(s.ring, PRODUCER, r) && |r.cells| > 0 && |r.pushed| == r.enq
    ensures Sides(s.(ring := r))
  {
    FramesPush(s.ring.pushed, s.prod.rec);
    assert s.ring.pc[PRODUCER].v == s.prod.rec;
  }

  lemma ProdReturns(s: Sys, weak: bool)
    requires Sides(s) && s.prod.Pushing? && s.ring.pc[PRODUCER].PushDone?
    ensures Sides(DoProd(s, weak))
  {
  }

  lemma ProdCounts(s: Sys, weak: bool)
    requires Sides(s) && !s.prod.Pushing?
    ensures Sides(DoProd(s, weak))
  {
    ProdIs(s, weak, DoProd(s, weak));
    CountsKept(s, DoProd(s, weak));
  }

  // Between its pushes the producer only counts.
  ghost predicate Counts(s: Sys, s': Sys)
    requires PRODUCER in s.ring.pc
  {
    && s' == s.(recorded := s'.recorded, dropped := s'.dropped, pendingLoss := s'.pendingLoss, prod := s'.prod)
    && !s'.prod.Pushing? && InTransit(s') + s'.pendingLoss == InTransit(s) + s.pendingLoss && (s.prod.ProdIdle? ==> s' == s)
  }

  lemma ProdIs(s: Sys, weak: bool, s': Sys)
    requires PRODUCER in s.ring.pc && |s.ring.cells| > 0 && !s.prod.Pushing? && s' == DoProd(s, weak)
    ensures Counts(s, s')
  {
  }

  lemma CountsKept(s: Sys, s': Sys)
    requires Sides(s) && !s.prod.Pushing? && Counts(s, s')
    ensures Sides(s')
  {
    if s.prod.ProdIdle? { assert s' == s; } else { assert !s.closed && !s.quiet; }
  }

  lemma ProdKept(s: Sys, weak: bool)
    requires Sides(s)
    ensures Sides(DoProd(s, weak))
  {
    if s.prod.Pushing? && !s.ring.pc[PRODUCER].PushDone? {
      R.AccessPushMove(s.ring, PRODUCER, weak);
      ProdMoved(s, R.Access(s.ring, PRODUCER, weak));
    } else if s.prod.Pushing? {
      ProdReturns(s, weak);
    } else {
      ProdCounts(s, weak);
    }
  }

  // What the drain needs from the ring about a finished or failing pop.
  ghost predicate PopFacts(s: Sys, weak: bool)
    requires Roles(s)
  {
    var t := Drainer(s);
    && (s.ring.pc[t].PopDone? && s.ring.pc[t].result.Some? ==>
          s.ring.pc[t].pos < |s.ring.pushed| && s.ring.pushed[s.ring.pc[t].pos] == s.ring.pc[t].result.value)
    && (s.ring.pc[t].PopSeq? && FoundEmpty(R.Access(s.ring, t, weak).pc[t]) && s.prod.ProdIdle? ==>
          s.ring.deq == s.ring.enq)
    && R.Access(s.ring, t, weak).deq <= s.ring.enq
  }

  lemma RingFacts(s: Sys, weak: bool)
    requires R.Inv(s.ring) && Roles(s)
    ensures PopFacts(s, weak)
  {
    var t := Drainer(s);
    DeqBound(s.ring, t, weak);
    if s.ring.pc[t].PopDone? && s.ring.pc[t].result.Some? {
      R.PopResult(s.ring, t);
    } else if s.ring.pc[t].PopSeq? {
      R.PopFailsInv(s.ring, t, weak);
      if s.prod.ProdIdle? { NobodyPushing(s); }
    }
  }

  lemma DeqBound(r: R.State<Rec>, t: nat, weak: bool)
    requires R.Inv(r) && t in r.pc && (r.pc[t].Idle? || R.Popping(r.pc[t]))
    ensures R.Access(r, t, weak).deq <= r.enq
  {
    R.AccessInv(r, t, weak);
    if R.Popping(r.pc[t]) { R.AccessPopMove(r, t, weak); }
  }

  lemma NobodyPushing(s: Sys)
    requires Roles(s) && s.prod.ProdIdle?
    ensures forall k :: !R.Claimed(s.ring, R.PushOf(k))
  {
    forall u | u in s.ring.pc ensures R.ClaimOf(s.ring.pc[u]).Some? ==> R.ClaimOf(s.ring.pc[u]).value.PopOf? {
      assert u == PRODUCER || u == WRITER || u == STOPPER;
    }
  }

  lemma DrainerMoved(s: Sys, r: R.State<Rec>)
    requires Sides(s) && s.cons.Pop? && R.PopMove(s.ring, Drainer(s), r) && |r.cells| > 0 && r.deq <= s.ring.enq
    requires FoundEmpty(r.pc[Drainer(s)]) && s.prod.ProdIdle? ==> r.deq == r.enq
    ensures Sides(s.(ring := r))
  {
  }

  lemma PopKept(s: Sys, weak: bool)
    requires Sides(s) && s.cons.Pop? && PopFacts(s, weak)
    ensures Sides(DoCons(s, weak))
  {
    var t := Drainer(s);
    var p := s.ring.pc[t];
    if p.Idle? {
      PopBegins(s, weak);
    } else if p.PopDone? {
      PopReturns(s, weak);
    } else {
      R.AccessPopMove(s.ring, t, weak);
      DrainerMoved(s, R.Access(s.ring, t, weak));
    }
  }

  lemma PopBegins(s: Sys, weak: bool)
    requires Sides(s) && s.cons.Pop? && s.ring.pc[Drainer(s)].Idle?
    ensures Sides(DoCons(s, weak))
  {
  }

  lemma PopReturns(s: Sys, weak: bool)
    requires Sides(s) && s.cons.Pop? && s.ring.pc[Drainer(s)].PopDone? && PopFacts(s, weak)
    ensures Sides(DoCons(s, weak))
  {
    var t := Drainer(s);
    var s' := DoCons(s, weak);
    assert s'.ring.pushed == s.ring.pushed && s'.out == s.out && s'.ring.enq == s.ring.enq && s'.ring.deq == s.ring.deq;
    assert ConsSide(s');
  }

  lemma WriteRecord(s: Sys, weak: bool)
    requires Sides(s) && s.cons.Write?
    ensures Sides(DoCons(s, weak))
  {
    OutAppend(s.out, Stored(s.cons.rec));
    RecordWritten(s, s.out + [Stored(s.cons.rec)]);
  }

  lemma RecordWritten(s: Sys, out': seq<Entry>)
    requires Sides(s) && s.cons.Write?
    requires Records(out') == Records(s.out) + [s.cons.rec] && Lost(out') == Lost(s.out)
    ensures Sides(s.(out := out', cons := Pop))
  {
    var s' := s.(out := out', cons := Pop);
    assert Roles(s') && ProdSide(s');
  }

  lemma TakeLoss(s: Sys, weak: bool)
    requires Sides(s) && s.cons.Emit?
    ensures Sides(DoCons(s, weak))
  {
    if s.pendingLoss == 0 { NoLoss(s); } else { SomeLoss(s, s.(pendingLoss := 0, cons := WriteLoss(s.pendingLoss))); }
  }

  lemma NoLoss(s: Sys)
    requires Sides(s) && s.cons.Emit? && s.pendingLoss == 0
    ensures Sides(AfterEmit(s))
  {
  }

  lemma SomeLoss(s: Sys, s': Sys)
    requires Sides(s) && s.cons.Emit? && s' == s.(pendingLoss := 0, cons := WriteLoss(s.pendingLoss))
    ensures Sides(s')
  {
  }

  lemma WriteLossMarker(s: Sys, weak: bool)
    requires Sides(s) && s.cons.WriteLoss?
    ensures Sides(DoCons(s, weak))
  {
    var out' := s.out + [Loss(s.cons.count)];
    OutAppend(s.out, Loss(s.cons.count));
    if s.stop.Draining? {
      LossEnds(s, s.(out := out', cons := Exited, stop := Stopped));
    } else {
      LossWritten(s, s.(out := out', cons := Check));
    }
  }

  lemma LossEnds(s: Sys, s': Sys)
    requires Sides(s) && s.cons.WriteLoss? && s.stop.Draining? && s' == s.(out := s'.out, cons := Exited, stop := Stopped)
    requires Records(s'.out) == Records(s.out) && Lost(s'.out) == Lost(s.out) + s.cons.count
    ensures Sides(s')
  {
  }

  lemma LossWritten(s: Sys, s': Sys)
    requires Sides(s) && s.cons.WriteLoss? && !s.stop.Draining? && s' == s.(out := s'.out, cons := Check)
    requires Records(s'.out) == Records(s.out) && Lost(s'.out) == Lost(s.out) + s.cons.count
    ensures Sides(s')
  {
  }

  lemma WriteKept(s: Sys, weak: bool)
    requires Sides(s) && !s.cons.Pop?
    ensures Sides(DoCons(s, weak))
  {
    if s.cons.Write? {
      WriteRecord(s, weak);
    } else if s.cons.Emit? {
      TakeLoss(s, weak);
    } else if s.cons.WriteLoss? {
      WriteLossMarker(s, weak);
    }
  }

  lemma DoSides(s: Sys, a: Action)
    requires Sides(s) && (a.ConsStep? ==> PopFacts(s, a.weak))
    ensures Sides(Do(s, a))
  {
    match a
    case Record(rec) => RecordKept(s, rec);
    case Finish =>
    case ProdStep(weak) => ProdKept(s, weak);
    case ConsStep(weak) => if s.cons.Pop? { PopKept(s, weak); } else { WriteKept(s, weak); }
    case BeginStop =>
    case Join =>
  }

  lemma {:induction false} ExecInv(s: Sys, acts: seq<Action>)
    requires Init(s)
    ensures Inv(Exec(s, acts))
    decreases |acts|
  {
    if acts == [] {
      InitInv(s);
    } else {
      var m, a := Exec(s, acts[..|acts| - 1]), acts[|acts| - 1];
      ExecInv(s, acts[..|acts| - 1]);
      if a.ConsStep? { RingFacts(m, a.weak); }
      DoRing(m, a);
      DoSides(m, a);
    }
  }

  // ---------------------------------------------------------------- the two counters

  // 1 while a pushed frame is not in recorded_ yet.
  function Uncounted(s: Sys): nat
    requires PRODUCER in s.ring.pc
  {
    if s.prod.CountRecorded? || (s.prod.Pushing? && s.prod.rec.Frame? && R.Entered(s.ring.pc[PRODUCER])) then 1 else 0
  }

  // 1 while a call has neither entered the ring nor reached dropped_.
  function Undecided(s: Sys): nat
    requires PRODUCER in s.ring.pc
  {
    if s.prod.CountDropped? || (s.prod.Pushing? && !R.Entered(s.ring.pc[PRODUCER])) then 1 else 0
  }

  ghost predicate Counted(s: Sys) {
    && PRODUCER in s.ring.pc
    && Frames(s.ring.pushed) == s.recorded + Uncounted(s)
    && s.calls + s.marks == |s.ring.pushed| + s.dropped + Undecided(s)
  }

  lemma ProdMovedCounted(s: Sys, r: R.State<Rec>)
    requires Counted(s) && Roles(s) && s.prod.Pushing? && R.PushMove(s.ring, PRODUCER, r)
    ensures Counted(s.(ring := r))
  {
    FramesPush(s.ring.pushed, s.prod.rec);
  }

  lemma ProdCounted(s: Sys, weak: bool)
    requires Counted(s) && Roles(s)
    ensures Counted(DoProd(s, weak))
  {
    if s.prod.Pushing? && !s.ring.pc[PRODUCER].PushDone? {
      R.AccessPushMove(s.ring, PRODUCER, weak);
      ProdMovedCounted(s, R.Access(s.ring, PRODUCER, weak));
    }
  }

  // The drainer does not touch what the producer counts.
  ghost predicate ProdSame(s: Sys, s': Sys) {
    && s'.prod == s.prod && s'.recorded == s.recorded && s'.dropped == s.dropped && s'.calls == s.calls && s'.marks == s.marks
    && PRODUCER in s.ring.pc && PRODUCER in s'.ring.pc && s'.ring.pc[PRODUCER] == s.ring.pc[PRODUCER] && s'.ring.pushed == s.ring.pushed
  }

  lemma PopFrame(s: Sys, weak: bool)
    requires Roles(s) && s.cons.Pop?
    ensures ProdSame(s, DoCons(s, weak))
  {
    var t := Drainer(s);
    if R.Popping(s.ring.pc[t]) && !s.ring.pc[t].PopDone? {
      R.AccessPopMove(s.ring, t, weak);
      assert DoCons(s, weak) == s.(ring := R.Access(s.ring, t, weak));
    }
  }

  lemma ConsFrame(s: Sys, weak: bool)
    requires Roles(s)
    ensures ProdSame(s, DoCons(s, weak))
  {
    if s.cons.Pop? { PopFrame(s, weak); }
  }

  lemma DoCounted(s: Sys, a: Action)
    requires Counted(s) && Roles(s)
    ensures Counted(Do(s, a))
  {
    if a.ProdStep? { ProdCounted(s, a.weak); } else if a.ConsStep? { ConsFrame(s, a.weak); }
  }

  lemma {:induction false} ExecCounted(s: Sys, acts: seq<Action>)
    requires Init(s)
    ensures Counted(Exec(s, acts))
    decreases |acts|
  {
    if acts != [] {
      ExecCounted(s, acts[..|acts| - 1]);
      ExecInv(s, acts[..|acts| - 1]);
      DoCounted(Exec(s, acts[..|acts| - 1]), acts[|acts| - 1]);
    }
  }

  // ---------------------------------------------------------------- theorems

  /** At every moment of every interleaving each recorded frame is in exactly one
      place: written, in the drainer's hand or in the ring (all three are the frames
      pushed), on its way into the ring, counted as pending loss, or in a loss marker;
      and what has been written is, in order, a prefix of what was pushed. */
  lemma EveryFrameAccounted(s0: Sys, acts: seq<Action>)
    requires Init(s0)
    ensures var s := Exec(s0, acts);
      && PRODUCER in s.ring.pc
      && s.calls == Frames(s.ring.pushed) + InTransit(s) + s.pendingLoss + BeingWritten(s) + Lost(s.out)
      && Records(s.out) <= s.ring.pushed
  {
    ExecInv(s0, acts);
  }

  /** When the producer had finished before stop() began, then after stop() the log
      holds every pushed record in push order, and frames written plus frames reported
      lost are exactly the record() calls. */
  lemma StopLosesNothing(s0: Sys, acts: seq<Action>)
    requires Init(s0)
    requires Exec(s0, acts).stop.Stopped? && Exec(s0, acts).quiet
    ensures var s := Exec(s0, acts);
      && Records(s.out) == s.ring.pushed
      && s.calls == Frames(Records(s.out)) + Lost(s.out)
  {
    ExecInv(s0, acts);
  }

  /** Whenever the producer is between calls, recorded_ is the number of frames that
      entered the ring and dropped_ the number of calls, of either kind, that did not;
      after a quiet stop recorded_ is the number of frames in the log. */
  lemma CountersExact(s0: Sys, acts: seq<Action>)
    requires Init(s0)
    ensures var s := Exec(s0, acts);
      && (s.prod.ProdIdle? ==> s.recorded == Frames(s.ring.pushed) && s.calls + s.marks == |s.ring.pushed| + s.dropped)
      && (s.stop.Stopped? && s.quiet ==> s.recorded == Frames(Records(s.out)) && s.dropped == s.calls + s.marks - |Records(s.out)|)
  {
    ExecCounted(s0, acts);
    var s := Exec(s0, acts);
    if s.stop.Stopped? && s.quiet {
      StopLosesNothing(s0, acts);
      QuietIsIdle(s0, acts);
    }
  }

  // ---- the writer while it runs

  lemma ProdStays(s: Sys, weak: bool)
    requires PRODUCER in s.ring.pc && |s.ring.cells| > 0
    ensures var s' := DoProd(s, weak); s'.cons == s.cons && s'.running == s.running
  {
  }

  lemma ConsStays(s: Sys, weak: bool)
    requires Drainer(s) in s.ring.pc && |s.ring.cells| > 0 && (s.cons.Exited? || s.stop.Draining? ==> !s.running)
    ensures var s' := DoCons(s, weak); s'.running == s.running && (s'.cons.Exited? ==> !s.running)
  {
  }

  lemma StaysStep(s: Sys, a: Action)
    requires Roles(s) && (s.cons.Exited? ==> !s.running)
    ensures var s' := Do(s, a); (s'.cons.Exited? ==> !s'.running) && (s'.running <==> s.running && a != BeginStop)
  {
    if a.ProdStep? { ProdStays(s, a.weak); } else if a.ConsStep? { ConsStays(s, a.weak); }
  }

  lemma {:induction false} ExecStays(s0: Sys, acts: seq<Action>)
    requires Init(s0)
    ensures var s := Exec(s0, acts); (s.cons.Exited? ==> !s.running) && (s.running <==> BeginStop !in acts)
    decreases |acts|
  {
    if acts != [] {
      var before := acts[..|acts| - 1];
      ExecStays(s0, before);
      ExecInv(s0, before);
      StaysStep(Exec(s0, before), acts[|acts| - 1]);
      assert acts == before + [acts[|acts| - 1]];
    }
  }

  /** The writer leaves its loop only once stop() has been called. */
  lemma WriterStays(s0: Sys, acts: seq<Action>)
    requires Init(s0) && Exec(s0, acts).cons.Exited?
    ensures BeginStop in acts
  {
    ExecStays(s0, acts);
  }

  function Steps(s: Sys, n: nat): Sys { if n == 0 then s else Do(Steps(s, n - 1), ConsStep(false)) }

  /** When the drainer has found the ring empty, it writes the losses pending by then as one
      marker, if there are any, and nothing else, before it looks at the ring again. */
  lemma EmptyPollReports(s0: Sys, acts: seq<Action>)
    requires Init(s0)
    requires var s := Exec(s0, acts); s.cons.Pop? && Drainer(s) in s.ring.pc && FoundEmpty(s.ring.pc[Drainer(s)])
    ensures var s := Exec(s0, acts);
      var n := if s.pendingLoss == 0 then 2 else 3;
      && Steps(s, n).out == s.out + (if s.pendingLoss == 0 then [] else [Loss(s.pendingLoss)])
      && Steps(s, n).pendingLoss == 0 && Steps(s, n).cons == if s.stop.Draining? then Exited else Check
  {
    ExecInv(s0, acts);
    var s := Exec(s0, acts);
    var s1 := s.(ring := s.ring.At(Drainer(s), R.Idle), cons := Emit);
    assert Steps(s, 1) == s1;
    assert s.pendingLoss == 0 ==> Steps(s, 2) == AfterEmit(s1);
    assert s.pendingLoss != 0 ==> Steps(s, 2) == s1.(pendingLoss := 0, cons := WriteLoss(s.pendingLoss));
  }

  /** A running writer that checks its flag goes on to the ring. */
  lemma RunningPolls(s0: Sys, acts: seq<Action>)
    requires Init(s0) && Exec(s0, acts).cons.Check?
    ensures Exec(s0, acts + [ConsStep(false)]).cons == if BeginStop in acts then Exited else Pop
  {
    ExecInv(s0, acts);
    ExecStays(s0, acts);
    assert (acts + [ConsStep(false)])[..|acts|] == acts;
  }

  lemma QuietIsIdle(s0: Sys, acts: seq<Action>)
    requires Init(s0) && Exec(s0, acts).quiet
    ensures Exec(s0, acts).prod.ProdIdle?
  {
    ExecInv(s0, acts);
  }
}
