/**
 The three fill tracks compared, order by order, over whole runs: the pessimistic tracks
 never fill more than the optimistic one, and the Strict track fills exactly what prints
 strictly through the order's price amount to.
 */
module Tracks {

  import opened Orders
  import opened Ledger
  import opened Engine
  import opened Lifecycle
  import opened ShadowRuns
  import opened ShadowTheorems

  function Max(a: int, b: int): int { if a < b then b else a }

  // A print with a negative size is not a trade.
  predicate Sane(ev: Event) { ev.Tape? ==> ev.p.size >= 0 }

  predicate SaneTape(evs: seq<Event>) { forall i | 0 <= i < |evs| :: Sane(evs[i]) }

  // ---------------------------------------------------------------- one order

  // Filled quantities stay between 0 and the order's size, and reach it exactly when
  // the order is Filled.
  predicate Bounded(l: Life) {
    var r := l.rec;
    && 0 <= r.filled <= Max(r.count, 0)
    && (r.state == Filled ==> r.filled == r.count)
    && (r.filled == r.count ==> r.state == Filled || r.count == 0)
    && (IsLive(r.state) ==> r.queueAhead >= 0)
    && (r.state == PendingNew ==> r.filled == 0)
  }

  // The same order, whatever has happened to it.
  predicate SameOrder(x: Life, o: Life) {
    && x.rec.cid == o.rec.cid && x.rec.market == o.rec.market && x.rec.price == o.rec.price && x.rec.count == o.rec.count
    && x.rec.buyYes == o.rec.buyYes && x.rec.activeTs == o.rec.activeTs && x.displayed == o.displayed && x.listed == o.listed
  }

  // x is the order on some track, o the same order on the Optimistic track: they go
  // through the same states unless o is done or x was refused.
  predicate Below(x: Life, o: Life) {
    && SameOrder(x, o) && x.rec.filled <= o.rec.filled
    && (|| o.rec.state == Filled
        || (x.rec.state == Expired && x.rec.filled == 0)
        || (x.rec.state == o.rec.state && x.rec.cancelEff == o.rec.cancelEff))
  }

  lemma ActivatedBounded(track: Track, l: Life, now: nat)
    requires Bounded(l)
    ensures Bounded(Activated(track, l, now))
  {
  }

  lemma HitBounded(track: Track, l: Life, p: Print)
    requires Bounded(l) && p.size >= 0
    ensures Bounded(Hit(track, l, p)) && Hit(track, l, p).rec.filled >= l.rec.filled
  {
  }

  lemma ActivatedBelow(track: Track, x: Life, o: Life, now: nat)
    requires Below(x, o) && Bounded(x)
    ensures Below(Activated(track, x, now), Activated(Optimistic, o, now))
  {
  }

  lemma SweptBelow(x: Life, o: Life, now: nat)
    requires Below(x, o)
    ensures Below(Swept(x, now), Swept(o, now))
  {
  }

  lemma HitBelow(track: Track, x: Life, o: Life, p: Print)
    requires Below(x, o) && Bounded(x) && Bounded(o) && p.size >= 0
    ensures Below(Hit(track, x, p), Hit(Optimistic, o, p))
  {
  }

  // ---------------------------------------------------------------- all orders

  ghost predicate AllBounded(s: Lives) {
    forall c | c in s.j :: c <= s.cidSeq && Bounded(s.j[c])
  }

  ghost predicate AllBelow(s: Lives, t: Lives) {
    && s.cidSeq == t.cidSeq && s.markets == t.markets
    && (forall c | c in s.j && c in t.j :: Below(s.j[c], t.j[c]))
  }

  lemma AdvanceAllBounded(track: Track, j: Ideal, now: nat)
    requires forall c | c in j :: Bounded(j[c])
    ensures forall c | c in j :: c in AdvanceAll(track, j, now) && Bounded(AdvanceAll(track, j, now)[c])
  {
    forall c | c in j ensures Bounded(AdvanceAll(track, j, now)[c]) { ActivatedBounded(track, j[c], now); }
  }

  lemma RequestBounded(cfg: Config, s: Lives, ev: Event, accepted: bool)
    requires AllBounded(s) && (ev.PlaceOrder? || ev.CancelOrder?)
    ensures AllBounded(LivesStep(cfg, s, ev, accepted))
  {
  }

  lemma SettleBounded(j: Ideal, m: nat)
    requires forall c | c in j :: Bounded(j[c])
    ensures forall c | c in j :: Bounded(UnlistAll(SettleAll(j, m), m)[c])
  {
  }

  lemma StepBounded(cfg: Config, s: Lives, ev: Event, accepted: bool)
    requires AllBounded(s) && Sane(ev)
    ensures AllBounded(LivesStep(cfg, s, ev, accepted))
  {
    if ev.PlaceOrder? || ev.CancelOrder? {
      RequestBounded(cfg, s, ev, accepted);
    } else if Named(ev, s.markets) {
      if ev.Clock? {
        AdvanceAllBounded(cfg.track, s.j, ev.now);
      } else if ev.Settlement? {
        AdvanceAllBounded(cfg.track, s.j, ev.ts);
        SettleBounded(AdvanceAll(cfg.track, s.j, ev.ts), ev.market);
      } else if ev.Tape? {
        AdvanceAllBounded(cfg.track, s.j, ev.p.ts);
        var a := AdvanceAll(cfg.track, s.j, ev.p.ts);
        forall c | c in a ensures Bounded(Hit(cfg.track, a[c], ev.p)) { HitBounded(cfg.track, a[c], ev.p); }
      }
    }
  }

  lemma AdvanceAllBelow(track: Track, i: Ideal, j: Ideal, now: nat)
    requires forall c | c in i :: Bounded(i[c])
    requires forall c | c in i && c in j :: Below(i[c], j[c])
    ensures forall c | c in i && c in j :: Below(AdvanceAll(track, i, now)[c], AdvanceAll(Optimistic, j, now)[c])
  {
    forall c | c in i && c in j ensures Below(AdvanceAll(track, i, now)[c], AdvanceAll(Optimistic, j, now)[c]) {
      ActivatedBelow(track, i[c], j[c], now);
      SweptBelow(Activated(track, i[c], now), Activated(Optimistic, j[c], now), now);
    }
  }

  lemma TapeBelow(track: Track, s: Lives, t: Lives, p: Print)
    requires AllBounded(s) && AllBounded(t) && AllBelow(s, t) && p.size >= 0
    ensures var i, j := AdvanceAll(track, s.j, p.ts), AdvanceAll(Optimistic, t.j, p.ts);
      forall c | c in s.j && c in t.j :: Below(HitAll(track, i, p)[c], HitAll(Optimistic, j, p)[c])
  {
    var i, j := AdvanceAll(track, s.j, p.ts), AdvanceAll(Optimistic, t.j, p.ts);
    AdvanceAllBelow(track, s.j, t.j, p.ts);
    AdvanceAllBounded(track, s.j, p.ts);
    AdvanceAllBounded(Optimistic, t.j, p.ts);
    forall c | c in s.j && c in t.j ensures Below(HitAll(track, i, p)[c], HitAll(Optimistic, j, p)[c]) {
      HitBelow(track, i[c], j[c], p);
    }
  }

  lemma SettleBelow(i: Ideal, j: Ideal, m: nat)
    requires forall c | c in i && c in j :: Below(i[c], j[c])
    ensures forall c | c in i && c in j :: Below(UnlistAll(SettleAll(i, m), m)[c], UnlistAll(SettleAll(j, m), m)[c])
  {
  }

  lemma RequestBelow(cfg: Config, s: Lives, t: Lives, ev: Event, a: bool, b: bool)
    requires AllBounded(s) && AllBounded(t) && AllBelow(s, t) && (ev.PlaceOrder? || ev.CancelOrder?)
    ensures AllBelow(LivesStep(cfg, s, ev, a), LivesStep(cfg.(track := Optimistic), t, ev, b))
  {
  }

  // Placements may be dropped by either engine or by both.
  lemma StepBelow(cfg: Config, s: Lives, t: Lives, ev: Event, a: bool, b: bool)
    requires AllBounded(s) && AllBounded(t) && AllBelow(s, t) && Sane(ev)
    ensures AllBelow(LivesStep(cfg, s, ev, a), LivesStep(cfg.(track := Optimistic), t, ev, b))
  {
    if ev.PlaceOrder? || ev.CancelOrder? {
      RequestBelow(cfg, s, t, ev, a, b);
    } else if Named(ev, s.markets) {
      if ev.Clock? {
        AdvanceAllBelow(cfg.track, s.j, t.j, ev.now);
      } else if ev.Settlement? {
        AdvanceAllBelow(cfg.track, s.j, t.j, ev.ts);
        SettleBelow(AdvanceAll(cfg.track, s.j, ev.ts), AdvanceAll(Optimistic, t.j, ev.ts), ev.market);
      } else if ev.Tape? {
        TapeBelow(cfg.track, s, t, ev.p);
      }
    }
  }

  lemma {:induction false} RunsBounded(cfg: Config, evs: seq<Event>, ok: seq<bool>)
    requires |ok| == |evs| && SaneTape(evs)
    ensures AllBounded(LivesOn(cfg, evs, ok))
    decreases |evs|
  {
    if evs != [] {
      var k := |evs| - 1;
      RunsBounded(cfg, evs[..k], ok[..k]);
      StepBounded(cfg, LivesOn(cfg, evs[..k], ok[..k]), evs[k], ok[k]);
    }
  }

  lemma {:induction false} RunsBelow(cfg: Config, evs: seq<Event>, ok: seq<bool>, ok': seq<bool>)
    requires |ok| == |ok'| == |evs| && SaneTape(evs)
    ensures AllBelow(LivesOn(cfg, evs, ok), LivesOn(cfg.(track := Optimistic), evs, ok'))
    decreases |evs|
  {
    if evs != [] {
      var k, opt := |evs| - 1, cfg.(track := Optimistic);
      RunsBelow(cfg, evs[..k], ok[..k], ok'[..k]);
      RunsBounded(cfg, evs[..k], ok[..k]);
      RunsBounded(opt, evs[..k], ok'[..k]);
      StepBelow(cfg, LivesOn(cfg, evs[..k], ok[..k]), LivesOn(opt, evs[..k], ok'[..k]), evs[k], ok[k], ok'[k]);
    }
  }

  lemma FilledIs(cfg: Config, n: nat, evs: seq<Event>, c: nat)
    ensures var e, j := Run(cfg, n, evs), LivesOf(cfg, n, evs).j;
      FilledQty(e.log, c) == if c in j then j[c].rec.filled else 0
  {
    RunAgrees(cfg, n, evs);
    var e := Run(cfg, n, evs);
    assert e.log + e.scratch == e.log;
  }

  /** On the same events and latencies, at every point, an order the Optimistic engine
      accepted has at most its Optimistic fills under Strict and under Queue. The tables
      may differ in size and either engine may have dropped other placements. */
  lemma PessimisticTracks(cfg: Config, n: nat, n': nat, evs: seq<Event>, c: nat)
    requires SaneTape(evs) && c in LivesOf(cfg.(track := Optimistic), n', evs).j
    ensures 0 <= FilledQty(Run(cfg, n, evs).log, c) <= FilledQty(Run(cfg.(track := Optimistic), n', evs).log, c)
    ensures FilledQty(Run(cfg, n, evs).log, c) <= Max(LivesOf(cfg.(track := Optimistic), n', evs).j[c].rec.count, 0)
  {
    var opt := cfg.(track := Optimistic);
    RunsBelow(cfg, evs, Room(cfg, n, evs), Room(opt, n', evs));
    RunsBounded(cfg, evs, Room(cfg, n, evs));
    RunsBounded(opt, evs, Room(opt, n', evs));
    FilledIs(cfg, n, evs, c);
    FilledIs(opt, n', evs, c);
  }

  // ---------------------------------------------------------------- every track, exactly

  // The run with every print reduced to its clock tick: what the order's life would be
  // if it were never filled.
  function Hush(ev: Event, markets: nat): Event {
    if ev.Tape? && Named(ev, markets) then Clock(ev.p.ts) else ev
  }

  function QuietOn(cfg: Config, evs: seq<Event>, ok: seq<bool>): Lives
    requires |ok| == |evs|
    decreases |evs|
  {
    if evs == [] then Lives(map[], 0, 0)
    else
      var k := |evs| - 1;
      var q := QuietOn(cfg, evs[..k], ok[..k]);
      LivesStep(cfg, q, Hush(evs[k], q.markets), ok[k])
  }

  predicate InWindow(r: OrderRec, ts: nat) {
    r.activeTs <= ts && (r.cancelEff == 0 || ts < r.cancelEff)
  }

  // A taker print of the order's market that could hit it: at its price, or at a
  // strictly worse one.
  predicate AtItsPrice(r: OrderRec, p: Print) { r.market == p.market && p.takerYes == !r.buyYes && p.price == r.price }

  predicate StrictlyThrough(r: OrderRec, p: Print) {
    && r.market == p.market && p.takerYes == !r.buyYes
    && (if r.buyYes then p.price < r.price else p.price > r.price)
  }

  // Volume printed at the order's price, and volume printed strictly through it. On the
  // Queue track the second counts only once the first has used up the displayed depth.
  datatype Volume = Volume(level: int, through: int)

  const NO_VOLUME := Volume(0, 0)

  function Added(track: Track, q: Life, p: Print, v: Volume): Volume {
    if AtItsPrice(q.rec, p) then v.(level := v.level + p.size)
    else if StrictlyThrough(q.rec, p) && (track == Queue ==> v.level >= q.displayed) then v.(through := v.through + p.size)
    else v
  }

  // How much of that volume is for the order: Strict ignores prints at its price, Queue
  // those that only drain the depth displayed ahead of it; unknown depth gets nothing.
  function Supply(track: Track, displayed: int, v: Volume): int {
    match track
    case Strict => v.through
    case Optimistic => v.level + v.through
    case Queue => if displayed < 0 then 0 else Max(0, v.level - displayed) + v.through
  }

  // The volume printed while the order was working; q is its unfilled life at the print.
  function VolumeAt(track: Track, q: Life, ev: Event, v: Volume): Volume {
    if ev.Tape? && IsLive(q.rec.state) && InWindow(q.rec, ev.p.ts) then Added(track, q, ev.p, v) else v
  }

  function Printed(cfg: Config, evs: seq<Event>, ok: seq<bool>, c: nat): Volume
    requires |ok| == |evs|
    decreases |evs|
  {
    if evs == [] then NO_VOLUME
    else
      var k := |evs| - 1;
      var q, v := QuietOn(cfg, evs, ok), Printed(cfg, evs[..k], ok[..k], c);
      if c in q.j && Named(evs[k], q.markets) then VolumeAt(cfg.track, q.j[c], evs[k], v) else v
  }

  // x is the order, q its unfilled life, v the volume so far.
  predicate Exactly(track: Track, x: Life, q: Life, v: Volume) {
    var supply := Supply(track, q.displayed, v);
    && SameOrder(x, q) && v.level >= 0 && v.through >= 0 && q.rec.state != Filled
    && x.rec.filled == Min(Max(x.rec.count, 0), supply)
    && (if x.rec.count > 0 && supply >= x.rec.count then x.rec.state == Filled
        else x.rec.state == q.rec.state && x.rec.cancelEff == q.rec.cancelEff)
    && (q.rec.state == PendingNew || !Eligible(track, q.displayed) ==> v == NO_VOLUME)
    && (IsLive(x.rec.state) && track == Queue ==> x.rec.queueAhead == Max(0, q.displayed - v.level))
    && (IsLive(q.rec.state) ==> Eligible(track, q.displayed))
  }

  lemma AdvanceExactly(track: Track, x: Life, q: Life, v: Volume, now: nat)
    requires Exactly(track, x, q, v)
    ensures Exactly(track, Swept(Activated(track, x, now), now), Swept(Activated(track, q, now), now), v)
  {
  }

  lemma HitExactly(track: Track, x: Life, q: Life, v: Volume, p: Print)
    requires Exactly(track, x, q, v) && p.size >= 0
    ensures Exactly(track, Hit(track, x, p), q, VolumeAt(track, q, Tape(p), v))
  {
  }

  ghost predicate AllExactly(track: Track, s: Lives, q: Lives, v: nat -> Volume) {
    && s.cidSeq == q.cidSeq && s.markets == q.markets && s.j.Keys == q.j.Keys
    && (forall c | c in s.j :: c <= s.cidSeq && Exactly(track, s.j[c], q.j[c], v(c)))
    && (forall c | c > s.cidSeq :: v(c) == NO_VOLUME)
  }

  ghost predicate EachExactly(track: Track, i: Ideal, q: Ideal, v: nat -> Volume) {
    i.Keys == q.Keys && forall c | c in i :: Exactly(track, i[c], q[c], v(c))
  }

  lemma AdvanceAllExactly(track: Track, i: Ideal, q: Ideal, v: nat -> Volume, now: nat)
    requires EachExactly(track, i, q, v)
    ensures EachExactly(track, AdvanceAll(track, i, now), AdvanceAll(track, q, now), v)
  {
    forall c | c in i ensures Exactly(track, AdvanceAll(track, i, now)[c], AdvanceAll(track, q, now)[c], v(c)) {
      AdvanceExactly(track, i[c], q[c], v(c), now);
      AdvancedAt(track, i, now, c);
      AdvancedAt(track, q, now, c);
    }
  }

  lemma AdvancedAt(track: Track, i: Ideal, now: nat, c: nat)
    requires c in i
    ensures AdvanceAll(track, i, now)[c] == Swept(Activated(track, i[c], now), now)
  {
  }

  lemma HitAllExactly(track: Track, i: Ideal, q: Ideal, v: nat -> Volume, p: Print, v': nat -> Volume)
    requires EachExactly(track, i, q, v) && p.size >= 0 && forall c | c in q :: v'(c) == VolumeAt(track, q[c], Tape(p), v(c))
    ensures EachExactly(track, HitAll(track, i, p), q, v')
  {
    forall c | c in i ensures Exactly(track, Hit(track, i[c], p), q[c], v'(c)) {
      HitExactly(track, i[c], q[c], v(c), p);
    }
  }

  lemma TapeIs(cfg: Config, s: Lives, ev: Event)
    requires ev.Tape? && Named(ev, s.markets)
    ensures LivesStep(cfg, s, ev, true) == s.(j := HitAll(cfg.track, AdvanceAll(cfg.track, s.j, ev.p.ts), ev.p))
    ensures LivesStep(cfg, s, Clock(ev.p.ts), true) == s.(j := AdvanceAll(cfg.track, s.j, ev.p.ts))
  {
  }

  lemma TapeExactly(cfg: Config, s: Lives, q: Lives, v: nat -> Volume, ev: Event, v': nat -> Volume)
    requires AllExactly(cfg.track, s, q, v) && ev.Tape? && Sane(ev) && Named(ev, s.markets)
    requires var q' := AdvanceAll(cfg.track, q.j, ev.p.ts);
      forall c :: v'(c) == if c in q' then VolumeAt(cfg.track, q'[c], ev, v(c)) else v(c)
    ensures AllExactly(cfg.track, LivesStep(cfg, s, ev, true), LivesStep(cfg, q, Clock(ev.p.ts), true), v')
  {
    TapeMoves(cfg.track, s, q, v, ev.p, AdvanceAll(cfg.track, s.j, ev.p.ts), AdvanceAll(cfg.track, q.j, ev.p.ts), v');
    TapeIs(cfg, s, ev);
    TapeIs(cfg, q, ev);
  }

  lemma TapeMoves(track: Track, s: Lives, q: Lives, v: nat -> Volume, p: Print, i: Ideal, q': Ideal, v': nat -> Volume)
    requires AllExactly(track, s, q, v) && p.size >= 0 && i == AdvanceAll(track, s.j, p.ts) && q' == AdvanceAll(track, q.j, p.ts)
    requires forall c :: v'(c) == if c in q' then VolumeAt(track, q'[c], Tape(p), v(c)) else v(c)
    ensures AllExactly(track, s.(j := HitAll(track, i, p)), q.(j := q'), v')
  {
    AdvanceAllExactly(track, s.j, q.j, v, p.ts);
    HitAllExactly(track, i, q', v, p, v');
    TapeAll(track, s, q, HitAll(track, i, p), q', v, v');
  }

  lemma TapeAll(track: Track, s: Lives, q: Lives, i: Ideal, q': Ideal, v: nat -> Volume, v': nat -> Volume)
    requires AllExactly(track, s, q, v) && EachExactly(track, i, q', v') && i.Keys == s.j.Keys && forall c | c !in q' :: v'(c) == v(c)
    ensures AllExactly(track, s.(j := i), q.(j := q'), v')
  {
  }

  lemma SettledExactly(track: Track, x: Life, q: Life, v: Volume, m: nat)
    requires Exactly(track, x, q, v)
    ensures Exactly(track, Unlisted(Settled(x, m), m), Unlisted(Settled(q, m), m), v)
  {
  }

  lemma SettleExactly(track: Track, i: Ideal, q: Ideal, v: nat -> Volume, m: nat)
    requires EachExactly(track, i, q, v)
    ensures EachExactly(track, UnlistAll(SettleAll(i, m), m), UnlistAll(SettleAll(q, m), m), v)
  {
    forall c | c in i ensures Exactly(track, UnlistAll(SettleAll(i, m), m)[c], UnlistAll(SettleAll(q, m), m)[c], v(c)) {
      SettledExactly(track, i[c], q[c], v(c), m);
    }
  }

  lemma CancelExactly(cfg: Config, x: Life, q: Life, v: Volume, ts: nat)
    requires Exactly(cfg.track, x, q, v)
    ensures Exactly(cfg.track, CancelAsked(cfg, x, ts), CancelAsked(cfg, q, ts), v)
  {
  }

  lemma NewExactly(track: Track, l: Life)
    requires l.rec.state == PendingNew && l.rec.filled == 0
    ensures Exactly(track, l, l, NO_VOLUME)
  {
  }

  lemma RequestExactly(cfg: Config, s: Lives, q: Lives, v: nat -> Volume, ev: Event, accepted: bool)
    requires AllExactly(cfg.track, s, q, v) && (ev.PlaceOrder? || ev.CancelOrder?)
    ensures AllExactly(cfg.track, LivesStep(cfg, s, ev, accepted), LivesStep(cfg, q, ev, accepted), v)
  {
    if ev.PlaceOrder? {
      NewExactly(cfg.track, NewLife(cfg, s.cidSeq + 1, ev.market, ev.price, ev.count, ev.buyYes, ev.ts, ev.displayed));
    } else if ev.cid in s.j {
      CancelExactly(cfg, s.j[ev.cid], q.j[ev.cid], v(ev.cid), ev.ts);
    }
  }

  lemma StepExactly(cfg: Config, s: Lives, q: Lives, v: nat -> Volume, ev: Event, accepted: bool)
    requires AllExactly(cfg.track, s, q, v) && !ev.Tape?
    ensures AllExactly(cfg.track, LivesStep(cfg, s, ev, accepted), LivesStep(cfg, q, ev, accepted), v)
  {
    if ev.PlaceOrder? || ev.CancelOrder? {
      RequestExactly(cfg, s, q, v, ev, accepted);
    } else if ev.Clock? {
      AdvanceAllExactly(cfg.track, s.j, q.j, v, ev.now);
    } else if ev.Settlement? {
      AdvanceAllExactly(cfg.track, s.j, q.j, v, ev.ts);
      SettleExactly(cfg.track, AdvanceAll(cfg.track, s.j, ev.ts), AdvanceAll(cfg.track, q.j, ev.ts), v, ev.market);
    }
  }

  function Volumes(cfg: Config, evs: seq<Event>, ok: seq<bool>): nat -> Volume
    requires |ok| == |evs|
  {
    (c: nat) => Printed(cfg, evs, ok, c)
  }

  // Any event, with the volumes moved on.
  lemma EventExactly(cfg: Config, s: Lives, q: Lives, v: nat -> Volume, ev: Event, accepted: bool, v': nat -> Volume)
    requires AllExactly(cfg.track, s, q, v) && Sane(ev)
    requires var q' := LivesStep(cfg, q, Hush(ev, q.markets), accepted);
      forall c :: v'(c) == if c in q'.j && Named(ev, q'.markets) then VolumeAt(cfg.track, q'.j[c], ev, v(c)) else v(c)
    ensures AllExactly(cfg.track, LivesStep(cfg, s, ev, accepted), LivesStep(cfg, q, Hush(ev, q.markets), accepted), v')
  {
    if !ev.Tape? {
      assert forall c :: v'(c) == v(c);
      StepExactly(cfg, s, q, v, ev, accepted);
    } else if Named(ev, s.markets) {
      TapeExactly(cfg, s, q, v, ev, v');
    }
  }

  lemma {:induction false} RunExactly(cfg: Config, evs: seq<Event>, ok: seq<bool>)
    requires |ok| == |evs| && SaneTape(evs)
    ensures AllExactly(cfg.track, LivesOn(cfg, evs, ok), QuietOn(cfg, evs, ok), Volumes(cfg, evs, ok))
    decreases |evs|
  {
    if evs != [] {
      var k := |evs| - 1;
      RunExactly(cfg, evs[..k], ok[..k]);
      EventExactly(cfg, LivesOn(cfg, evs[..k], ok[..k]), QuietOn(cfg, evs[..k], ok[..k]), Volumes(cfg, evs[..k], ok[..k]),
                   evs[k], ok[k], Volumes(cfg, evs, ok));
    }
  }

  lemma ExactlyAt(cfg: Config, evs: seq<Event>, ok: seq<bool>, c: nat)
    requires |ok| == |evs| && SaneTape(evs) && c in LivesOn(cfg, evs, ok).j
    ensures c in QuietOn(cfg, evs, ok).j
    ensures Exactly(cfg.track, LivesOn(cfg, evs, ok).j[c], QuietOn(cfg, evs, ok).j[c], Printed(cfg, evs, ok, c))
  {
    RunExactly(cfg, evs, ok);
    assert Exactly(cfg.track, LivesOn(cfg, evs, ok).j[c], QuietOn(cfg, evs, ok).j[c], Volumes(cfg, evs, ok)(c));
  }

  /** On every track an engine has filled, of every order it accepted, exactly the smaller
      of the order's size and the volume the track leaves for it: strictly-through volume
      on Strict; on Queue the volume at its price beyond the displayed depth plus the
      strictly-through volume printed after that depth was used up; all of it on
      Optimistic. Only volume printed while the order was working counts. */
  lemma FillsExact(cfg: Config, n: nat, evs: seq<Event>, c: nat)
    requires SaneTape(evs) && c in LivesOf(cfg, n, evs).j
    ensures var l := LivesOf(cfg, n, evs).j[c];
      FilledQty(Run(cfg, n, evs).log, c)
        == Min(Max(l.rec.count, 0), Supply(cfg.track, l.displayed, Printed(cfg, evs, Room(cfg, n, evs), c)))
  {
    ExactlyAt(cfg, evs, Room(cfg, n, evs), c);
    FilledIs(cfg, n, evs, c);
  }

  // ---------------------------------------------------------------- working means inside the window

  // The clock after a run: the time of its last timed event.
  function Now(evs: seq<Event>): nat {
    if evs == [] then 0 else
    match evs[|evs| - 1]
    case NewMarket => Now(evs[..|evs| - 1])
    case PlaceOrder(_, _, _, _, ts, _) => ts
    case CancelOrder(_, ts) => ts
    case Tape(p) => p.ts
    case Settlement(_, _, ts) => ts
    case Clock(now) => now
  }

  // Times are positive and never go back.
  predicate Clocked(evs: seq<Event>) {
    evs == [] || (Clocked(evs[..|evs| - 1]) && Now(evs[..|evs| - 1]) <= Now(evs) && (evs[|evs| - 1].NewMarket? || Now(evs) > 0))
  }

  // What a never-filled life of a never-settled market looks like at time now, between
  // events: it is over only if its cancel has landed.
  predicate OnTime(q: Life, now: nat) {
    match q.rec.state
    case PendingNew => true
    case Open => q.rec.activeTs <= now && q.rec.cancelEff == 0
    case PendingCancel => q.rec.activeTs <= now && q.rec.cancelEff > 0
    case Canceled => 0 < q.rec.cancelEff <= now
    case _ => false
  }

  // Market m's orders of the kind the track takes.
  predicate Concerns(track: Track, q: Life, m: nat) { q.rec.market == m && Eligible(track, q.displayed) }

  ghost predicate AllOnTime(track: Track, j: Ideal, m: nat, now: nat) {
    forall c | c in j && Concerns(track, j[c], m) :: OnTime(j[c], now)
  }

  lemma AdvanceOnTime(track: Track, q: Life, then': nat, now: nat)
    requires OnTime(q, then') && then' <= now && Eligible(track, q.displayed)
    ensures var a := Swept(Activated(track, q, now), now); OnTime(a, now) && (IsLive(a.rec.state) <==> InWindow(a.rec, now))
  {
  }

  lemma RequestOnTime(cfg: Config, q: Lives, ev: Event, accepted: bool, m: nat, before: nat, now: nat)
    requires AllOnTime(cfg.track, q.j, m, before) && before <= now && (ev.PlaceOrder? || (ev.CancelOrder? && 0 < ev.ts <= now))
    ensures AllOnTime(cfg.track, LivesStep(cfg, q, ev, accepted).j, m, now)
  {
  }

  lemma AdvanceAllOnTime(track: Track, j: Ideal, m: nat, before: nat, now: nat)
    requires AllOnTime(track, j, m, before) && before <= now
    ensures AllOnTime(track, AdvanceAll(track, j, now), m, now)
  {
    forall c | c in j && Concerns(track, j[c], m) ensures OnTime(AdvanceAll(track, j, now)[c], now) {
      AdvanceOnTime(track, j[c], before, now);
    }
  }

  // Another market's settlement.
  lemma SettleOnTime(track: Track, j: Ideal, settled: nat, m: nat, now: nat)
    requires settled != m && AllOnTime(track, j, m, now)
    ensures AllOnTime(track, UnlistAll(SettleAll(j, settled), settled), m, now)
  {
    var j' := UnlistAll(SettleAll(j, settled), settled);
    forall c | c in j' && Concerns(track, j'[c], m) ensures OnTime(j'[c], now) { assert j'[c].rec == j[c].rec; }
  }

  lemma StepOnTime(cfg: Config, q: Lives, ev: Event, accepted: bool, m: nat, before: nat, now: nat)
    requires AllOnTime(cfg.track, q.j, m, before) && before <= now && !ev.Tape?
    requires !(ev.Settlement? && ev.market == m)
    requires (ev.CancelOrder? ==> 0 < ev.ts <= now) && (ev.Clock? ==> ev.now == now) && (ev.Settlement? ==> ev.ts == now)
    ensures AllOnTime(cfg.track, LivesStep(cfg, q, ev, accepted).j, m, now)
  {
    if ev.PlaceOrder? || ev.CancelOrder? {
      RequestOnTime(cfg, q, ev, accepted, m, before, now);
    } else if ev.Clock? || ev.Settlement? {
      AdvanceAllOnTime(cfg.track, q.j, m, before, now);
      if ev.Settlement? { SettleOnTime(cfg.track, AdvanceAll(cfg.track, q.j, now), ev.market, m, now); }
    }
  }

  lemma {:induction false} RunOnTime(cfg: Config, evs: seq<Event>, ok: seq<bool>, m: nat)
    requires |ok| == |evs| && Clocked(evs) && NeverSettled(evs, m)
    ensures AllOnTime(cfg.track, QuietOn(cfg, evs, ok).j, m, Now(evs))
    decreases |evs|
  {
    if evs != [] {
      var k := |evs| - 1;
      RunOnTime(cfg, evs[..k], ok[..k], m);
      var q := QuietOn(cfg, evs[..k], ok[..k]);
      var ev := Hush(evs[k], q.markets);
      if !ev.Tape? { StepOnTime(cfg, q, ev, ok[k], m, Now(evs[..k]), Now(evs)); }
    }
  }

  /** Under a clock that never goes back, an order of a market that has not settled is
      working at a print exactly when the print falls in [active, cancel-effective),
      unless the track refuses it. */
  lemma WorkingIsWindow(cfg: Config, evs: seq<Event>, ok: seq<bool>, p: Print, a: bool, c: nat)
    requires |ok| == |evs| && Clocked(evs + [Tape(p)]) && p.market < QuietOn(cfg, evs, ok).markets
    requires c in QuietOn(cfg, evs, ok).j && NeverSettled(evs, QuietOn(cfg, evs, ok).j[c].rec.market)
    requires Eligible(cfg.track, QuietOn(cfg, evs, ok).j[c].displayed)
    ensures var q := QuietOn(cfg, evs + [Tape(p)], ok + [a]).j; c in q && (IsLive(q[c].rec.state) <==> InWindow(q[c].rec, p.ts))
  {
    QuietTape(cfg, evs, ok, p, a);
    var q := QuietOn(cfg, evs, ok);
    RunOnTime(cfg, evs, ok, q.j[c].rec.market);
    assert OnTime(q.j[c], Now(evs));
    AdvanceOnTime(cfg.track, q.j[c], Now(evs), p.ts);
  }

  lemma QuietTape(cfg: Config, evs: seq<Event>, ok: seq<bool>, p: Print, a: bool)
    requires |ok| == |evs| && p.market < QuietOn(cfg, evs, ok).markets
    ensures QuietOn(cfg, evs + [Tape(p)], ok + [a]).j == AdvanceAll(cfg.track, QuietOn(cfg, evs, ok).j, p.ts)
    ensures Clocked(evs + [Tape(p)]) ==> Clocked(evs) && Now(evs) <= p.ts
  {
    assert (evs + [Tape(p)])[..|evs|] == evs && (ok + [a])[..|evs|] == ok;
  }

  // ---- the same volume without looking at states

  function VolumeIn(track: Track, q: Life, ev: Event, v: Volume): Volume {
    if ev.Tape? && InWindow(q.rec, ev.p.ts) then Added(track, q, ev.p, v) else v
  }

  // The volume printed inside the order's window.
  function PrintedInWindow(cfg: Config, evs: seq<Event>, ok: seq<bool>, c: nat): Volume
    requires |ok| == |evs|
    decreases |evs|
  {
    if evs == [] then NO_VOLUME
    else
      var k := |evs| - 1;
      var q, v := QuietOn(cfg, evs, ok), PrintedInWindow(cfg, evs[..k], ok[..k], c);
      if c in q.j && Named(evs[k], q.markets) then VolumeIn(cfg.track, q.j[c], evs[k], v) else v
  }

  ghost predicate Numbered(s: Lives) { forall c | c in s.j :: c <= s.cidSeq && s.j[c].rec.market < s.markets }

  lemma NumberedStep(cfg: Config, s: Lives, ev: Event, a: bool)
    requires Numbered(s)
    ensures Numbered(LivesStep(cfg, s, ev, a))
  {
    var s' := LivesStep(cfg, s, ev, a);
    forall c | c in s'.j ensures c <= s'.cidSeq && s'.j[c].rec.market < s'.markets {
      if c in s.j { Relist(cfg, s, ev, a, c); } else { NewOrders(cfg, s, ev, a, c); }
    }
  }

  lemma {:induction false} QuietNumbered(cfg: Config, evs: seq<Event>, ok: seq<bool>)
    requires |ok| == |evs|
    ensures Numbered(QuietOn(cfg, evs, ok))
    decreases |evs|
  {
    if evs != [] {
      var k := |evs| - 1;
      QuietNumbered(cfg, evs[..k], ok[..k]);
      var q := QuietOn(cfg, evs[..k], ok[..k]);
      NumberedStep(cfg, q, Hush(evs[k], q.markets), ok[k]);
    }
  }

  // One event: an order already there keeps what it is, a new one has no volume yet.
  lemma QuietStep(cfg: Config, evs: seq<Event>, ok: seq<bool>, c: nat)
    requires evs != [] && |ok| == |evs| && c in QuietOn(cfg, evs, ok).j
    ensures var k := |evs| - 1;
      var q, q' := QuietOn(cfg, evs[..k], ok[..k]).j, QuietOn(cfg, evs, ok).j;
      if c in q then q'[c].rec.market == q[c].rec.market && q'[c].displayed == q[c].displayed else !evs[k].Tape?
  {
    var k := |evs| - 1;
    var q := QuietOn(cfg, evs[..k], ok[..k]);
    QuietNumbered(cfg, evs[..k], ok[..k]);
    if c in q.j { Relist(cfg, q, Hush(evs[k], q.markets), ok[k], c); } else { NewOrders(cfg, q, Hush(evs[k], q.markets), ok[k], c); }
  }

  lemma {:induction false} NoVolumeBefore(cfg: Config, evs: seq<Event>, ok: seq<bool>, c: nat)
    requires |ok| == |evs| && c !in QuietOn(cfg, evs, ok).j
    ensures Printed(cfg, evs, ok, c) == PrintedInWindow(cfg, evs, ok, c) == NO_VOLUME
    decreases |evs|
  {
    if evs != [] {
      var k := |evs| - 1;
      var q := QuietOn(cfg, evs[..k], ok[..k]);
      QuietNumbered(cfg, evs[..k], ok[..k]);
      if c in q.j { Relist(cfg, q, Hush(evs[k], q.markets), ok[k], c); }
      NoVolumeBefore(cfg, evs[..k], ok[..k], c);
    }
  }

  lemma {:induction false} SameVolume(cfg: Config, evs: seq<Event>, ok: seq<bool>, c: nat)
    requires |ok| == |evs| && Clocked(evs) && c in QuietOn(cfg, evs, ok).j
    requires var l := QuietOn(cfg, evs, ok).j[c]; NeverSettled(evs, l.rec.market) && Eligible(cfg.track, l.displayed)
    ensures Printed(cfg, evs, ok, c) == PrintedInWindow(cfg, evs, ok, c)
    decreases |evs|
  {
    if evs != [] {
      var k := |evs| - 1;
      var q := QuietOn(cfg, evs[..k], ok[..k]);
      QuietStep(cfg, evs, ok, c);
      if c !in q.j {
        NoVolumeBefore(cfg, evs[..k], ok[..k], c);
      } else {
        SameVolume(cfg, evs[..k], ok[..k], c);
        if evs[k].Tape? && Named(evs[k], q.markets) {
          assert evs == evs[..k] + [evs[k]] && ok == ok[..k] + [ok[k]];
          WorkingIsWindow(cfg, evs[..k], ok[..k], evs[k].p, ok[k], c);
        }
      }
    }
  }

  /** Under a clock that never goes back, in a market that has not settled, the volume
      that counts is simply what was printed inside [active, cancel-effective). */
  lemma FillsExactInWindow(cfg: Config, n: nat, evs: seq<Event>, c: nat)
    requires SaneTape(evs) && Clocked(evs) && c in LivesOf(cfg, n, evs).j
    requires var l := LivesOf(cfg, n, evs).j[c]; NeverSettled(evs, l.rec.market) && Eligible(cfg.track, l.displayed)
    ensures var l := LivesOf(cfg, n, evs).j[c];
      FilledQty(Run(cfg, n, evs).log, c)
        == Min(Max(l.rec.count, 0), Supply(cfg.track, l.displayed, PrintedInWindow(cfg, evs, Room(cfg, n, evs), c)))
  {
    FillsExact(cfg, n, evs, c);
    ExactlyAt(cfg, evs, Room(cfg, n, evs), c);
    SameVolume(cfg, evs, Room(cfg, n, evs), c);
  }

  /** So Strict fills the smaller of the order's size and the volume printed strictly
      through its price inside its window. */
  lemma StrictFillsExact(cfg: Config, n: nat, evs: seq<Event>, c: nat)
    requires SaneTape(evs) && Clocked(evs) && cfg.track == Strict && c in LivesOf(cfg, n, evs).j
    requires NeverSettled(evs, LivesOf(cfg, n, evs).j[c].rec.market)
    ensures FilledQty(Run(cfg, n, evs).log, c)
         == Min(Max(LivesOf(cfg, n, evs).j[c].rec.count, 0), PrintedInWindow(cfg, evs, Room(cfg, n, evs), c).through)
  {
    FillsExactInWindow(cfg, n, evs, c);
  }
}
