/**
 Runs that mark where the shadow engine's guarantees end, each for a table of any size: a
 second settlement misses an order, refused orders use up the table, one print fills many
 orders, a full table reverses the order of the tracks, and Queue and Strict are not
 ordered at all.
 */
module ShadowLimits {

  import opened Orders
  import opened Lists
  import opened Ledger
  import opened Engine
  import opened Lifecycle
  import opened Refinement
  import opened ShadowRuns
  import opened ShadowTheorems
  import opened Tracks
  import opened Exposure
  import opened Recovery

  // ---------------------------------------------------------------- counting slots

  function Range(lo: nat, hi: nat): (r: set<nat>)
    ensures forall c :: c in r <==> lo <= c < hi
  {
    if hi <= lo then {} else Range(lo, hi - 1) + {hi - 1}
  }

  lemma {:induction false} RangeSize(lo: nat, hi: nat)
    requires lo <= hi
    ensures |Range(lo, hi)| == hi - lo
    decreases hi
  {
    if lo < hi { RangeSize(lo, hi - 1); }
  }

  function Elements(s: seq<nat>): set<nat> { set x | x in s }

  lemma {:induction false} DistinctSize(s: seq<nat>)
    requires Distinct(s)
    ensures |Elements(s)| == |s|
    decreases |s|
  {
    if s != [] {
      var k := |s| - 1;
      DistinctSize(s[..k]);
      assert Elements(s) == Elements(s[..k]) + {s[k]};
    }
  }

  // A one-to-one map has as many values as keys.
  lemma {:induction false} OneToOne(f: map<nat, nat>, t: set<nat>)
    requires (forall a, b | a in f && b in f && a != b :: f[a] != f[b]) && (forall x :: x in t <==> exists a :: a in f && f[a] == x)
    ensures |f| == |t|
    decreases |f|
  {
    if f.Keys == {} {
      assert t == {};
    } else {
      var a :| a in f;
      var g := f - {a};
      forall x ensures x in t - {f[a]} <==> exists b :: b in g && g[b] == x {
        if x in t - {f[a]} {
          var b :| b in f && f[b] == x;
          assert b in g && g[b] == x;
        }
      }
      OneToOne(g, t - {f[a]});
      assert f.Keys == g.Keys + {a};
      assert a in f && f[a] in t;
    }
  }

  function UsedSlots(slots: seq<OrderRec>): set<nat> { set i | 0 <= i < |slots| && slots[i].state != Free }

  // Every slot is on the free list or in the order index.
  lemma SlotsSplit(reg: Registry, cidSeq: nat)
    requires Holds(reg.free, reg.slots, FreeSlots) && CidIndex(reg, cidSeq)
    ensures |reg.free| + |reg.byCid| == |reg.slots|
  {
    var used, n := UsedSlots(reg.slots), |reg.slots|;
    forall x ensures x in used <==> exists c :: c in reg.byCid && reg.byCid[c] == x {
      if x in used { assert reg.slots[x].cid in reg.byCid && reg.byCid[reg.slots[x].cid] == x; }
    }
    OneToOne(reg.byCid, used);
    DistinctSize(reg.free);
    RangeSize(0, n);
    FreeOrUsed(reg);
  }

  lemma FreeOrUsed(reg: Registry)
    requires Holds(reg.free, reg.slots, FreeSlots)
    ensures |Elements(reg.free)| + |UsedSlots(reg.slots)| == |Range(0, |reg.slots|)|
  {
    assert Range(0, |reg.slots|) == Elements(reg.free) + UsedSlots(reg.slots);
    assert Elements(reg.free) !! UsedSlots(reg.slots);
  }

  // Orders that are not over.
  function Busy(j: Ideal): set<nat> { set c | c in j && !IsTerminal(j[c].rec.state) }

  // While no order has expired, a table of n slots has room exactly when fewer than n
  // orders are not over.
  predicate RoomIs(n: nat, j: Ideal, room: bool) {
    (forall c | c in j :: j[c].rec.state != Expired) ==> (room <==> |Busy(j)| < n)
  }

  lemma RoomCount(cfg: Config, n: nat, evs: seq<Event>)
    ensures RoomIs(n, LivesOf(cfg, n, evs).j, |Run(cfg, n, evs).reg.free| > 0)
  {
    RunAgrees(cfg, n, evs);
    TablesExact(cfg, n, evs);
    RoomOf(Run(cfg, n, evs), LivesOf(cfg, n, evs).j);
  }

  lemma RoomOf(e: Engine, j: Ideal)
    requires Holds(e.reg.free, e.reg.slots, FreeSlots) && CidIndex(e.reg, e.cidSeq) && RecsMatch(e.reg, j)
    requires forall i | 0 <= i < |e.reg.slots| :: e.reg.slots[i].state != Filled && e.reg.slots[i].state != Canceled
    ensures RoomIs(|e.reg.slots|, j, |e.reg.free| > 0)
  {
    SlotsSplit(e.reg, e.cidSeq);
    if forall c | c in j :: j[c].rec.state != Expired {
      assert Busy(j) == e.reg.byCid.Keys;
    }
  }

  // One more event.
  lemma Grow(cfg: Config, n: nat, evs: seq<Event>, ev: Event, s: Lives) returns (room: bool, s': Lives)
    requires s == LivesOf(cfg, n, evs)
    ensures RoomIs(n, s.j, room) && s' == LivesStep(cfg, s, ev, room) && s' == LivesOf(cfg, n, evs + [ev])
  {
    room := |Run(cfg, n, evs).reg.free| > 0;
    s' := LivesStep(cfg, s, ev, room);
    RoomCount(cfg, n, evs);
    RoomSnoc(cfg, n, evs, ev);
    LivesSnoc(cfg, evs, Room(cfg, n, evs), ev, room);
  }

  // ---------------------------------------------------------------- one event on the lives

  lemma PlaceOne(cfg: Config, s: Lives, ev: Event, a: bool)
    requires ev.PlaceOrder? && ev.market < s.markets
    ensures var s', c := LivesStep(cfg, s, ev, a), s.cidSeq + 1;
      && s'.cidSeq == c && s'.markets == s.markets
      && (a ==> s'.j == s.j[c := NewLife(cfg, c, ev.market, ev.price, ev.count, ev.buyYes, ev.ts, ev.displayed)])
      && (!a ==> s'.j == s.j)
  {
  }

  function OnTape(track: Track, l: Life, p: Print): Life { Hit(track, Swept(Activated(track, l, p.ts), p.ts), p) }

  lemma TapeOne(cfg: Config, s: Lives, p: Print, a: bool)
    requires p.market < s.markets
    ensures var s' := LivesStep(cfg, s, Tape(p), a);
      && s'.cidSeq == s.cidSeq && s'.markets == s.markets
      && (forall c :: c in s'.j <==> c in s.j) && (forall c | c in s.j :: s'.j[c] == OnTape(cfg.track, s.j[c], p))
  {
    var i := AdvanceAll(cfg.track, s.j, p.ts);
    assert LivesStep(cfg, s, Tape(p), a).j == HitAll(cfg.track, i, p);
  }

  lemma Opened(cfg: Config, n: nat)
    ensures LivesOf(cfg, n, [NewMarket]) == Lives(map[], 0, 1)
  {
    var room, s := Grow(cfg, n, [], NewMarket, Lives(map[], 0, 0));
    assert [] + [NewMarket] == [NewMarket];
  }

  // ---------------------------------------------------------------- many orders alike

  // k times the same placement in a new market.
  function Copies(ev: Event, k: nat): seq<Event> { [NewMarket] + seq(k, _ => ev) }

  function LifeOf(cfg: Config, c: nat, ev: Event): Life
    requires ev.PlaceOrder?
  {
    NewLife(cfg, c, ev.market, ev.price, ev.count, ev.buyYes, ev.ts, ev.displayed)
  }

  ghost predicate AllCopies(cfg: Config, s: Lives, ev: Event, k: nat)
    requires ev.PlaceOrder?
  {
    s.cidSeq == k && s.markets == 1 && (forall c :: c in s.j <==> 0 < c <= k) && forall c | c in s.j :: s.j[c] == LifeOf(cfg, c, ev)
  }

  lemma CopiesBusy(cfg: Config, s: Lives, ev: Event, k: nat)
    requires ev.PlaceOrder? && AllCopies(cfg, s, ev, k)
    ensures |Busy(s.j)| == k && forall c | c in s.j :: s.j[c].rec.state != Expired
  {
    assert Busy(s.j) == Range(1, k + 1);
    RangeSize(1, k + 1);
  }

  lemma OneMoreCopy(cfg: Config, n: nat, s: Lives, ev: Event, k: nat, room: bool)
    requires k < n && ev.PlaceOrder? && ev.market == 0 && AllCopies(cfg, s, ev, k) && RoomIs(n, s.j, room)
    ensures AllCopies(cfg, LivesStep(cfg, s, ev, room), ev, k + 1)
  {
    CopiesBusy(cfg, s, ev, k);
    PlaceOne(cfg, s, ev, room);
  }

  lemma {:induction false} CopiesAccepted(cfg: Config, n: nat, ev: Event, k: nat) returns (s: Lives)
    requires k <= n && ev.PlaceOrder? && ev.market == 0
    ensures s == LivesOf(cfg, n, Copies(ev, k)) && AllCopies(cfg, s, ev, k)
    decreases k
  {
    if k == 0 {
      Opened(cfg, n);
      s := Lives(map[], 0, 1);
      assert Copies(ev, 0) == [NewMarket];
    } else {
      CopiesSnoc(ev, k - 1);
      var s0 := CopiesAccepted(cfg, n, ev, k - 1);
      s := CopyAdded(cfg, n, Copies(ev, k - 1), Copies(ev, k), s0, ev, k - 1);
    }
  }

  lemma CopiesSnoc(ev: Event, k: nat)
    ensures Copies(ev, k + 1) == Copies(ev, k) + [ev]
  {
  }

  lemma CopyAdded(cfg: Config, n: nat, evs: seq<Event>, evs': seq<Event>, s: Lives, ev: Event, k: nat) returns (s': Lives)
    requires k < n && ev.PlaceOrder? && ev.market == 0 && s == LivesOf(cfg, n, evs) && AllCopies(cfg, s, ev, k) && evs' == evs + [ev]
    ensures s' == LivesOf(cfg, n, evs') && AllCopies(cfg, s', ev, k + 1)
  {
    var room;
    room, s' := Grow(cfg, n, evs, ev, s);
    OneMoreCopy(cfg, n, s, ev, k, room);
  }

  // ---------------------------------------------------------------- refused orders use up the table

  // Depth unknown: the Queue track will refuse the order.
  const UNKNOWN: Event := PlaceOrder(0, 50, 1, true, 0, -1)

  lemma {:induction false} AllRefused(e: Engine, now: nat)
    requires Indexed(e) && e.cfg.track == Queue
    requires forall a | 0 <= a < |e.pending| :: e.pending[a].displayed < 0 && e.reg.slots[e.pending[a].idx].activeTs <= now
    ensures ActivateDue(e, 0, now).ineligible == e.ineligible + |e.pending|
    decreases |e.pending|
  {
    if |e.pending| > 0 {
      var e1 := ActivateAt(e, 0);
      assert forall i | 0 <= i < |e.reg.slots| :: e1.reg.slots[i].activeTs == e.reg.slots[i].activeTs;
      AllRefused(e1, now);
    }
  }

  // What the lives say about the pending list.
  lemma PendingRefusable(e: Engine, j: Ideal, now: nat)
    requires Indexed(e) && CidIndex(e.reg, e.cidSeq) && Holds(Idxs(e.pending), e.reg.slots, PendingSlots)
    requires RecsMatch(e.reg, j) && DisplayedMatch(e.pending, e.reg.slots, j)
    requires forall c | c in j :: j[c].displayed < 0 && j[c].rec.activeTs <= now
    ensures forall a | 0 <= a < |e.pending| :: e.pending[a].displayed < 0 && e.reg.slots[e.pending[a].idx].activeTs <= now
  {
    forall a | 0 <= a < |e.pending|
      ensures e.pending[a].displayed < 0 && e.reg.slots[e.pending[a].idx].activeTs <= now
    {
      assert Idxs(e.pending)[a] == e.pending[a].idx && e.pending[a].idx in Idxs(e.pending);
      assert e.reg.slots[e.pending[a].idx].cid in e.reg.byCid;
    }
  }

  lemma NothingOpen(e: Engine, j: Ideal)
    requires CidIndex(e.reg, e.cidSeq) && Holds(e.open, e.reg.slots, LiveSlots) && RecsMatch(e.reg, j)
    requires forall c | c in j :: j[c].rec.state == PendingNew
    ensures e.open == []
  {
    assert e.open != [] ==> e.open[0] in e.open && IsLive(e.reg.slots[e.open[0]].state);
    assert forall i | 0 <= i < |e.reg.slots| && e.reg.slots[i].state != Free :: e.reg.slots[i].cid in e.reg.byCid;
  }

  /** A Queue engine given as many placements of unknown depth as its table has slots, and
      then the time to activate them, has refused them all: by RefusedOrdersExhaustTable
      no continuation ever finds a free slot again. */
  lemma RefusedOrdersFillTable(cfg: Config, n: nat, more: seq<Event>)
    requires cfg.track == Queue
    ensures var evs := Copies(UNKNOWN, n) + [Clock(cfg.placeLatency)];
      Run(cfg, n, evs).ineligible >= n && Run(cfg, n, evs + more).reg.free == []
  {
    var evs, now := Copies(UNKNOWN, n), cfg.placeLatency;
    var s := CopiesAccepted(cfg, n, UNKNOWN, n);
    CopiesBusy(cfg, s, UNKNOWN, n);
    RoomCount(cfg, n, evs);
    RefusedAtOnce(cfg, n, evs, now, s.j);
    RefusedOrdersExhaustTable(cfg, n, evs + [Clock(now)], more);
  }

  lemma RefusedTogether(e: Engine, j: Ideal, now: nat)
    requires Struct(e) && e.cfg.track == Queue && RecsMatch(e.reg, j) && DisplayedMatch(e.pending, e.reg.slots, j)
    requires e.reg.free == [] && |e.reg.free| + |e.pending| + |e.open| + e.ineligible == |e.reg.slots|
    requires forall c | c in j :: j[c].rec.state == PendingNew && j[c].displayed < 0 && j[c].rec.activeTs <= now
    ensures Advance(e, now).ineligible >= |e.reg.slots|
  {
    PendingRefusable(e, j, now);
    NothingOpen(e, j);
    AllRefused(e, now);
  }

  lemma RefusedAtOnce(cfg: Config, n: nat, evs: seq<Event>, now: nat, j: Ideal)
    requires cfg.track == Queue && j == LivesOf(cfg, n, evs).j && Run(cfg, n, evs).reg.free == []
    requires forall c | c in j :: j[c].rec.state == PendingNew && j[c].displayed < 0 && j[c].rec.activeTs <= now
    ensures Run(cfg, n, evs + [Clock(now)]).ineligible >= n
  {
    TableFacts(cfg, n, evs, j);
    RefusedTogether(Run(cfg, n, evs), j, now);
    ClockIs(cfg, n, evs, now);
  }

  lemma TableFacts(cfg: Config, n: nat, evs: seq<Event>, j: Ideal)
    requires j == LivesOf(cfg, n, evs).j
    ensures var e := Run(cfg, n, evs);
      && Struct(e) && e.cfg == cfg && RecsMatch(e.reg, j) && DisplayedMatch(e.pending, e.reg.slots, j)
      && |e.reg.slots| == n && |e.reg.free| + |e.pending| + |e.open| + e.ineligible == n
  {
    RunAgrees(cfg, n, evs);
    TablesExact(cfg, n, evs);
  }

  lemma {:induction false} AllRefusals(pending: seq<Pending>)
    requires forall a | 0 <= a < |pending| :: pending[a].displayed < 0
    ensures Refusals(Queue, pending) == |pending|
  {
    if pending != [] { AllRefusals(pending[1..]); }
  }

  predicate NoTime(evs: seq<Event>) { forall i | 0 <= i < |evs| :: evs[i].NewMarket? || evs[i].PlaceOrder? || evs[i].CancelOrder? }

  lemma {:induction false} NobodyRefused(cfg: Config, n: nat, evs: seq<Event>)
    requires NoTime(evs)
    ensures Run(cfg, n, evs).ineligible == 0
    decreases |evs|
  {
    if evs != [] { NobodyRefused(cfg, n, evs[..|evs| - 1]); }
  }

  lemma AllDoomed(e: Engine, j: Ideal)
    requires Struct(e) && e.cfg.track == Queue && RecsMatch(e.reg, j) && DisplayedMatch(e.pending, e.reg.slots, j)
    requires e.reg.free == [] && |e.reg.free| + |e.pending| + |e.open| + e.ineligible == |e.reg.slots|
    requires forall c | c in j :: j[c].rec.state == PendingNew && j[c].displayed < 0
    ensures Doomed(e) == |e.reg.slots|
  {
    PendingDisplayed(e, j);
    NothingOpen(e, j);
    AllRefusals(e.pending);
  }

  lemma PendingDisplayed(e: Engine, j: Ideal)
    requires DisplayedMatch(e.pending, e.reg.slots, j) && forall c | c in j :: j[c].displayed < 0
    ensures forall a | 0 <= a < |e.pending| :: e.pending[a].displayed < 0
  {
  }

  /** That no order has been refused yet does not mean the table will recover: here none
      has, and still no continuation finds a free slot, because all n orders are waiting
      to be refused. TableRecovers therefore counts those too. */
  lemma WaitingOrdersDoom(cfg: Config, n: nat, more: seq<Event>)
    requires cfg.track == Queue
    ensures Run(cfg, n, Copies(UNKNOWN, n)).ineligible == 0 && Run(cfg, n, Copies(UNKNOWN, n) + more).reg.free == []
  {
    var evs := Copies(UNKNOWN, n);
    var s := CopiesAccepted(cfg, n, UNKNOWN, n);
    CopiesBusy(cfg, s, UNKNOWN, n);
    RoomCount(cfg, n, evs);
    NobodyRefused(cfg, n, evs);
    TableFacts(cfg, n, evs, s.j);
    AllDoomed(Run(cfg, n, evs), s.j);
    TableRecovers(cfg, n, evs);
  }

  // ---------------------------------------------------------------- one print for many orders

  // A print of one contract through the price of all k orders.
  function Crossed(cfg: Config, k: nat): seq<Event> { Copies(BUY, k) + [Tape(Print(0, 49, 1, false, cfg.placeLatency))] }

  lemma {:induction false} OneEach(j: Ideal, k: nat)
    requires forall c | 0 < c <= k :: c in j && j[c].rec.filled == 1
    ensures OverOrders(j, k, Contracts) == k
    decreases k
  {
    if k > 0 { OneEach(j, k - 1); }
  }

  lemma BuyFilled(cfg: Config, c: nat)
    ensures OnTape(cfg.track, LifeOf(cfg, c, BUY), Print(0, 49, 1, false, cfg.placeLatency)).rec.filled == 1
  {
  }

  /** On every track and with every latency, k orders of one contract each are all filled
      by one print of a single contract. */
  lemma PrintIsNotShared(cfg: Config, n: nat, k: nat)
    requires k <= n
    ensures LogWorth(Run(cfg, n, Crossed(cfg, k)).log, Contracts) == k
  {
    var evs, p := Copies(BUY, k), Print(0, 49, 1, false, cfg.placeLatency);
    var s := CopiesAccepted(cfg, n, BUY, k);
    var a, s' := Grow(cfg, n, evs, Tape(p), s);
    TapeOne(cfg, s, p, a);
    forall c | 0 < c <= k ensures c in s'.j && s'.j[c].rec.filled == 1 { BuyFilled(cfg, c); }
    OneEach(s'.j, k);
    LogContracts(cfg, n, evs + [Tape(p)]);
  }

  // ---------------------------------------------------------------- a settlement that misses an order

  const BUY: Event := PlaceOrder(0, 50, 1, true, 0, 0)

  // The order is still PendingNew when its market settles for the first time.
  function SettledTwice(cfg: Config): seq<Event> {
    Copies(BUY, 1) + [Settlement(0, true, 0)] + [Settlement(0, true, cfg.placeLatency)]
  }

  lemma FirstLook(cfg: Config, s: Lives, a: bool)
    requires AllCopies(cfg, s, BUY, 1) && cfg.placeLatency > 0
    ensures var s' := LivesStep(cfg, s, Settlement(0, true, 0), a); 1 in s'.j && s'.j[1] == s.j[1].(listed := false) && s'.markets == 1
  {
    assert 1 in s.j && Activated(cfg.track, s.j[1], 0) == s.j[1] && Settled(s.j[1], 0) == s.j[1];
    assert AdvanceAll(cfg.track, s.j, 0)[1] == s.j[1];
  }

  lemma OpensLater(cfg: Config, s: Lives, a: bool)
    requires 1 in s.j && s.j[1] == LifeOf(cfg, 1, BUY).(listed := false)
    ensures LiveLife(LivesStep(cfg, s, Clock(cfg.placeLatency), a).j, 1, 0)
  {
  }

  /** On every track, with any latency and a table of any size, the order is live in its
      market after the market's second settlement. */
  lemma SecondSettlementMisses(cfg: Config, n: nat)
    requires n >= 1 && cfg.placeLatency > 0
    ensures LiveIn(Run(cfg, n, SettledTwice(cfg)), 1, 0)
  {
    var e1, first := Copies(BUY, 1), Settlement(0, true, 0);
    var s := CopiesAccepted(cfg, n, BUY, 1);
    var a, s1 := Grow(cfg, n, e1, first, s);
    FirstLook(cfg, s, a);
    var b, s2 := Grow(cfg, n, e1 + [first], Clock(cfg.placeLatency), s1);
    OpensLater(cfg, s1, b);
    RunAgrees(cfg, n, e1 + [first] + [Clock(cfg.placeLatency)]);
    LiveIsLive(Run(cfg, n, e1 + [first] + [Clock(cfg.placeLatency)]), s2.j, 1, 0);
    PlacedBetween(e1, first);
    SettlementExact(cfg, n, e1 + [first], 0, true, cfg.placeLatency, 1);
  }

  lemma PlacedBetween(e1: seq<Event>, first: Event)
    requires e1 == Copies(BUY, 1) && first == Settlement(0, true, 0)
    ensures MarketsIn(e1 + [first]) == 1 && Outlived(e1 + [first], 1, 0)
  {
    assert e1 == [NewMarket, BUY] && e1[..1] == [NewMarket] && [NewMarket][..0] == [];
    assert (e1 + [first])[..2] == e1;
    assert MarketsIn([NewMarket]) == 1 && MarketsIn(e1) == 1 && Issued(e1) == 1;
    assert (e1 + [first])[2] == first;
  }

  // ---------------------------------------------------------------- tracks compared, order by order

  function Prompt(track: Track): Config { Config(track, 0, 0) }

  function Bid(price: int, ts: nat, displayed: int): Event { PlaceOrder(0, price, 1, true, ts, displayed) }

  function Sell(price: int, ts: nat): Event { Tape(Print(0, price, 1, false, ts)) }

  // A bid for one contract, active by now.
  predicate IsBid(l: Life, price: int, st: OrdState, now: nat) {
    var r := l.rec;
    && r.market == 0 && r.price == price && r.count == 1 && r.buyYes && r.state == st
    && r.filled == (if st == Filled then 1 else 0) && r.activeTs <= now && r.cancelEff == 0
  }

  lemma BidMeets(track: Track, l: Life, price: int, st: OrdState, p: Print)
    requires IsBid(l, price, st, p.ts) && st in {PendingNew, Open, Filled} && track != Queue && p == Print(0, p.price, 1, false, p.ts)
    ensures var hit := st == Filled || p.price < price || (p.price == price && track == Optimistic);
      IsBid(OnTape(track, l, p), price, if hit then Filled else Open, p.ts)
  {
  }

  // What a bid and the print after it do; the bid gets an id either way.
  ghost predicate Traded(track: Track, s: Lives, bid: Event, p: Print, room: bool, s': Lives)
    requires bid.PlaceOrder?
  {
    var n := s.cidSeq + 1;
    && s'.cidSeq == n && s'.markets == 1
    && (forall c | c != n :: c in s'.j <==> c in s.j) && (forall c | c in s.j && c != n :: s'.j[c] == OnTape(track, s.j[c], p))
    && (room ==> n in s'.j && s'.j[n] == OnTape(track, LifeOf(Prompt(track), n, bid), p))
    && (!room && n !in s.j ==> n !in s'.j)
  }

  lemma TradedIs(track: Track, s: Lives, bid: Event, p: Print, room: bool, b: bool)
    requires s.markets == 1 && bid.PlaceOrder? && bid.market == 0 && p.market == 0
    ensures Traded(track, s, bid, p, room, LivesStep(Prompt(track), LivesStep(Prompt(track), s, bid, room), Tape(p), b))
  {
    var s1 := LivesStep(Prompt(track), s, bid, room);
    PlaceOne(Prompt(track), s, bid, room);
    TapeOne(Prompt(track), s1, p, b);
    PlacedAndTaped(track, s, bid, p, room, s1, LivesStep(Prompt(track), s1, Tape(p), b));
  }

  lemma PlacedAndTaped(track: Track, s: Lives, bid: Event, p: Print, room: bool, s1: Lives, s': Lives)
    requires s.markets == 1 && bid.PlaceOrder? && s1.cidSeq == s.cidSeq + 1 && s1.markets == s.markets
    requires s1.j == if room then s.j[s1.cidSeq := LifeOf(Prompt(track), s1.cidSeq, bid)] else s.j
    requires s'.cidSeq == s1.cidSeq && s'.markets == s1.markets
    requires (forall c :: c in s'.j <==> c in s1.j) && forall c | c in s1.j :: s'.j[c] == OnTape(track, s1.j[c], p)
    ensures Traded(track, s, bid, p, room, s')
  {
  }

  lemma BidAndSell(track: Track, n: nat, evs: seq<Event>, s: Lives, bid: Event, p: Print) returns (room: bool, s': Lives)
    requires s == LivesOf(Prompt(track), n, evs) && s.markets == 1 && bid.PlaceOrder? && bid.market == 0 && p.market == 0
    ensures RoomIs(n, s.j, room) && s' == LivesOf(Prompt(track), n, evs + [bid] + [Tape(p)]) && Traded(track, s, bid, p, room, s')
  {
    var s1, b;
    room, s1 := Grow(Prompt(track), n, evs, bid, s);
    b, s' := Grow(Prompt(track), n, evs + [bid], Tape(p), s1);
    TradedIs(track, s, bid, p, room, b);
  }

  // ---------------------------------------------------------------- a full table

  const FILLER: Event := Bid(1, 0, 0)

  // n - 1 bids nobody trades with leave one slot. The next order is printed at its price,
  // which Strict ignores; so the one after it finds a slot only under Optimistic, and the
  // third only under Strict.
  function Crowded(n: nat): seq<Event>
    requires n >= 1
  {
    Copies(FILLER, n - 1) + [Bid(50, 1, 0)] + [Sell(50, 2)] + [Bid(10, 3, 0)] + [Sell(49, 4)] + [Bid(50, 5, 0)] + [Sell(49, 6)]
  }

  // The fillers 1 to n - 1 are resting; later orders that are not over are these.
  ghost predicate Stands(s: Lives, n: nat, k: nat, others: set<nat>, now: nat) {
    && s.cidSeq == n + k - 1 && s.markets == 1
    && (forall c | 0 < c < n :: c in s.j && (IsBid(s.j[c], 1, PendingNew, now) || IsBid(s.j[c], 1, Open, now)))
    && (forall c | c in s.j :: 0 < c <= s.cidSeq && s.j[c].rec.state != Expired && (c >= n ==> (!IsTerminal(s.j[c].rec.state) <==> c in others)))
    && (forall c | c in others :: c in s.j && c >= n)
  }

  lemma StandsRoom(s: Lives, n: nat, k: nat, others: set<nat>, now: nat, room: bool)
    requires n >= 1 && Stands(s, n, k, others, now) && RoomIs(n, s.j, room)
    ensures room <==> others == {}
  {
    assert Busy(s.j) == Range(1, n) + others;
    assert Range(1, n) !! others;
    RangeSize(1, n);
  }

  // The fillers are open, and nobody beyond hi is there.
  ghost predicate Resting(s: Lives, n: nat, now: nat) { forall c | 0 < c < n :: c in s.j && IsBid(s.j[c], 1, Open, now) }

  ghost predicate UpTo(s: Lives, hi: nat) { forall c | c in s.j :: 0 < c <= hi }

  lemma FillersRest(track: Track, s: Lives, n: nat, k: nat, others: set<nat>, now: nat, bid: Event, p: Print, room: bool, s': Lives)
    requires Stands(s, n, k, others, now) && bid.PlaceOrder? && Traded(track, s, bid, p, room, s')
    requires now <= p.ts && track != Queue && p == Print(0, p.price, 1, false, p.ts) && p.price > 1
    ensures Resting(s', n, p.ts)
  {
    forall c | 0 < c < n ensures c in s'.j && IsBid(s'.j[c], 1, Open, p.ts) {
      BidMeets(track, s.j[c], 1, if IsBid(s.j[c], 1, Open, now) then Open else PendingNew, p);
    }
  }

  // Order n in state st, and nobody after it; or order n filled and order n + 1 open.
  lemma OneContested(s: Lives, n: nat, k: nat, st: OrdState, now: nat)
    requires n >= 1 && s.cidSeq == n + k - 1 && s.markets == 1 && k >= 1 && Resting(s, n, now) && UpTo(s, n)
    requires n in s.j && IsBid(s.j[n], 50, st, now) && st in {Open, Filled}
    ensures Stands(s, n, k, if st == Open then {n} else {}, now)
  {
  }

  lemma TwoContested(s: Lives, n: nat, now: nat)
    requires n >= 1 && s.cidSeq == n + 1 && s.markets == 1 && Resting(s, n, now) && UpTo(s, n + 1)
    requires n in s.j && IsBid(s.j[n], 50, Filled, now) && n + 1 in s.j && IsBid(s.j[n + 1], 10, Open, now)
    ensures Stands(s, n, 2, {n + 1}, now)
  {
  }

  lemma Ready(track: Track, n: nat) returns (s: Lives)
    requires n >= 1
    ensures s == LivesOf(Prompt(track), n, Copies(FILLER, n - 1)) && Stands(s, n, 0, {}, 1)
  {
    s := CopiesAccepted(Prompt(track), n, FILLER, n - 1);
  }

  lemma NewBid(track: Track, c: nat, price: int, ts: nat)
    ensures IsBid(LifeOf(Prompt(track), c, Bid(price, ts, 0)), price, PendingNew, ts + 1)
  {
  }

  // The first contested bid, printed at its price.
  lemma FirstBid(track: Track, n: nat, s: Lives, room: bool, s': Lives)
    requires n >= 1 && track != Queue && Stands(s, n, 0, {}, 1) && RoomIs(n, s.j, room)
    requires Traded(track, s, Bid(50, 1, 0), Sell(50, 2).p, room, s')
    ensures n in s'.j && IsBid(s'.j[n], 50, if track == Strict then Open else Filled, 2)
    ensures Stands(s', n, 1, if track == Strict then {n} else {}, 2)
  {
    var p := Sell(50, 2).p;
    StandsRoom(s, n, 0, {}, 1, room);
    NewBid(track, n, 50, 1);
    BidMeets(track, LifeOf(Prompt(track), n, Bid(50, 1, 0)), 50, PendingNew, p);
    FillersRest(track, s, n, 0, {}, 1, Bid(50, 1, 0), p, room, s');
    WhoIsThere(track, s, n, 0, {}, 1, Bid(50, 1, 0), p, room, s', n);
    OneContested(s', n, 1, if track == Strict then Open else Filled, 2);
  }

  // An order already there, after a bid and a print.
  lemma OldOrder(track: Track, s: Lives, c: nat, st: OrdState, bid: Event, p: Print, room: bool, s': Lives)
    requires bid.PlaceOrder? && Traded(track, s, bid, p, room, s') && c in s.j && c != s.cidSeq + 1 && track != Queue
    requires IsBid(s.j[c], 50, st, p.ts) && st in {Open, Filled} && p == Print(0, 49, 1, false, p.ts)
    ensures c in s'.j && IsBid(s'.j[c], 50, Filled, p.ts)
  {
    BidMeets(track, s.j[c], 50, st, p);
  }

  // The bid itself, if it finds a slot.
  lemma NewOrder(track: Track, s: Lives, price: int, ts: nat, p: Print, room: bool, s': Lives)
    requires Traded(track, s, Bid(price, ts, 0), p, room, s') && room && track != Queue && p == Print(0, 49, 1, false, ts + 1) && price != 49
    ensures var c := s.cidSeq + 1; c in s'.j && IsBid(s'.j[c], price, if price > 49 then Filled else Open, ts + 1)
  {
    var c := s.cidSeq + 1;
    NewBid(track, c, price, ts);
    BidMeets(track, LifeOf(Prompt(track), c, Bid(price, ts, 0)), price, PendingNew, p);
  }

  // Who is there afterwards.
  lemma WhoIsThere(track: Track, s: Lives, n: nat, k: nat, others: set<nat>, now: nat, bid: Event, p: Print, room: bool, s': Lives, hi: nat)
    requires Stands(s, n, k, others, now) && bid.PlaceOrder? && Traded(track, s, bid, p, room, s')
    requires hi == if room then s.cidSeq + 1 else s.cidSeq
    ensures UpTo(s', hi)
  {
    assert s.cidSeq + 1 !in s.j;
  }

  // The second finds no slot under Strict, where the print now fills the first.
  lemma SecondBidStrict(n: nat, s: Lives, room: bool, s': Lives)
    requires n >= 1 && Stands(s, n, 1, {n}, 2) && IsBid(s.j[n], 50, Open, 2) && RoomIs(n, s.j, room)
    requires Traded(Strict, s, Bid(10, 3, 0), Sell(49, 4).p, room, s')
    ensures Stands(s', n, 2, {}, 4)
  {
    var p := Sell(49, 4).p;
    StandsRoom(s, n, 1, {n}, 2, room);
    OldOrder(Strict, s, n, Open, Bid(10, 3, 0), p, room, s');
    WhoIsThere(Strict, s, n, 1, {n}, 2, Bid(10, 3, 0), p, room, s', n);
    FillersRest(Strict, s, n, 1, {n}, 2, Bid(10, 3, 0), p, room, s');
    OneContested(s', n, 2, Filled, 4);
  }

  lemma ThirdBidStrict(n: nat, s: Lives, room: bool, s': Lives)
    requires n >= 1 && Stands(s, n, 2, {}, 4) && RoomIs(n, s.j, room)
    requires Traded(Strict, s, Bid(50, 5, 0), Sell(49, 6).p, room, s')
    ensures n + 2 in s'.j && s'.j[n + 2].rec.filled == 1
  {
    StandsRoom(s, n, 2, {}, 4, room);
    NewOrder(Strict, s, 50, 5, Sell(49, 6).p, room, s');
  }

  // Under Optimistic the second finds the slot of the first.
  lemma SecondBidTaken(n: nat, s: Lives, room: bool, s': Lives)
    requires s.cidSeq == n && n in s.j && IsBid(s.j[n], 50, Filled, 2) && room
    requires Traded(Optimistic, s, Bid(10, 3, 0), Sell(49, 4).p, room, s')
    ensures s'.cidSeq == n + 1 && s'.markets == 1 && n in s'.j && IsBid(s'.j[n], 50, Filled, 4) && n + 1 in s'.j && IsBid(s'.j[n + 1], 10, Open, 4)
  {
    OldOrder(Optimistic, s, n, Filled, Bid(10, 3, 0), Sell(49, 4).p, room, s');
    NewOrder(Optimistic, s, 10, 3, Sell(49, 4).p, room, s');
  }

  lemma SecondBidOptimistic(n: nat, s: Lives, room: bool, s': Lives)
    requires n >= 1 && Stands(s, n, 1, {}, 2) && n in s.j && IsBid(s.j[n], 50, Filled, 2) && RoomIs(n, s.j, room)
    requires Traded(Optimistic, s, Bid(10, 3, 0), Sell(49, 4).p, room, s')
    ensures Stands(s', n, 2, {n + 1}, 4)
  {
    StandsRoom(s, n, 1, {}, 2, room);
    SecondBidTaken(n, s, room, s');
    WhoIsThere(Optimistic, s, n, 1, {}, 2, Bid(10, 3, 0), Sell(49, 4).p, room, s', n + 1);
    FillersRest(Optimistic, s, n, 1, {}, 2, Bid(10, 3, 0), Sell(49, 4).p, room, s');
    TwoContested(s', n, 4);
  }

  lemma ThirdBidOptimistic(n: nat, s: Lives, room: bool, s': Lives)
    requires n >= 1 && Stands(s, n, 2, {n + 1}, 4) && RoomIs(n, s.j, room)
    requires Traded(Optimistic, s, Bid(50, 5, 0), Sell(49, 6).p, room, s')
    ensures n + 2 !in s'.j
  {
    StandsRoom(s, n, 2, {n + 1}, 4, room);
    WhoIsThere(Optimistic, s, n, 2, {n + 1}, 4, Bid(50, 5, 0), Sell(49, 6).p, room, s', n + 1);
  }

  // The stages of the run.
  lemma FirstStage(track: Track, n: nat, evs: seq<Event>, s: Lives) returns (s': Lives)
    requires n >= 1 && track != Queue && s == LivesOf(Prompt(track), n, evs) && Stands(s, n, 0, {}, 1)
    ensures s' == LivesOf(Prompt(track), n, evs + [Bid(50, 1, 0)] + [Sell(50, 2)])
    ensures n in s'.j && IsBid(s'.j[n], 50, if track == Strict then Open else Filled, 2)
    ensures Stands(s', n, 1, if track == Strict then {n} else {}, 2)
  {
    var room;
    room, s' := BidAndSell(track, n, evs, s, Bid(50, 1, 0), Sell(50, 2).p);
    FirstBid(track, n, s, room, s');
  }

  lemma StrictStages(n: nat, evs: seq<Event>, s: Lives) returns (s': Lives)
    requires n >= 1 && s == LivesOf(Prompt(Strict), n, evs) && Stands(s, n, 1, {n}, 2) && IsBid(s.j[n], 50, Open, 2)
    ensures s' == LivesOf(Prompt(Strict), n, evs + [Bid(10, 3, 0)] + [Sell(49, 4)] + [Bid(50, 5, 0)] + [Sell(49, 6)])
    ensures n + 2 in s'.j && s'.j[n + 2].rec.filled == 1
  {
    var r2, s2 := BidAndSell(Strict, n, evs, s, Bid(10, 3, 0), Sell(49, 4).p);
    SecondBidStrict(n, s, r2, s2);
    var r3;
    r3, s' := BidAndSell(Strict, n, evs + [Bid(10, 3, 0)] + [Sell(49, 4)], s2, Bid(50, 5, 0), Sell(49, 6).p);
    ThirdBidStrict(n, s2, r3, s');
  }

  lemma OptimisticStages(n: nat, evs: seq<Event>, s: Lives) returns (s': Lives)
    requires n >= 1 && s == LivesOf(Prompt(Optimistic), n, evs) && Stands(s, n, 1, {}, 2) && n in s.j && IsBid(s.j[n], 50, Filled, 2)
    ensures s' == LivesOf(Prompt(Optimistic), n, evs + [Bid(10, 3, 0)] + [Sell(49, 4)] + [Bid(50, 5, 0)] + [Sell(49, 6)])
    ensures n + 2 !in s'.j
  {
    var r2, s2 := BidAndSell(Optimistic, n, evs, s, Bid(10, 3, 0), Sell(49, 4).p);
    SecondBidOptimistic(n, s, r2, s2);
    var r3;
    r3, s' := BidAndSell(Optimistic, n, evs + [Bid(10, 3, 0)] + [Sell(49, 4)], s2, Bid(50, 5, 0), Sell(49, 6).p);
    ThirdBidOptimistic(n, s2, r3, s');
  }

  lemma CrowdedStrict(n: nat)
    requires n >= 1
    ensures var j := LivesOf(Prompt(Strict), n, Crowded(n)).j; n + 2 in j && j[n + 2].rec.filled == 1
  {
    var evs := Copies(FILLER, n - 1);
    var s := Ready(Strict, n);
    var s1 := FirstStage(Strict, n, evs, s);
    var s3 := StrictStages(n, evs + [Bid(50, 1, 0)] + [Sell(50, 2)], s1);
  }

  lemma CrowdedOptimistic(n: nat)
    requires n >= 1
    ensures n + 2 !in LivesOf(Prompt(Optimistic), n, Crowded(n)).j
  {
    var evs := Copies(FILLER, n - 1);
    var s := Ready(Optimistic, n);
    var s1 := FirstStage(Optimistic, n, evs, s);
    var s3 := OptimisticStages(n, evs + [Bid(50, 1, 0)] + [Sell(50, 2)], s1);
  }

  /** On a table of any size n, order n + 2 of this run is filled under Strict and not
      under Optimistic, which had to drop it: the condition of PessimisticTracks, that the
      Optimistic engine accepted the order, is needed. */
  lemma FullTableReversesTracks(n: nat)
    requires n >= 1
    ensures FilledQty(Run(Prompt(Optimistic), n, Crowded(n)).log, n + 2) < FilledQty(Run(Prompt(Strict), n, Crowded(n)).log, n + 2)
  {
    FilledIs(Prompt(Strict), n, Crowded(n), n + 2);
    FilledIs(Prompt(Optimistic), n, Crowded(n), n + 2);
    CrowdedStrict(n);
    CrowdedOptimistic(n);
  }

  // ---------------------------------------------------------------- Queue against Strict

  // One bid and one print.
  function Duel(displayed: int, price: int): seq<Event> { [NewMarket] + [Bid(50, 1, displayed)] + [Sell(price, 2)] }

  lemma DuelFills(track: Track, n: nat, displayed: int, price: int)
    requires n >= 1
    ensures FilledQty(Run(Prompt(track), n, Duel(displayed, price)).log, 1)
         == OnTape(track, LifeOf(Prompt(track), 1, Bid(50, 1, displayed)), Sell(price, 2).p).rec.filled
  {
    Opened(Prompt(track), n);
    var s := Lives(map[], 0, 1);
    assert Busy(s.j) == {};
    var room, s' := BidAndSell(track, n, [NewMarket], s, Bid(50, 1, displayed), Sell(price, 2).p);
    FilledIs(Prompt(track), n, Duel(displayed, price), 1);
  }

  /** Neither of the pessimistic tracks is below the other: with nobody ahead, a print at
      the order's price fills it under Queue and not under Strict; with someone ahead, a
      print through its price fills it under Strict and not under Queue, because such a
      print does not drain the queue. */
  lemma QueueAndStrictUnordered(n: nat)
    requires n >= 1
    ensures FilledQty(Run(Prompt(Queue), n, Duel(0, 50)).log, 1) == 1 && FilledQty(Run(Prompt(Strict), n, Duel(0, 50)).log, 1) == 0
    ensures FilledQty(Run(Prompt(Queue), n, Duel(1, 49)).log, 1) == 0 && FilledQty(Run(Prompt(Strict), n, Duel(1, 49)).log, 1) == 1
  {
    DuelFills(Queue, n, 0, 50);
    DuelFills(Strict, n, 0, 50);
    DuelFills(Queue, n, 1, 49);
    DuelFills(Strict, n, 1, 49);
    DuelLives(1);
  }

  lemma DuelLives(c: nat)
    ensures OnTape(Queue, LifeOf(Prompt(Queue), c, Bid(50, 1, 0)), Sell(50, 2).p).rec.filled == 1
    ensures OnTape(Strict, LifeOf(Prompt(Strict), c, Bid(50, 1, 0)), Sell(50, 2).p).rec.filled == 0
    ensures OnTape(Queue, LifeOf(Prompt(Queue), c, Bid(50, 1, 1)), Sell(49, 2).p).rec.filled == 0
    ensures OnTape(Strict, LifeOf(Prompt(Strict), c, Bid(50, 1, 1)), Sell(49, 2).p).rec.filled == 1
  {
  }
}
