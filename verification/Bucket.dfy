/**
 The integer token bucket of include/kalshi/token_bucket.hpp. Tokens are counted in
 milli-tokens with a carry in millionths of a milli-token; both together are the level,
 in the smallest unit, and the bucket is compared with an ideal one that only has a level.
 */
module Bucket {

  const SCALE: int := 1000
  const ACC: int := 1_000_000

  // Configuration and state: rate per nanosecond in level units, capacity and tokens in
  // milli-tokens, the carry, and the time of the last refill.
  datatype Bucket = Bucket(rate: int, cap: int, tokens: int, acc: int, last: int)
  {
    function Level(): int { tokens * ACC + acc }

    // Tokens may be negative: debt.
    predicate Valid() { 0 <= acc < ACC && tokens <= cap }

    function Full(): int { cap * ACC }

    // What flows in per nanosecond.
    function Flow(): int { if rate > 0 then rate else 0 }
  }

  function New(rate: int, capacity: int): Bucket { Bucket(rate, capacity * SCALE, capacity * SCALE, 0, 0) }

  function Configured(b: Bucket, rate: int, capacity: int): Bucket {
    var cap := capacity * SCALE;
    b.(rate := rate, cap := cap, tokens := if b.tokens > cap then cap else b.tokens)
  }

  // Units short of a full bucket.
  function Headroom(b: Bucket): int { (b.cap - b.tokens) * ACC - b.acc }

  // The carry step, before the final clamp.
  function Carried(b: Bucket, now: int): Bucket
  {
    var acc := b.acc + b.rate * (now - b.last);
    b.(last := now, acc := acc - acc / ACC * ACC, tokens := b.tokens + acc / ACC)
  }

  // The clock has moved but does not fill the bucket to the brim.
  predicate Partial(b: Bucket, now: int) {
    now > b.last && b.rate > 0 && Headroom(b) > 0 && now - b.last < Headroom(b) / b.rate + 1
  }

  function Refill(b: Bucket, now: int): Bucket {
    if now <= b.last then b
    else if b.rate <= 0 then b.(last := now)
    else if Headroom(b) <= 0 then b.(last := now, acc := 0)
    else if !Partial(b, now) then b.(last := now, tokens := b.cap, acc := 0)
    else
      var c := Carried(b, now);
      if c.tokens > c.cap then c.(tokens := c.cap, acc := 0) else c
  }

  function WaitFor(b: Bucket, deficit: int): int {
    if b.rate <= 0 then -1
    else
      var needed := deficit * ACC - b.acc;
      if needed <= 0 then 0 else (needed + b.rate - 1) / b.rate
  }

  datatype Reservation = Reservation(granted: bool, wait: int, before: int, after: int, cost: int)

  function TryReserve(b: Bucket, cost: int, now: int): (Bucket, bool) {
    var f := Refill(b, now);
    if f.tokens >= cost * SCALE then (f.(tokens := f.tokens - cost * SCALE), true) else (f, false)
  }

  function ReserveOrWait(b: Bucket, cost: int, now: int, deadline: int): (Bucket, Reservation) {
    var f, need := Refill(b, now), cost * SCALE;
    var spent := f.(tokens := f.tokens - need);
    if f.tokens >= need then (spent, Reservation(true, 0, f.tokens, spent.tokens, need))
    else
      var w := WaitFor(f, need - f.tokens);
      if b.rate <= 0 || now + w > deadline || w < 0 then (f, Reservation(false, w, f.tokens, f.tokens, need))
      else (spent, Reservation(true, w, f.tokens, spent.tokens, need))
  }

  // ---------------------------------------------------------------- refill

  function Min(a: int, b: int): int { if a < b then a else b }

  // The ideal bucket's level at time now.
  function IdealLevel(b: Bucket, now: int): int {
    if now <= b.last || b.rate <= 0 then b.Level() else Min(b.Full(), b.Level() + b.rate * (now - b.last))
  }

  lemma QuotientBound(x: int, d: int, q: int)
    requires d > 0
    ensures q < x / d + 1 <==> d * q <= x
  {
    if q <= x / d { MulOrder(q, x / d, d); } else { MulOrder(x / d + 1, q, d); }
  }

  lemma MulOrder(a: int, b: int, d: int)
    requires a <= b && d >= 0
    ensures a * d <= b * d && d * a <= d * b
  {
  }

  lemma HeadroomIs(b: Bucket)
    requires b.Valid()
    ensures Headroom(b) == b.Full() - b.Level() && (Headroom(b) <= 0 <==> b.tokens == b.cap)
  {
  }

  lemma CarryExact(b: Bucket, acc: int)
    requires acc >= 0 && b.tokens * ACC + acc <= b.cap * ACC
    ensures 0 <= acc - acc / ACC * ACC < ACC && b.tokens + acc / ACC <= b.cap
    ensures (b.tokens + acc / ACC) * ACC + (acc - acc / ACC * ACC) == b.tokens * ACC + acc
  {
  }

  lemma CarriedExact(b: Bucket, now: int, gain: int)
    requires b.Valid() && gain == b.rate * (now - b.last) && 0 <= gain <= b.Full() - b.Level()
    ensures var c := Carried(b, now); c.Valid() && c.Level() == b.Level() + gain
  {
    CarryExact(b, b.acc + gain);
  }

  /** Short of saturation the carry step loses nothing and stays within capacity, so the
      source's final clamp never fires. */
  lemma ClampNeverFires(b: Bucket, now: int)
    requires b.Valid() && Partial(b, now)
    ensures var c := Carried(b, now); c.Valid() && c.Level() == b.Level() + b.rate * (now - b.last) <= b.Full()
  {
    HeadroomIs(b);
    QuotientBound(Headroom(b), b.rate, now - b.last);
    CarriedExact(b, now, b.rate * (now - b.last));
  }

  /** Refill is exact: the level becomes what the ideal bucket's would be, with a carry in
      range, whatever the saturation shortcut did. */
  lemma RefillExact(b: Bucket, now: int)
    requires b.Valid()
    ensures var f := Refill(b, now);
      && f.Valid() && f.Level() == IdealLevel(b, now)
      && f.rate == b.rate && f.cap == b.cap && f.last == if now > b.last then now else b.last
  {
    HeadroomIs(b);
    if now > b.last && b.rate > 0 && Headroom(b) > 0 {
      QuotientBound(Headroom(b), b.rate, now - b.last);
      if Partial(b, now) { ClampNeverFires(b, now); }
    } else if now > b.last && b.rate > 0 {
      MulOrder(0, now - b.last, b.rate);
    }
  }

  // The level and the configuration determine the bucket.
  lemma SameLevel(f: Bucket, g: Bucket)
    requires f.Valid() && g.Valid() && f.Level() == g.Level() && f.rate == g.rate && f.cap == g.cap && f.last == g.last
    ensures f == g
  {
  }

  lemma RateAdds(rate: int, a: int, b: int)
    requires rate >= 0 && b >= 0
    ensures rate * (a + b) == rate * a + rate * b && rate * b >= 0
  {
    MulOrder(0, b, rate);
  }

  // Looking at the ideal bucket in between changes nothing.
  lemma IdealTwice(b: Bucket, f: Bucket, mid: int, now: int)
    requires b.Valid() && f.Valid() && mid <= now && f.Level() == IdealLevel(b, mid)
    requires f.rate == b.rate && f.cap == b.cap && f.last == if mid > b.last then mid else b.last
    ensures IdealLevel(f, now) == IdealLevel(b, now)
  {
    if b.rate > 0 && b.last < mid { RateAdds(b.rate, mid - b.last, now - mid); }
  }

  lemma PolledTwice(b: Bucket, f: Bucket, g: Bucket, h: Bucket, mid: int, now: int)
    requires b.Valid() && f.Valid() && g.Valid() && h.Valid() && mid <= now
    requires f.Level() == IdealLevel(b, mid) && g.Level() == IdealLevel(f, now) && h.Level() == IdealLevel(b, now)
    requires f.rate == g.rate == h.rate == b.rate && f.cap == g.cap == h.cap == b.cap
    requires f.last == (if mid > b.last then mid else b.last) && g.last == (if now > f.last then now else f.last)
    requires h.last == if now > b.last then now else b.last
    ensures g == h
  {
    IdealTwice(b, f, mid, now);
    SameLevel(g, h);
  }

  lemma PollTwice(b: Bucket, mid: int, now: int)
    requires b.Valid() && mid <= now
    ensures Refill(Refill(b, mid), now) == Refill(b, now)
  {
    var f := Refill(b, mid);
    RefillExact(b, mid);
    RefillExact(b, now);
    RefillExact(f, now);
    PolledTwice(b, f, Refill(f, now), Refill(b, now), mid, now);
  }

  function Polled(b: Bucket, polls: seq<int>): Bucket
    decreases |polls|
  {
    if polls == [] then b else Refill(Polled(b, polls[..|polls| - 1]), polls[|polls| - 1])
  }

  /** However often and at whatever times the bucket is looked at in between, a later
      refill leaves it exactly as if it had not been. */
  lemma {:induction false} PollingChangesNothing(b: Bucket, polls: seq<int>, now: int)
    requires b.Valid() && forall i | 0 <= i < |polls| :: polls[i] <= now
    ensures Polled(b, polls).Valid() && Refill(Polled(b, polls), now) == Refill(b, now)
    decreases |polls|
  {
    if polls != [] {
      var k := |polls| - 1;
      PollingChangesNothing(b, polls[..k], now);
      RefillExact(Polled(b, polls[..k]), polls[k]);
      PollTwice(Polled(b, polls[..k]), polls[k], now);
    }
  }

  /** No intermediate value of a refill exceeds the distance from the level to a full
      bucket: in particular the product of rate and elapsed time, which is formed only
      once it is known to be small. */
  lemma RefillIntermediates(b: Bucket, now: int)
    requires b.Valid() && now > b.last && b.rate > 0 && Headroom(b) > 0
    ensures 0 < Headroom(b) <= (b.cap - b.tokens) * ACC && 0 < Headroom(b) / b.rate + 1 <= Headroom(b) + 1
    ensures Partial(b, now) ==> 0 <= b.rate * (now - b.last) <= b.acc + b.rate * (now - b.last) <= (b.cap - b.tokens) * ACC
  {
    QuotientBound(Headroom(b), b.rate, now - b.last);
    QuotientSmall(Headroom(b), b.rate);
    if Partial(b, now) { MulOrder(0, now - b.last, b.rate); }
  }

  lemma QuotientSmall(x: int, d: int)
    requires x >= 0 && d > 0
    ensures 0 <= x / d <= x
  {
    if x / d > x { MulOrder(1, d, x / d); }
  }

  // ---------------------------------------------------------------- waiting

  lemma CeilIs(x: int, d: int)
    requires x > 0 && d > 0
    ensures var w := (x + d - 1) / d; w > 0 && d * w >= x && d * (w - 1) < x
  {
    var w := (x + d - 1) / d;
    QuotientBound(x + d - 1, d, w);
    QuotientBound(x + d - 1, d, w + 1);
    QuotientBound(x + d - 1, d, 1);
  }

  // What flows in during dt: flow * dt, in a form the proofs below can add up.
  function In(flow: int, dt: int): int
    decreases if dt < 0 then -dt else dt
  {
    if dt == 0 then 0 else if dt > 0 then In(flow, dt - 1) + flow else In(flow, dt + 1) - flow
  }

  lemma {:induction false} InIs(flow: int, dt: int)
    ensures In(flow, dt) == flow * dt
    decreases if dt < 0 then -dt else dt
  {
    if dt > 0 { InIs(flow, dt - 1); } else if dt < 0 { InIs(flow, dt + 1); }
  }

  lemma InAdds(flow: int, a: int, b: int)
    ensures In(flow, a + b) == In(flow, a) + In(flow, b)
  {
    InIs(flow, a);
    InIs(flow, b);
    InIs(flow, a + b);
  }

  lemma InOrder(flow: int, a: int, b: int)
    requires flow >= 0 && a <= b
    ensures In(flow, a) <= In(flow, b)
  {
    InIs(flow, a);
    InIs(flow, b);
    MulOrder(a, b, flow);
  }

  // w is the least wait after which a level x is no longer negative.
  predicate LeastWait(x: int, rate: int, w: int) {
    if x >= 0 then w == 0 else w > 0 && x + In(rate, w) >= 0 && x + In(rate, w - 1) < 0
  }

  // The whole milli-tokens in a level.
  predicate Whole(milli: int, level: int) { milli * 1_000_000 <= level < (milli + 1) * 1_000_000 }

  /** A reservation is granted exactly when its wait ends by the deadline, takes the whole
      cost off the level, and tells the caller to wait the least time that brings the
      level back from debt; a refusal leaves the level alone. The caller is told the
      milli-tokens before and after, and the cost in milli-tokens. */
  lemma ReserveExact(b: Bucket, cost: int, now: int, deadline: int)
    requires b.Valid() && cost >= 0
    ensures var (b', r) := ReserveOrWait(b, cost, now, deadline);
      var x := IdealLevel(b, now) - 1_000_000_000 * cost;
      && b'.Valid() && b' == Refill(b, now).(tokens := b'.tokens)
      && b'.Level() == (if r.granted then x else IdealLevel(b, now))
      && Whole(r.before, IdealLevel(b, now)) && Whole(r.after, b'.Level()) && r.cost == 1000 * cost
      && (r.granted ==> LeastWait(x, b.rate, r.wait) && (x < 0 ==> now + r.wait <= deadline))
      && (!r.granted ==> x < 0 && (b.rate <= 0 || x + In(b.rate, deadline - now) < 0))
      && (!r.granted ==> if b.rate > 0 then LeastWait(x, b.rate, r.wait) else r.wait == -1)
  {
    var f, need := Refill(b, now), cost * SCALE;
    RefillExact(b, now);
    var x := f.Level() - need * ACC;
    if f.tokens < need && b.rate > 0 {
      var w := WaitFor(f, need - f.tokens);
      assert (need - f.tokens) * ACC - f.acc == -x;
      CeilIs(-x, b.rate);
      InIs(b.rate, w);
      InIs(b.rate, w - 1);
      if now + w > deadline { InOrder(b.rate, deadline - now, w - 1); }
    }
  }

  lemma TryExact(b: Bucket, cost: int, now: int)
    requires b.Valid() && cost >= 0
    ensures var (b', ok) := TryReserve(b, cost, now);
      var x := IdealLevel(b, now) - 1_000_000_000 * cost;
      && b'.Valid() && b' == Refill(b, now).(tokens := b'.tokens)
      && (ok <==> x >= 0) && b'.Level() == (if ok then x else IdealLevel(b, now))
  {
    RefillExact(b, now);
  }

  // ---------------------------------------------------------------- runs and the window bound

  datatype Op = Reserve(cost: int, now: int, deadline: int) | Try(cost: int, now: int) | Poll(now: int)

  // One grant: when it was asked for, the level it found, its cost, and when the caller
  // may use it. Level and cost in level units.
  datatype Grant = Grant(at: int, level: int, cost: int, effective: int)

  datatype History = History(b: Bucket, grants: seq<Grant>)

  function Do(h: History, op: Op): History {
    match op
    case Reserve(cost, now, deadline) =>
      var (b, r) := ReserveOrWait(h.b, cost, now, deadline);
      if r.granted then History(b, h.grants + [Grant(now, Refill(h.b, now).Level(), cost * SCALE * ACC, now + r.wait)])
      else History(b, h.grants)
    case Try(cost, now) =>
      var (b, ok) := TryReserve(h.b, cost, now);
      if ok then History(b, h.grants + [Grant(now, Refill(h.b, now).Level(), cost * SCALE * ACC, now)]) else History(b, h.grants)
    case Poll(now) => History(Refill(h.b, now), h.grants)
  }

  function Run(b: Bucket, ops: seq<Op>): History
    decreases |ops|
  {
    if ops == [] then History(b, []) else Do(Run(b, ops[..|ops| - 1]), ops[|ops| - 1])
  }

  // Costs between 0 and the capacity.
  predicate Affordable(op: Op, b: Bucket) {
    op.Poll? || (0 <= op.cost && op.cost * SCALE <= b.cap)
  }

  // A clock that starts no earlier than the last refill and never goes back.
  predicate Proper(b: Bucket, ops: seq<Op>) {
    forall i | 0 <= i < |ops| ::
      Affordable(ops[i], b) && b.last <= ops[i].now && (i > 0 ==> ops[i - 1].now <= ops[i].now)
  }

  predicate GrantOk(g: Grant, full: int, flow: int) {
    && 0 <= g.cost <= full && g.level <= full && g.at <= g.effective
    && LeastWait(g.level - g.cost, flow, g.effective - g.at)
  }

  // From one grant to a later point the level gains at most what flows in, and while in
  // debt it gains exactly that.
  predicate Follows(g: Grant, at: int, level: int, flow: int) {
    g.at <= at && level <= g.level - g.cost + In(flow, at - g.at)
  }

  ghost predicate Linked(h: History) {
    var g, b := h.grants, h.b;
    && b.Valid() && b.Level() <= b.Full()
    && (forall i | 0 <= i < |g| :: GrantOk(g[i], b.Full(), b.Flow()))
    && (forall i | 0 <= i < |g| - 1 :: Follows(g[i], g[i + 1].at, g[i + 1].level, b.Flow()))
    && (|g| > 0 ==> Follows(g[|g| - 1], b.last, b.Level(), b.Flow()))
  }

  // The bucket's level rises by at most the flow.
  lemma RefillFollows(h: History, now: int)
    requires Linked(h) && h.b.last <= now
    ensures Linked(History(Refill(h.b, now), h.grants)) && Refill(h.b, now).last == now
    ensures Refill(h.b, now).rate == h.b.rate && Refill(h.b, now).cap == h.b.cap
  {
    RefillExact(h.b, now);
    var g, b := h.grants, h.b;
    if |g| > 0 {
      var at := g[|g| - 1].at;
      InAdds(b.Flow(), b.last - at, now - b.last);
      InOrder(b.Flow(), 0, now - b.last);
      InIs(b.Flow(), now - b.last);
    }
  }

  // A grant, taken from a bucket already refilled to the present.
  lemma GrantFollows(h: History, g: Grant, b': Bucket)
    requires Linked(h) && g.at == h.b.last && g.level == h.b.Level() && GrantOk(g, h.b.Full(), h.b.Flow())
    requires b'.Valid() && b' == h.b.(tokens := b'.tokens) && b'.Level() == g.level - g.cost
    ensures Linked(History(b', h.grants + [g]))
  {
  }

  // What an operation on a linked history leaves.
  ghost predicate Keeps(h: History, h': History, now: int) {
    Linked(h') && h'.b.last == now && h'.b.rate == h.b.rate && h'.b.cap == h.b.cap
  }

  lemma TryLinked(h: History, op: Op)
    requires Linked(h) && op.Try? && Affordable(op, h.b) && h.b.last <= op.now
    ensures Keeps(h, Do(h, op), op.now)
  {
    var f := Refill(h.b, op.now);
    RefillExact(h.b, op.now);
    RefillFollows(h, op.now);
    TryExact(h.b, op.cost, op.now);
    var (b', ok) := TryReserve(h.b, op.cost, op.now);
    if ok { GrantFollows(History(f, h.grants), Grant(op.now, f.Level(), op.cost * SCALE * ACC, op.now), b'); }
  }

  // A reservation, said with the refilled bucket.
  lemma Reserves(b: Bucket, f: Bucket, op: Op) returns (b': Bucket, r: Reservation)
    requires b.Valid() && op.Reserve? && op.cost >= 0 && f == Refill(b, op.now)
    ensures (b', r) == ReserveOrWait(b, op.cost, op.now, op.deadline) && f.rate == b.rate && f.cap == b.cap
    ensures var x := f.Level() - 1_000_000_000 * op.cost;
      if r.granted then b'.Valid() && b' == f.(tokens := b'.tokens) && b'.Level() == x && LeastWait(x, b.rate, r.wait) && (b.rate <= 0 ==> x >= 0)
      else b' == f
  {
    RefillExact(b, op.now);
    ReserveExact(b, op.cost, op.now, op.deadline);
    var res := ReserveOrWait(b, op.cost, op.now, op.deadline);
    b', r := res.0, res.1;
  }

  lemma ReserveLinked(h: History, op: Op)
    requires Linked(h) && op.Reserve? && Affordable(op, h.b) && h.b.last <= op.now
    ensures Keeps(h, Do(h, op), op.now)
  {
    var f := Refill(h.b, op.now);
    RefillFollows(h, op.now);
    var b', r := Reserves(h.b, f, op);
    if r.granted { Granted(History(f, h.grants), op.cost, r.wait, b', Grant(op.now, f.Level(), op.cost * SCALE * ACC, op.now + r.wait)); }
  }

  lemma Granted(h: History, cost: int, wait: int, b': Bucket, g: Grant)
    requires Linked(h) && g == Grant(h.b.last, h.b.Level(), 1_000_000_000 * cost, h.b.last + wait)
    requires 0 <= g.cost <= h.b.Full() && LeastWait(g.level - g.cost, h.b.rate, wait) && (h.b.rate <= 0 ==> g.cost <= g.level)
    requires b'.Valid() && b' == h.b.(tokens := b'.tokens) && b'.Level() == g.level - g.cost
    ensures Linked(History(b', h.grants + [g]))
  {
    GrantFollows(h, g, b');
  }

  lemma DoLinked(h: History, op: Op)
    requires Linked(h) && Affordable(op, h.b) && h.b.last <= op.now
    ensures Keeps(h, Do(h, op), op.now)
  {
    match op
    case Poll(now) => RefillFollows(h, now);
    case Try(_, _) => TryLinked(h, op);
    case Reserve(_, _, _) => ReserveLinked(h, op);
  }

  lemma {:induction false} RunLinked(b: Bucket, ops: seq<Op>)
    requires b.Valid() && b.Level() <= b.Full() && Proper(b, ops)
    ensures var h := Run(b, ops);
      Linked(h) && h.b.rate == b.rate && h.b.cap == b.cap && h.b.last == if ops == [] then b.last else ops[|ops| - 1].now
    decreases |ops|
  {
    if ops != [] {
      RunLinked(b, ops[..|ops| - 1]);
      DoLinked(Run(b, ops[..|ops| - 1]), ops[|ops| - 1]);
    }
  }

  /** Effective times never go back: a grant is usable no earlier than the one before. */
  lemma EffectiveInOrder(h: History, i: nat)
    requires Linked(h) && i + 1 < |h.grants|
    ensures h.grants[i].effective <= h.grants[i + 1].effective
  {
    var g, g', flow := h.grants[i], h.grants[i + 1], h.b.Flow();
    assert Follows(g, g'.at, g'.level, flow);
    if g'.effective < g.effective {
      // Both are waits; the later one would end while the earlier debt is still open.
      InOrder(flow, g'.effective - g.at, g.effective - g.at - 1);
      InAdds(flow, g'.at - g.at, g'.effective - g'.at);
    }
  }

  lemma {:induction false} EffectiveSorted(h: History, i: nat, j: nat)
    requires Linked(h) && i <= j < |h.grants|
    ensures h.grants[i].effective <= h.grants[j].effective
    decreases j
  {
    if i < j {
      EffectiveSorted(h, i, j - 1);
      EffectiveInOrder(h, j - 1);
    }
  }

  // Cost of grants i up to n.
  function Total(g: seq<Grant>, i: nat, n: nat): int
    requires n <= |g|
  {
    if n <= i then 0 else Total(g, i, n - 1) + g[n - 1].cost
  }

  lemma {:induction false} SpentBefore(h: History, i: nat, j: nat)
    requires Linked(h) && i <= j < |h.grants|
    ensures var g := h.grants; Total(g, i, j) + g[j].level <= g[i].level + In(h.b.Flow(), g[j].at - g[i].at)
    decreases j
  {
    if i < j {
      SpentBefore(h, i, j - 1);
      assert Follows(h.grants[j - 1], h.grants[j].at, h.grants[j].level, h.b.Flow());
      InAdds(h.b.Flow(), h.grants[j - 1].at - h.grants[i].at, h.grants[j].at - h.grants[j - 1].at);
    }
  }

  // What a grant's wait says about the level it found and about its cost.
  lemma GrantLevel(g: Grant, full: int, flow: int)
    requires GrantOk(g, full, flow) && flow >= 0
    ensures g.level <= full - In(flow, g.effective - g.at - 1) && g.cost <= g.level + In(flow, g.effective - g.at)
  {
    InOrder(flow, -1, 0);
  }

  // spent: the cost of the first grant and those between it and the last.
  lemma SpanSum(first: Grant, last: Grant, spent: int, full: int, flow: int)
    requires flow >= 0 && GrantOk(first, full, flow) && GrantOk(last, full, flow)
    requires spent + last.level <= first.level + In(flow, last.at - first.at)
    ensures spent + last.cost <= full + In(flow, last.effective - first.effective + 1)
  {
    var w, w', d := first.effective - first.at, last.effective - last.at, last.at - first.at;
    GrantLevel(first, full, flow);
    GrantLevel(last, full, flow);
    InAdds(flow, d, w');
    InAdds(flow, d + w' - (w - 1), w - 1);
  }

  // Grants i to j together.
  lemma SpanBound(h: History, i: nat, j: nat)
    requires Linked(h) && i <= j < |h.grants|
    ensures var g := h.grants; Total(g, i, j + 1) <= h.b.Full() + In(h.b.Flow(), g[j].effective - g[i].effective + 1)
  {
    SpentBefore(h, i, j);
    SpanSum(h.grants[i], h.grants[j], Total(h.grants, i, j), h.b.Full(), h.b.Flow());
  }

  // Total cost of the first n grants that become usable within [s, t].
  function CostIn(g: seq<Grant>, n: nat, s: int, t: int): int
    requires n <= |g|
  {
    if n == 0 then 0
    else CostIn(g, n - 1, s, t) + if s <= g[n - 1].effective <= t then g[n - 1].cost else 0
  }

  // Grants in the order in which they become usable.
  ghost predicate Sorted(g: seq<Grant>) { forall i, j | 0 <= i <= j < |g| :: g[i].effective <= g[j].effective }

  // Among grants usable by t, those usable from s on are the last ones.
  lemma {:induction false} LastOnes(g: seq<Grant>, n: nat, s: int, t: int) returns (i: nat)
    requires Sorted(g) && n <= |g| && (n > 0 ==> g[n - 1].effective <= t)
    ensures i <= n && CostIn(g, n, s, t) == Total(g, i, n)
    ensures i < n ==> g[i].effective >= s
    ensures i > 0 ==> g[i - 1].effective < s
    decreases n
  {
    if n == 0 {
      i := 0;
    } else if g[n - 1].effective < s {
      i := n;
      NoneUsable(g, n, s, t);
    } else {
      i := LastOnes(g, n - 1, s, t);
    }
  }

  lemma {:induction false} NoneUsable(g: seq<Grant>, n: nat, s: int, t: int)
    requires Sorted(g) && n <= |g| && (n > 0 ==> g[n - 1].effective < s)
    ensures CostIn(g, n, s, t) == 0
    decreases n
  {
    if n > 1 { NoneUsable(g, n - 1, s, t); }
  }

  lemma {:induction false} WindowOf(h: History, n: nat, s: int, t: int)
    requires Linked(h) && n <= |h.grants| && s <= t && h.b.cap >= 0
    ensures CostIn(h.grants, n, s, t) <= h.b.Full() + In(h.b.Flow(), t - s + 1)
    decreases n
  {
    InOrder(h.b.Flow(), 0, t - s + 1);
    if n > 0 {
      var g := h.grants;
      if g[n - 1].effective > t {
        WindowOf(h, n - 1, s, t);
      } else {
        forall i, j | 0 <= i <= j < |g| ensures g[i].effective <= g[j].effective { EffectiveSorted(h, i, j); }
        var i := LastOnes(g, n, s, t);
        if i < n {
          SpanBound(h, i, n - 1);
          InOrder(h.b.Flow(), g[n - 1].effective - g[i].effective + 1, t - s + 1);
        }
      }
    }
  }

  /** Over every run of reservations, attempts and polls, the cost of the grants usable
      within any window is at most one full bucket plus what flows in during the window
      and one nanosecond, debt grants included; and grants become usable in order. */
  lemma WindowBound(b: Bucket, ops: seq<Op>, s: int, t: int)
    requires b.Valid() && b.Level() <= b.Full() && b.cap >= 0 && Proper(b, ops) && s <= t
    ensures var g := Run(b, ops).grants;
      && CostIn(g, |g|, s, t) <= b.Full() + b.Flow() * (t - s + 1)
      && (forall i, j | 0 <= i <= j < |g| :: g[i].effective <= g[j].effective)
  {
    RunLinked(b, ops);
    var h := Run(b, ops);
    WindowOf(h, |h.grants|, s, t);
    InIs(b.Flow(), t - s + 1);
    forall i, j | 0 <= i <= j < |h.grants| ensures h.grants[i].effective <= h.grants[j].effective {
      EffectiveSorted(h, i, j);
    }
  }

  // A grant is for the cost of one of these operations, asked for at its time.
  ghost predicate Asked(g: Grant, ops: seq<Op>) {
    exists k :: 0 <= k < |ops| && !ops[k].Poll? && ops[k].now == g.at && g.cost == 1_000_000_000 * ops[k].cost
  }

  lemma {:induction false} AllAsked(b: Bucket, ops: seq<Op>)
    ensures forall i | 0 <= i < |Run(b, ops).grants| :: Asked(Run(b, ops).grants[i], ops)
    decreases |ops|
  {
    if ops != [] {
      var k := |ops| - 1;
      AllAsked(b, ops[..k]);
      var before, after := Run(b, ops[..k]).grants, Run(b, ops).grants;
      forall i | 0 <= i < |after| ensures Asked(after[i], ops) {
        if i < |before| {
          assert after[i] == before[i] && Asked(before[i], ops[..k]);
          var j :| 0 <= j < k && !ops[..k][j].Poll? && ops[..k][j].now == before[i].at && before[i].cost == 1_000_000_000 * ops[..k][j].cost;
          assert ops[j] == ops[..k][j];
        } else {
          assert after[i].at == ops[k].now;
        }
      }
    }
  }

  /** A new bucket is full, and a full bucket is its capacity in tokens: a thousand
      milli-tokens each, of a million units each. Its rate, in tokens per second, is what
      flows in per nanosecond. */
  lemma NewExact(rate: int, capacity: int)
    ensures var b := New(rate, capacity);
      b.Valid() && b.Level() == b.Full() == 1_000_000_000 * capacity && b.rate == rate && b.last == 0
  {
  }

  /** So for a bucket of so many tokens and tokens per second, over every run of requests
      for at most its capacity, what is granted for use within [s, t] nanoseconds is at
      most the capacity and what the rate yields in t - s + 1 nanoseconds. */
  lemma TokensInWindow(rate: int, capacity: int, ops: seq<Op>, s: int, t: int)
    requires capacity >= 0 && s <= t
    requires forall i | 0 <= i < |ops| ::
      && (!ops[i].Poll? ==> 0 <= ops[i].cost <= capacity)
      && 0 <= ops[i].now && (i > 0 ==> ops[i - 1].now <= ops[i].now)
    ensures var g := Run(New(rate, capacity), ops).grants;
      && CostIn(g, |g|, s, t) <= 1_000_000_000 * capacity + (if rate > 0 then rate * (t - s + 1) else 0)
      && forall i | 0 <= i < |g| :: Asked(g[i], ops)
  {
    NewExact(rate, capacity);
    assert Proper(New(rate, capacity), ops);
    WindowBound(New(rate, capacity), ops, s, t);
    AllAsked(New(rate, capacity), ops);
  }

  /** Reconfiguring takes the new rate and capacity, cuts the whole milli-tokens to the new
      capacity if they exceed it, and leaves the clock and the carry alone. */
  lemma ConfiguredExact(b: Bucket, rate: int, capacity: int)
    requires b.Valid()
    ensures var c := Configured(b, rate, capacity);
      && c.rate == rate && c.Full() == 1_000_000_000 * capacity && c.last == b.last
      && c.Level() - c.acc == (if b.Level() - b.acc > c.Full() then c.Full() else b.Level() - b.acc) && c.acc == b.acc
  {
  }

  /** A reconfigured bucket holds at most its new capacity in tokens, but its level may
      exceed a full bucket by the carry, until the next refill: exactly when tokens were
      cut to, or were already at, the new capacity and a carry was pending. */
  lemma ConfigureKeepsCarry(b: Bucket, rate: int, capacity: int)
    requires b.Valid()
    ensures var c := Configured(b, rate, capacity);
      && c.Valid() && c.acc == b.acc
      && (c.Level() <= c.Full() <==> b.tokens < c.cap || b.acc == 0)
      && (forall now | now > c.last && rate > 0 :: Refill(c, now).Level() <= c.Full())
  {
    var c := Configured(b, rate, capacity);
    forall now | now > c.last && rate > 0 ensures Refill(c, now).Level() <= c.Full() { RefillExact(c, now); }
  }

  // ---------------------------------------------------------------- the class

  class TokenBucketI64 {
    var rate: int
    var cap: int
    var tokens: int
    var acc: int
    var last: int

    ghost function View(): Bucket
      reads this
    {
      Bucket(rate, cap, tokens, acc, last)
    }

    constructor (refillRate: int, capacity: int)
      ensures View() == New(refillRate, capacity) && View().Valid() && View().Level() == View().Full()
    {
      rate, cap, tokens, acc, last := refillRate, capacity * SCALE, capacity * SCALE, 0, 0;
    }

    method Configure(refillRate: int, capacity: int)
      modifies this
      ensures View() == Configured(old(View()), refillRate, capacity)
    {
      rate, cap := refillRate, capacity * SCALE;
      if tokens > cap { tokens := cap; }
    }

    method Fill(now: int)
      requires View().Valid()
      modifies this
      ensures View() == Refill(old(View()), now) && View().Valid() && View().Level() == IdealLevel(old(View()), now)
    {
      RefillExact(View(), now);
      if now <= last { return; }
      var dt := now - last;
      last := now;
      if rate <= 0 { return; }
      var headroom := (cap - tokens) * ACC - acc;
      if headroom <= 0 {
        acc := 0;
        return;
      }
      if dt >= headroom / rate + 1 {
        tokens, acc := cap, 0;
        return;
      }
      acc := acc + rate * dt;
      var whole := acc / ACC;
      acc := acc - whole * ACC;
      tokens := tokens + whole;
      if tokens > cap { tokens, acc := cap, 0; }
    }

    method TryToReserve(cost: int, now: int) returns (ok: bool)
      requires View().Valid()
      modifies this
      ensures (View(), ok) == TryReserve(old(View()), cost, now)
    {
      Fill(now);
      var need := cost * SCALE;
      if tokens >= need {
        tokens := tokens - need;
        return true;
      }
      return false;
    }

    method ReserveOrElseWait(cost: int, now: int, deadline: int) returns (r: Reservation)
      requires View().Valid()
      modifies this
      ensures (View(), r) == ReserveOrWait(old(View()), cost, now, deadline)
    {
      Fill(now);
      RefillExact(old(View()), now);
      var need, before := cost * SCALE, tokens;
      if tokens >= need {
        tokens := tokens - need;
        return Reservation(true, 0, before, tokens, need);
      }
      var wait := WaitFor(Bucket(rate, cap, tokens, acc, last), need - tokens);
      if rate <= 0 || now + wait > deadline || wait < 0 { return Reservation(false, wait, before, tokens, need); }
      tokens := tokens - need;
      return Reservation(true, wait, before, tokens, need);
    }
  }
}
