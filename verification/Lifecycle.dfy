/**
 What the shadow engine is for, without its machinery: every order on its own, as a
 function of the clock, the prints and the settlements. No slots, no lists, no index.
 */
module Lifecycle {

  import opened Orders
  import opened Engine

  // displayed: depth shown at the order's level; listed: placed since its market's
  // last settlement.
  datatype Life = Life(rec: OrderRec, displayed: int, listed: bool)

  type Ideal = map<nat, Life>

  // Activation, once the clock reaches active_ts.
  function Activated(track: Track, l: Life, now: nat): Life {
    var r := l.rec;
    if r.state != PendingNew || now < r.activeTs then l
    else if !Eligible(track, l.displayed) then l.(rec := r.(state := Expired))
    else l.(rec := r.(queueAhead := if track == Queue then l.displayed else 0,
                      state := if r.cancelEff != 0 then PendingCancel else Open))
  }

  // A pending cancel, once the clock reaches cancel_eff.
  function Swept(l: Life, now: nat): Life {
    if l.rec.state == PendingCancel && now >= l.rec.cancelEff then l.(rec := l.rec.(state := Canceled)) else l
  }

  // One print.
  function Hit(track: Track, l: Life, p: Print): Life {
    var r := l.rec;
    if !IsLive(r.state) || !Reaches(r, p) then l else
    var d := r.(queueAhead := r.queueAhead - Drain(track, r, p));
    var qty := FillQty(track, r, p);
    if qty <= 0 then l.(rec := d)
    else l.(rec := d.(filled := r.filled + qty, state := if r.Remaining() - qty == 0 then Filled else r.state))
  }

  // Settlement ends live orders placed since the previous settlement of the market.
  function Settled(l: Life, market: nat): Life {
    if l.rec.market == market && l.listed && IsLive(l.rec.state)
    then l.(rec := l.rec.(state := if l.rec.state == PendingCancel then Canceled else Expired)) else l
  }

  function Unlisted(l: Life, market: nat): Life {
    if l.rec.market == market then l.(listed := false) else l
  }

  // A cancel request.
  function CancelAsked(cfg: Config, l: Life, ts: nat): Life {
    var r := l.rec;
    if IsTerminal(r.state) || r.state == PendingCancel then l
    else l.(rec := r.(cancelEff := ts + cfg.cancelLatency, state := if r.state == Open then PendingCancel else r.state))
  }

  function NewLife(cfg: Config, cid: nat, market: nat, price: int, count: int, buyYes: bool, ts: nat, displayed: int): Life {
    Life(EMPTY.(cid := cid, market := market, price := price, count := count, buyYes := buyYes,
                placeTs := ts, activeTs := ts + cfg.placeLatency, state := PendingNew), displayed, true)
  }

  // ---------------------------------------------------------------- all orders at once

  function ActivateAll(track: Track, j: Ideal, now: nat): Ideal { map c | c in j :: Activated(track, j[c], now) }

  function SweepAll(j: Ideal, now: nat): Ideal { map c | c in j :: Swept(j[c], now) }

  function AdvanceAll(track: Track, j: Ideal, now: nat): Ideal { SweepAll(ActivateAll(track, j, now), now) }

  function HitAll(track: Track, j: Ideal, p: Print): Ideal { map c | c in j :: Hit(track, j[c], p) }

  function SettleAll(j: Ideal, market: nat): Ideal { map c | c in j :: Settled(j[c], market) }

  function UnlistAll(j: Ideal, market: nat): Ideal { map c | c in j :: Unlisted(j[c], market) }
}
