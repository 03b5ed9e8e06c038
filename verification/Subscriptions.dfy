/**
 The order-book manager read off its messages: what each sid expects next, which markets
 it would tell of a loss, and what every message then does to books, counters and requests.
 */
module Subscriptions {

  import opened Common
  import opened Books

  // ---------------------------------------------------------------- read off the events

  predicate Sequenced(ev: Event, sid: nat) { (ev.Snapshot? || ev.Delta? || ev.Control?) && ev.sid == sid }

  predicate Joins(ev: Event, e: nat) { (ev.Binding? || ev.Snapshot?) && ev.e == e }

  // One more than the highest number seen on the sid.
  function Expects(evs: seq<Event>, sid: nat): Option<nat>
    decreases |evs|
  {
    if evs == [] then None
    else
      var x, ev := Expects(evs[..|evs| - 1], sid), evs[|evs| - 1];
      if Sequenced(ev, sid) && (x.Some? ==> x.value <= ev.seqno) then Some(ev.seqno + 1) else x
  }

  // The sid the market was last bound to, unless it was forgotten since.
  function Route(evs: seq<Event>, e: nat): Option<nat>
    decreases |evs|
  {
    if evs == [] then None
    else
      var ev := evs[|evs| - 1];
      if Joins(ev, e) then Some(ev.sid) else if ev == Forgetting(e) then None else Route(evs[..|evs| - 1], e)
  }

  // The market joined the sid and was not forgotten since while routed to it.
  predicate Member(evs: seq<Event>, sid: nat, e: nat)
    decreases |evs|
  {
    evs != [] &&
    (var before, ev := evs[..|evs| - 1], evs[|evs| - 1];
     if Joins(ev, e) && ev.sid == sid then true
     else Member(before, sid, e) && !(ev == Forgetting(e) && Route(before, e) == Some(sid)))
  }

  // ---------------------------------------------------------------- the streams are that

  ghost predicate StreamIs(m: Manager, evs: seq<Event>, sid: nat) {
    && (Expects(evs, sid).Some? <==> sid in m.streams && m.streams[sid].seen)
    && (Expects(evs, sid).Some? ==> m.streams[sid].expected == Expects(evs, sid).value)
    && (sid in m.streams ==> m.streams[sid].sid == sid)
  }

  ghost predicate MemberIs(m: Manager, evs: seq<Event>, sid: nat, e: nat) {
    Member(evs, sid, e) <==> sid in m.streams && e in m.streams[sid].members
  }

  ghost predicate RouteIs(m: Manager, evs: seq<Event>, e: nat) {
    Route(evs, e) == if e in m.sidOf then Some(m.sidOf[e]) else None
  }

  ghost predicate Streams(m: Manager, evs: seq<Event>) {
    && (forall sid: nat :: StreamIs(m, evs, sid))
    && (forall sid: nat, e: nat :: MemberIs(m, evs, sid, e))
    && (forall e: nat :: RouteIs(m, evs, e))
  }

  // What handling a message does to the numbering of a sid.
  ghost predicate Renumbers(m: Manager, ev: Event, m': Manager, sid: nat) {
    var was := sid in m.streams && m.streams[sid].seen;
    && (sid in m'.streams ==> m'.streams[sid].sid == sid)
    && (sid in m'.streams && m'.streams[sid].seen <==> Sequenced(ev, sid) || was)
    && (Sequenced(ev, sid) && (was ==> m.streams[sid].expected <= ev.seqno) ==> m'.streams[sid].expected == ev.seqno + 1)
    && (was && (Sequenced(ev, sid) ==> ev.seqno < m.streams[sid].expected) ==> m'.streams[sid].expected == m.streams[sid].expected)
  }

  lemma ObserveRenumbers(m: Manager, ev: Event, m': Manager, sid: nat, s: SidStream)
    requires Sequenced(ev, sid) && s == m.Stream(sid, ev.epoch) && s.sid == sid
    requires sid in m'.streams && m'.streams[sid].(members := s.members) == s.Observe(ev.seqno).0
    ensures Renumbers(m, ev, m', sid)
  {
  }

  lemma HandleRenumbers(m: Manager, ev: Event, sid: nat)
    requires sid in m.streams ==> m.streams[sid].sid == sid
    ensures Renumbers(m, ev, Handle(m, ev), sid)
  {
    if Sequenced(ev, sid) { ObserveRenumbers(m, ev, Handle(m, ev), sid, m.Stream(sid, ev.epoch)); }
  }

  lemma StreamStep(m: Manager, evs: seq<Event>, ev: Event, m': Manager, after: seq<Event>, sid: nat)
    requires StreamIs(m, evs, sid) && Renumbers(m, ev, m', sid) && after == evs + [ev]
    ensures StreamIs(m', after, sid)
  {
    assert after[..|evs|] == evs;
  }

  predicate Has(m: Manager, sid: nat, e: nat) { sid in m.streams && e in m.streams[sid].members }

  // What handling a message does to the members of a sid.
  ghost predicate Rejoins(m: Manager, ev: Event, m': Manager, sid: nat, e: nat) {
    Has(m', sid, e) <==>
      (Joins(ev, e) && ev.sid == sid) || (Has(m, sid, e) && !(ev == Forgetting(e) && e in m.sidOf && m.sidOf[e] == sid))
  }

  lemma HandleRejoins(m: Manager, ev: Event, sid: nat, e: nat)
    ensures Rejoins(m, ev, Handle(m, ev), sid, e)
  {
    if ev.Delta? || ev.Control? {
      var s := m.Stream(ev.sid, ev.epoch);
      assert Handle(m, ev).streams == m.streams[ev.sid := s.Observe(ev.seqno).0];
      assert s.Observe(ev.seqno).0.members == s.members;
    }
  }

  lemma MemberStep(m: Manager, evs: seq<Event>, ev: Event, m': Manager, after: seq<Event>, sid: nat, e: nat)
    requires MemberIs(m, evs, sid, e) && RouteIs(m, evs, e) && Rejoins(m, ev, m', sid, e) && after == evs + [ev]
    ensures MemberIs(m', after, sid, e)
  {
    assert after[..|evs|] == evs;
  }

  lemma RouteStep(m: Manager, evs: seq<Event>, ev: Event, after: seq<Event>, e: nat)
    requires RouteIs(m, evs, e) && after == evs + [ev]
    ensures RouteIs(Handle(m, ev), after, e)
  {
    assert after[..|evs|] == evs;
  }

  /** After every run each sid expects one more than the highest number seen on it, and has
      for members the markets that joined it and were not forgotten since while routed to
      it; a market is routed to the sid it was last bound to. */
  lemma {:induction false} StreamsExact(evs: seq<Event>)
    ensures Streams(HandleAll(EMPTY, evs), evs)
    decreases |evs|
  {
    if evs != [] {
      var before, ev := evs[..|evs| - 1], evs[|evs| - 1];
      StreamsExact(before);
      var m := HandleAll(EMPTY, before);
      assert evs == before + [ev] && HandleAll(EMPTY, evs) == Handle(m, ev);
      forall sid: nat ensures StreamIs(Handle(m, ev), evs, sid) {
        assert StreamIs(m, before, sid);
        HandleRenumbers(m, ev, sid);
        StreamStep(m, before, ev, Handle(m, ev), evs, sid);
      }
      forall sid: nat, e: nat ensures MemberIs(Handle(m, ev), evs, sid, e) {
        assert MemberIs(m, before, sid, e) && RouteIs(m, before, e);
        HandleRejoins(m, ev, sid, e);
        MemberStep(m, before, ev, Handle(m, ev), evs, sid, e);
      }
      forall e: nat ensures RouteIs(Handle(m, ev), evs, e) { RouteStep(m, before, ev, evs, e); }
    }
  }

  // ---------------------------------------------------------------- what a message does

  // A delta or control message numbered beyond what its sid expects.
  predicate Lossy(evs: seq<Event>, ev: Event) {
    (ev.Delta? || ev.Control?) && var x := Expects(evs, ev.sid); x.Some? && x.value < ev.seqno
  }

  // A delta numbered below it.
  predicate Late(evs: seq<Event>, ev: Event) {
    ev.Delta? && var x := Expects(evs, ev.sid); x.Some? && ev.seqno < x.value
  }

  predicate SameBook(m: Manager, m': Manager, e: nat) {
    (e in m'.books <==> e in m.books) && m'.BookOf(e) == m.BookOf(e)
  }

  predicate SameCounts(m: Manager, m': Manager) {
    m'.resyncs == m.resyncs && m'.stale == m.stale && m'.droppedInvalid == m.droppedInvalid && m'.corrupt == m.corrupt && m'.requests == m.requests
  }

  ghost predicate TakesDown(m: Manager, evs: seq<Event>, ev: Event, m': Manager)
    requires Lossy(evs, ev)
  {
    && (forall e: nat ::
          if Member(evs, ev.sid, e) then e in m'.books && m'.books[e] == m.BookOf(e).(valid := false) else SameBook(m, m', e))
    && (exists markets: set<nat> ::
          SameCounts(m.(resyncs := m.resyncs + 1, requests := m.requests + [Request(ev.sid, markets)]), m')
          && forall e: nat :: e in markets <==> Member(evs, ev.sid, e))
  }

  // A delta that is neither: it waits for a snapshot, or is applied.
  ghost predicate Reaches(m: Manager, ev: Event, m': Manager, r: ApplyResult)
    requires ev.Delta?
  {
    && (forall e: nat | e != ev.e :: SameBook(m, m', e))
    && if !m.Tradeable(ev.e) then r == NeedResync && m'.BookOf(ev.e) == m.BookOf(ev.e) && SameCounts(m.(droppedInvalid := m.droppedInvalid + 1), m')
       else
         && ev.e in m'.books && Applied(m.books[ev.e], ev.side, ev.price, ev.delta, ev.seqno, m'.books[ev.e], r)
         && SameCounts(if r == Invalid then m.(corrupt := m.corrupt + 1, requests := m.requests + [Request(ev.sid, {ev.e})]) else m, m')
  }

  lemma LossyStep(m: Manager, evs: seq<Event>, ev: Event)
    requires Streams(m, evs) && Lossy(evs, ev)
    ensures TakesDown(m, evs, ev, Handle(m, ev))
  {
    assert StreamIs(m, evs, ev.sid);
    var s, m' := m.streams[ev.sid], Handle(m, ev);
    forall e: nat
      ensures e in s.members <==> Member(evs, ev.sid, e)
      ensures if Member(evs, ev.sid, e) then e in m'.books && m'.books[e] == m.BookOf(e).(valid := false) else SameBook(m, m', e)
    {
      assert MemberIs(m, evs, ev.sid, e);
    }
    assert SameCounts(m.(resyncs := m.resyncs + 1, requests := m.requests + [Request(ev.sid, s.members)]), m');
  }

  /** After every run, a delta numbered beyond what its sid expects, and a control message
      as well, takes down exactly the members of the sid and asks for exactly those; a delta
      numbered below it is counted and ignored; any other is counted and dropped while its
      book is down, and otherwise applied, asking for the one market if that takes its book
      down. No other book, counter or request changes. */
  lemma DeltaExact(evs: seq<Event>, ev: Event)
    requires ev.Delta?
    ensures var m := HandleAll(EMPTY, evs);
      var (m', r) := m.OnDelta(ev.sid, ev.epoch, ev.e, ev.side, ev.price, ev.delta, ev.seqno);
      if Lossy(evs, ev) then r == NeedResync && TakesDown(m, evs, ev, m')
      else if Late(evs, ev) then r == NeedResync && m'.books == m.books && SameCounts(m.(stale := m.stale + 1), m')
      else Reaches(m, ev, m', r)
  {
    StreamsExact(evs);
    var m := HandleAll(EMPTY, evs);
    assert StreamIs(m, evs, ev.sid);
    if Lossy(evs, ev) {
      LossyStep(m, evs, ev);
    } else if !Late(evs, ev) && m.Tradeable(ev.e) {
      ApplyExact(m.books[ev.e], ev.side, ev.price, ev.delta, ev.seqno);
    }
  }

  lemma ControlExact(evs: seq<Event>, ev: Event)
    requires ev.Control?
    ensures var m := HandleAll(EMPTY, evs);
      var (m', r) := m.OnControl(ev.sid, ev.epoch, ev.seqno);
      if Lossy(evs, ev) then r == NeedResync && TakesDown(m, evs, ev, m') else r == Ok && m'.books == m.books && SameCounts(m, m')
  {
    StreamsExact(evs);
    assert StreamIs(HandleAll(EMPTY, evs), evs, ev.sid);
    if Lossy(evs, ev) { LossyStep(HandleAll(EMPTY, evs), evs, ev); }
  }

  // ---------------------------------------------------------------- nobody is forgotten

  predicate Named(e: nat, requests: seq<Request>, from: nat)
  {
    exists k: nat | from <= k < |requests| :: e in requests[k].markets
  }

  lemma DownStep(m: Manager, ev: Event, e: nat)
    requires m.Tradeable(e) && ev != Forgetting(e) && !Handle(m, ev).Tradeable(e)
    ensures Named(e, Handle(m, ev).requests, |m.requests|)
  {
    var m' := Handle(m, ev);
    assert |m'.requests| == |m.requests| + 1 && e in m'.requests[|m.requests|].markets;
  }

  lemma RequestsGrow(m: Manager, ev: Event)
    ensures m.requests <= Handle(m, ev).requests
  {
  }

  /** A book that was tradeable and is not any more, without its market having been
      forgotten, has been asked for in between: no book goes down silently. */
  lemma {:induction false} DownIsRequested(m: Manager, evs: seq<Event>, e: nat)
    requires m.Tradeable(e) && !HandleAll(m, evs).Tradeable(e) && Forgetting(e) !in evs
    ensures Named(e, HandleAll(m, evs).requests, |m.requests|)
    decreases |evs|
  {
    var before, ev := evs[..|evs| - 1], evs[|evs| - 1];
    var m1 := HandleAll(m, before);
    RequestsGrow(m1, ev);
    if m1.Tradeable(e) {
      DownStep(m1, ev, e);
      Grown(m, before);
    } else {
      DownIsRequested(m, before, e);
      var k: nat :| |m.requests| <= k < |m1.requests| && e in m1.requests[k].markets;
      assert HandleAll(m, evs).requests[k] == m1.requests[k];
    }
  }

  lemma {:induction false} Grown(m: Manager, evs: seq<Event>)
    ensures |m.requests| <= |HandleAll(m, evs).requests|
    decreases |evs|
  {
    if evs != [] {
      Grown(m, evs[..|evs| - 1]);
      RequestsGrow(HandleAll(m, evs[..|evs| - 1]), evs[|evs| - 1]);
    }
  }

  ghost predicate Nowhere(evs: seq<Event>, e: nat) { forall sid: nat :: !Member(evs, sid, e) }

  // The sid it is routed to is the only one the market is a member of.
  ghost predicate OnlyRouted(evs: seq<Event>, e: nat) { forall sid: nat | Member(evs, sid, e) :: Route(evs, e) == Some(sid) }

  /** Forgetting a market removes it from every sid exactly when the one it is routed to
      is the only one it is a member of. */
  lemma ForgetExact(evs: seq<Event>, e: nat)
    ensures Nowhere(evs + [Forgetting(e)], e) <==> OnlyRouted(evs, e)
  {
    var after := evs + [Forgetting(e)];
    assert after[..|evs|] == evs;
    forall sid: nat ensures Member(after, sid, e) <==> Member(evs, sid, e) && Route(evs, e) != Some(sid) { }
  }

  // Market 7 moves from sid 1 to sid 2 and is forgotten.
  const MOVED: seq<Event> := [Binding(1, 0, 7), Control(1, 0, 1), Binding(2, 0, 7), Forgetting(7)]

  /** A run in which it is not: the market is forgotten, and a loss on its old sid makes a
      book for it again, invalid, and asks for it. */
  lemma ForgottenComesBack()
    ensures 7 !in HandleAll(EMPTY, MOVED).books && Route(MOVED, 7) == None && Member(MOVED, 1, 7)
    ensures var m' := HandleAll(EMPTY, MOVED + [Control(1, 0, 3)]);
      7 in m'.books && !m'.books[7].valid && Named(7, m'.requests, 0)
  {
    var ev := Control(1, 0, 3);
    var one, two, three := MOVED[..1], MOVED[..2], MOVED[..3];
    assert three[..2] == two && two[..1] == one && one[..0] == [];
    assert Member(one, 1, 7) && Member(two, 1, 7) && Member(three, 1, 7) && Route(three, 7) == Some(2);
    assert Expects(one, 1) == None;
    assert Expects(two, 1) == Some(2);
    assert Expects(three, 1) == Some(2);
    assert Expects(MOVED, 1) == Some(2);
    ControlExact(MOVED, ev);
    assert (MOVED + [ev])[..4] == MOVED;
    var m' := HandleAll(EMPTY, MOVED + [ev]);
    assert 7 in m'.requests[|m'.requests| - 1].markets;
  }
}
