/**
 The classes of include/kalshi/orderbook.hpp with their fields and loops. The manager's
 maps own their books and streams, so the entries are values here.
 */
module BookManager {

  import opened Books

  class OrderBook {
    var yes: Levels
    var no: Levels
    var lastSeq: nat
    var valid: bool

    ghost function View(): Book
      reads this
    {
      Book(yes, no, lastSeq, valid)
    }

    constructor ()
      ensures View() == BLANK
    {
      yes, no, lastSeq, valid := map[], map[], 0, false;
    }

    method LoadSnapshot(yesLevels: seq<Level>, noLevels: seq<Level>, seqno: nat)
      modifies this
      ensures View() == Loaded(yesLevels, noLevels, seqno)
      ensures valid && lastSeq == seqno && forall p :: Rests(yes, p, SizeIn(yesLevels, p)) && Rests(no, p, SizeIn(noLevels, p))
    {
      forall p ensures Rests(LoadedSide(yesLevels), p, SizeIn(yesLevels, p)) && Rests(LoadedSide(noLevels), p, SizeIn(noLevels, p)) {
        LoadedExact(yesLevels, p);
        LoadedExact(noLevels, p);
      }
      yes := LoadSide(yesLevels);
      no := LoadSide(noLevels);
      lastSeq, valid := seqno, true;
    }

    method Apply(side: Side, price: int, delta: int, seqno: nat) returns (r: ApplyResult)
      modifies this
      ensures (View(), r) == ApplyDelta(old(View()), side, price, delta, seqno)
      ensures Applied(old(View()), side, price, delta, seqno, View(), r)
    {
      ApplyExact(View(), side, price, delta, seqno);
      if !valid { return NeedResync; }
      var book := if side == Yes then yes else no;
      var next := SizeAt(book, price) + delta;
      if next < 0 {
        valid := false;
        return Invalid;
      }
      book := if next == 0 then book - {price} else book[price := next];
      if side == Yes { yes := book; } else { no := book; }
      lastSeq := seqno;
      return Ok;
    }

    method Invalidate()
      modifies this
      ensures View() == old(View()).(valid := false)
    {
      valid := false;
    }
  }

  method LoadSide(list: seq<Level>) returns (l: Levels)
    ensures l == LoadedSide(list)
  {
    l := map[];
    for i := 0 to |list|
      invariant l == LoadedSide(list[..i])
    {
      assert list[..i + 1][..i] == list[..i];
      if list[i].size > 0 { l := l[list[i].price := list[i].size]; }
    }
    assert list[..|list|] == list;
  }

  function OneDown(books: map<nat, Book>, e: nat): map<nat, Book> {
    books[e := (if e in books then books[e] else BLANK).(valid := false)]
  }

  lemma InvalidateMore(books: map<nat, Book>, done: set<nat>, e: nat)
    ensures Invalidated(books, done + {e}) == OneDown(Invalidated(books, done), e)
  {
  }

  lemma StillAll(done: set<nat>, rest: set<nat>, e: nat)
    requires e in rest
    ensures (done + {e}) + (rest - {e}) == done + rest
  {
  }

  method TakeDown(books: map<nat, Book>, members: set<nat>) returns (down: map<nat, Book>)
    ensures down == Invalidated(books, members)
  {
    down := books;
    var rest := members;
    ghost var done: set<nat> := {};
    NobodyDown(books);
    while rest != {}
      invariant done + rest == members && down == Invalidated(books, done)
      decreases |rest|
    {
      var e :| e in rest;
      InvalidateMore(books, done, e);
      StillAll(done, rest, e);
      down := OneDown(down, e);
      rest, done := rest - {e}, done + {e};
    }
    assert done == members;
  }

  lemma NobodyDown(books: map<nat, Book>)
    ensures Invalidated(books, {}) == books
  {
  }

  class OrderBookManager {
    var streams: map<nat, SidStream>
    var books: map<nat, Book>
    var sidOf: map<nat, nat>
    var resyncs: nat
    var stale: nat
    var droppedInvalid: nat
    var corrupt: nat
    var requests: seq<Request>

    ghost function View(): Manager
      reads this
    {
      Manager(streams, books, sidOf, resyncs, stale, droppedInvalid, corrupt, requests)
    }

    constructor ()
      ensures View() == EMPTY
    {
      streams, books, sidOf, resyncs, stale, droppedInvalid, corrupt, requests := map[], map[], map[], 0, 0, 0, 0, [];
    }

    // Find the stream of a sid, or start one; the epoch is not looked at otherwise.
    method Find(sid: nat, epoch: nat) returns (s: SidStream)
      modifies this
      ensures s == old(View()).Stream(sid, epoch) && View() == old(View()).(streams := old(streams)[sid := s])
    {
      if sid !in streams { streams := streams[sid := SidStream(sid, epoch, false, 0, {})]; }
      s := streams[sid];
      assert streams == old(streams)[sid := s];
    }

    method BindMarket(sid: nat, epoch: nat, e: nat)
      modifies this
      ensures View() == old(View()).Bind(sid, epoch, e)
    {
      var s := Find(sid, epoch);
      streams := streams[sid := s.(members := s.members + {e})];
      sidOf := sidOf[e := sid];
      assert streams == old(View()).Bind(sid, epoch, e).streams;
    }

    method OnSnapshot(sid: nat, epoch: nat, e: nat, yes: seq<Level>, no: seq<Level>, seqno: nat)
      modifies this
      ensures View() == old(View()).OnSnapshot(sid, epoch, e, yes, no, seqno)
    {
      BindMarket(sid, epoch, e);
      var (s, _) := streams[sid].Observe(seqno);
      streams := streams[sid := s];
      var y := LoadSide(yes);
      var n := LoadSide(no);
      books := books[e := Book(y, n, seqno, true)];
    }

    method OnDelta(sid: nat, epoch: nat, e: nat, side: Side, price: int, delta: int, seqno: nat) returns (r: ApplyResult)
      modifies this
      ensures (View(), r) == old(View()).OnDelta(sid, epoch, e, side, price, delta, seqno)
    {
      var s0 := Find(sid, epoch);
      var (s, result) := s0.Observe(seqno);
      streams := streams[sid := s];
      assert streams == old(streams)[sid := s];
      if result == Gap {
        InvalidateAll(s);
        return NeedResync;
      }
      if result == Stale {
        stale := stale + 1;
        return NeedResync;
      }
      if e !in books { books := books[e := BLANK]; }
      if !books[e].valid {
        droppedInvalid := droppedInvalid + 1;
        assert books == old(books)[e := old(View()).BookOf(e)];
        return NeedResync;
      }
      var (b, a) := ApplyDelta(books[e], side, price, delta, seqno);
      books := books[e := b];
      r := a;
      if r == Invalid {
        corrupt := corrupt + 1;
        requests := requests + [Request(s.sid, {e})];
      }
    }

    method OnControlSeq(sid: nat, epoch: nat, seqno: nat) returns (r: ApplyResult)
      modifies this
      ensures (View(), r) == old(View()).OnControl(sid, epoch, seqno)
    {
      var s0 := Find(sid, epoch);
      var (s, result) := s0.Observe(seqno);
      streams := streams[sid := s];
      assert streams == old(streams)[sid := s];
      if result == Gap {
        InvalidateAll(s);
        return NeedResync;
      }
      return Ok;
    }

    // Take every member down and ask for all of them again.
    method InvalidateAll(s: SidStream)
      modifies this
      ensures View() == old(View()).Lost(s)
    {
      books := TakeDown(books, s.members);
      resyncs := resyncs + 1;
      requests := requests + [Request(s.sid, s.members)];
    }

    method Forget(e: nat)
      modifies this
      ensures View() == old(View()).Forget(e)
    {
      books := books - {e};
      if e in sidOf {
        var sid := sidOf[e];
        if sid in streams { streams := streams[sid := streams[sid].(members := streams[sid].members - {e})]; }
        sidOf := sidOf - {e};
      }
    }

    method Tradeable(e: nat) returns (ok: bool)
      ensures ok == View().Tradeable(e)
    {
      return e in books && books[e].valid;
    }
  }
}
