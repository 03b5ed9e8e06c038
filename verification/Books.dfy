/**
 Order-book replication: the books of include/kalshi/orderbook.hpp and the
 per-subscription sequence streams of include/kalshi/sid_stream.hpp.
 */
module Books {

  datatype Side = Yes | No

  datatype Level = Level(price: int, size: int)

  // Resting size by price; only positive sizes are kept.
  type Levels = map<int, int>

  datatype Book = Book(yes: Levels, no: Levels, lastSeq: nat, valid: bool)
  {
    function Of(side: Side): Levels { if side == Yes then yes else no }

    function With(side: Side, l: Levels): Book { if side == Yes then this.(yes := l) else this.(no := l) }
  }

  // A book nothing has been loaded into.
  const BLANK: Book := Book(map[], map[], 0, false)

  function SizeAt(l: Levels, price: int): int { if price in l then l[price] else 0 }

  // One side of a snapshot: non-positive sizes are dropped, later entries win.
  function LoadedSide(list: seq<Level>): (l: Levels)
    ensures forall p | p in l :: l[p] > 0
    decreases |list|
  {
    if list == [] then map[]
    else
      var l, last := LoadedSide(list[..|list| - 1]), list[|list| - 1];
      if last.size > 0 then l[last.price := last.size] else l
  }

  function Loaded(yes: seq<Level>, no: seq<Level>, seqno: nat): Book {
    Book(LoadedSide(yes), LoadedSide(no), seqno, true)
  }

  // The side after one change that does not drive the level negative.
  function Changed(l: Levels, price: int, delta: int): Levels {
    var next := SizeAt(l, price) + delta;
    if next == 0 then l - {price} else l[price := next]
  }

  datatype ApplyResult = Ok | NeedResync | Invalid

  function ApplyDelta(b: Book, side: Side, price: int, delta: int, seqno: nat): (Book, ApplyResult) {
    if !b.valid then (b, NeedResync)
    else if SizeAt(b.Of(side), price) + delta < 0 then (b.(valid := false), Invalid)
    else (b.With(side, Changed(b.Of(side), price, delta)).(lastSeq := seqno), Ok)
  }

  // ---------------------------------------------------------------- a book is its sizes

  // The side rests exactly this size at this price.
  predicate Rests(l: Levels, price: int, size: int) {
    size >= 0 && (price in l <==> size > 0) && (price in l ==> l[price] == size)
  }

  // What a snapshot's list says rests at a price: its last positive size there.
  function SizeIn(list: seq<Level>, price: int): (size: nat)
    decreases |list|
  {
    if list == [] then 0
    else
      var last := list[|list| - 1];
      if last.price == price && last.size > 0 then last.size else SizeIn(list[..|list| - 1], price)
  }

  /** Loading a side leaves, at every price, the last positive size listed for it. */
  lemma {:induction false} LoadedExact(list: seq<Level>, price: int)
    ensures Rests(LoadedSide(list), price, SizeIn(list, price))
    decreases |list|
  {
    if list != [] { LoadedExact(list[..|list| - 1], price); }
  }

  lemma ChangedRests(l: Levels, price: int, delta: int, q: int, size: int)
    requires Rests(l, q, size) && (q == price ==> size + delta >= 0)
    ensures Rests(Changed(l, price, delta), q, size + if q == price then delta else 0)
  {
  }

  function Other(side: Side): Side { if side == Yes then No else Yes }

  // A change took a book to b' with result r, said price by price.
  ghost predicate Applied(b: Book, side: Side, price: int, delta: int, seqno: nat, b': Book, r: ApplyResult) {
    && (!b.valid ==> r == NeedResync && b' == b)
    && (b.valid ==> forall size | Rests(b.Of(side), price, size) ::
          if size + delta < 0 then r == Invalid && b' == b.(valid := false)
          else r == Ok && b'.valid && b'.lastSeq == seqno && b'.Of(Other(side)) == b.Of(Other(side))
               && Rests(b'.Of(side), price, size + delta)
               && forall q, z | q != price && Rests(b.Of(side), q, z) :: Rests(b'.Of(side), q, z))
  }

  /** A change moves the size at its price by its delta and touches no other price and not
      the other side; it is refused on an invalid book, and takes the book down exactly
      when it would drive the size negative. */
  lemma ApplyExact(b: Book, side: Side, price: int, delta: int, seqno: nat)
    ensures var (b', r) := ApplyDelta(b, side, price, delta, seqno); Applied(b, side, price, delta, seqno, b', r)
  {
  }

  // ---------------------------------------------------------------- one subscription

  datatype SeqResult = First | Contiguous | Gap | Stale

  datatype SidStream = SidStream(sid: nat, epoch: nat, seen: bool, expected: nat, members: set<nat>)
  {
    function Observe(seqno: nat): (SidStream, SeqResult) {
      if !seen then (this.(seen := true, expected := seqno + 1), First)
      else if seqno == expected then (this.(expected := expected + 1), Contiguous)
      else if seqno < expected then (this, Stale)
      else (this.(expected := seqno + 1), Gap)
    }
  }

  // ---------------------------------------------------------------- the manager

  // What the resync handler was asked for.
  datatype Request = Request(sid: nat, markets: set<nat>)

  datatype Manager = Manager(
    streams: map<nat, SidStream>, books: map<nat, Book>, sidOf: map<nat, nat>,
    resyncs: nat, stale: nat, droppedInvalid: nat, corrupt: nat, requests: seq<Request>)
  {
    // The stream of a sid; the epoch only matters when there is none yet.
    function Stream(sid: nat, epoch: nat): SidStream {
      if sid in streams then streams[sid] else SidStream(sid, epoch, false, 0, {})
    }

    function BookOf(e: nat): Book { if e in books then books[e] else BLANK }

    predicate Tradeable(e: nat) { e in books && books[e].valid }

    function Bind(sid: nat, epoch: nat, e: nat): Manager {
      var s := Stream(sid, epoch);
      this.(streams := streams[sid := s.(members := s.members + {e})], sidOf := sidOf[e := sid])
    }

    function OnSnapshot(sid: nat, epoch: nat, e: nat, yes: seq<Level>, no: seq<Level>, seqno: nat): Manager {
      var m := Bind(sid, epoch, e);
      m.(streams := m.streams[sid := m.streams[sid].Observe(seqno).0], books := books[e := Loaded(yes, no, seqno)])
    }

    // A gap: every member goes invalid, and a resync of all of them is requested.
    function Lost(s: SidStream): Manager {
      this.(books := Invalidated(books, s.members), resyncs := resyncs + 1, requests := requests + [Request(s.sid, s.members)])
    }

    function OnDelta(sid: nat, epoch: nat, e: nat, side: Side, price: int, delta: int, seqno: nat): (Manager, ApplyResult) {
      var (s, r) := Stream(sid, epoch).Observe(seqno);
      var m := this.(streams := streams[sid := s]);
      if r == Gap then (m.Lost(s), NeedResync)
      else if r == Stale then (m.(stale := stale + 1), NeedResync)
      else
        var b := BookOf(e);
        if !b.valid then (m.(books := books[e := b], droppedInvalid := droppedInvalid + 1), NeedResync)
        else
          var (b', a) := ApplyDelta(b, side, price, delta, seqno);
          var m' := m.(books := books[e := b']);
          (if a == Invalid then m'.(corrupt := corrupt + 1, requests := requests + [Request(s.sid, {e})]) else m', a)
    }

    function OnControl(sid: nat, epoch: nat, seqno: nat): (Manager, ApplyResult) {
      var (s, r) := Stream(sid, epoch).Observe(seqno);
      var m := this.(streams := streams[sid := s]);
      if r == Gap then (m.Lost(s), NeedResync) else (m, Ok)
    }

    function Forget(e: nat): Manager {
      var m := this.(books := books - {e});
      if e !in sidOf then m
      else
        var sid := sidOf[e];
        m.(sidOf := sidOf - {e},
           streams := if sid in streams then streams[sid := streams[sid].(members := streams[sid].members - {e})] else streams)
    }
  }

  // Members without a book get an invalid one.
  function Invalidated(books: map<nat, Book>, members: set<nat>): map<nat, Book> {
    map e | e in books.Keys + members ::
      if e in members then (if e in books then books[e] else BLANK).(valid := false) else books[e]
  }

  const EMPTY: Manager := Manager(map[], map[], map[], 0, 0, 0, 0, [])

  // Only positive sizes are ever held.
  ghost predicate Positive(m: Manager) {
    forall e, side, p | e in m.books && p in m.books[e].Of(side) :: m.books[e].Of(side)[p] > 0
  }

  // ---------------------------------------------------------------- after a gap

  datatype Event =
    | Binding(sid: nat, epoch: nat, e: nat)
    | Snapshot(sid: nat, epoch: nat, e: nat, yes: seq<Level>, no: seq<Level>, seqno: nat)
    | Delta(sid: nat, epoch: nat, e: nat, side: Side, price: int, delta: int, seqno: nat)
    | Control(sid: nat, epoch: nat, seqno: nat)
    | Forgetting(e: nat)

  function Handle(m: Manager, ev: Event): Manager {
    match ev
    case Binding(sid, epoch, e) => m.Bind(sid, epoch, e)
    case Snapshot(sid, epoch, e, yes, no, seqno) => m.OnSnapshot(sid, epoch, e, yes, no, seqno)
    case Delta(sid, epoch, e, side, price, delta, seqno) => m.OnDelta(sid, epoch, e, side, price, delta, seqno).0
    case Control(sid, epoch, seqno) => m.OnControl(sid, epoch, seqno).0
    case Forgetting(e) => m.Forget(e)
  }

  function HandleAll(m: Manager, evs: seq<Event>): Manager
    decreases |evs|
  {
    if evs == [] then m else Handle(HandleAll(m, evs[..|evs| - 1]), evs[|evs| - 1])
  }

  lemma HandlePositive(m: Manager, ev: Event)
    requires Positive(m)
    ensures Positive(Handle(m, ev))
  {
    var m' := Handle(m, ev);
    forall e, side, p | e in m'.books && p in m'.books[e].Of(side) ensures m'.books[e].Of(side)[p] > 0 {
      assert e in m.books && p in m.books[e].Of(side) ==> m.books[e].Of(side)[p] > 0;
    }
  }

  /** In every run books only ever hold positive sizes. */
  lemma {:induction false} RunPositive(evs: seq<Event>)
    ensures Positive(HandleAll(EMPTY, evs))
    decreases |evs|
  {
    if evs != [] {
      RunPositive(evs[..|evs| - 1]);
      HandlePositive(HandleAll(EMPTY, evs[..|evs| - 1]), evs[|evs| - 1]);
    }
  }

  // This delta or control message reveals that messages of its sid were lost.
  predicate Reveals(m: Manager, ev: Event) {
    (ev.Delta? || ev.Control?) && m.Stream(ev.sid, ev.epoch).Observe(ev.seqno).1 == Gap
  }

  lemma StaysDown(m: Manager, ev: Event, e: nat)
    requires !m.Tradeable(e) && !(ev.Snapshot? && ev.e == e)
    ensures !Handle(m, ev).Tradeable(e)
  {
  }

  lemma {:induction false} StaysDownLong(m: Manager, evs: seq<Event>, e: nat)
    requires !m.Tradeable(e) && forall i | 0 <= i < |evs| :: !(evs[i].Snapshot? && evs[i].e == e)
    ensures !HandleAll(m, evs).Tradeable(e)
    decreases |evs|
  {
    if evs != [] {
      StaysDownLong(m, evs[..|evs| - 1], e);
      StaysDown(HandleAll(m, evs[..|evs| - 1]), evs[|evs| - 1], e);
    }
  }

  lemma GapTakesDown(m: Manager, ev: Event, e: nat)
    requires Reveals(m, ev) && e in m.Stream(ev.sid, ev.epoch).members
    ensures !Handle(m, ev).Tradeable(e)
  {
  }

  /** After a gap revealed by a delta or a control message, no market that was a member
      of that sid is tradeable again before its own next snapshot, whatever messages,
      bindings and forgets come in between. */
  lemma DownUntilSnapshot(before: seq<Event>, ev: Event, after: seq<Event>, e: nat)
    requires var m := HandleAll(EMPTY, before); Reveals(m, ev) && e in m.Stream(ev.sid, ev.epoch).members
    requires forall i | 0 <= i < |after| :: !(after[i].Snapshot? && after[i].e == e)
    ensures !HandleAll(EMPTY, before + [ev] + after).Tradeable(e)
  {
    var m := HandleAll(EMPTY, before);
    GapTakesDown(m, ev, e);
    StaysDownLong(Handle(m, ev), after, e);
    assert (before + [ev])[..|before|] == before;
    Compose(EMPTY, before + [ev], after);
  }

  lemma {:induction false} Compose(m: Manager, a: seq<Event>, b: seq<Event>)
    ensures HandleAll(m, a + b) == HandleAll(HandleAll(m, a), b)
    decreases |b|
  {
    if b == [] {
      assert a + b == a;
    } else {
      Compose(m, a, b[..|b| - 1]);
      assert (a + b)[..|a + b| - 1] == a + b[..|b| - 1];
    }
  }
}
