/**
 The books against the exchange: each subscription (sid) is a numbered feed of snapshots,
 deltas and control messages, delivered in order over a channel that may lose any of them.
 */
module Replication {

  import opened Books

  // ---------------------------------------------------------------- the exchange

  datatype Msg =
    | Snap(e: nat, yes: seq<Level>, no: seq<Level>)
    | Change(e: nat, side: Side, price: int, delta: int)
    | Ctl

  // Message i of the feed carries sequence number base + i; initial holds the sizes that
  // rest in its markets before the first message, by market, side and price.
  datatype Feed = Feed(base: nat, initial: map<(nat, Side, int), nat>, log: seq<Msg>)

  // What rests at the exchange once the first n messages have been sent: the initial size
  // and every change made there since.
  function Size(f: Feed, e: nat, side: Side, price: int, n: nat): int
    requires n <= |f.log|
  {
    if n == 0 then if (e, side, price) in f.initial then f.initial[(e, side, price)] else 0
    else
      var msg := f.log[n - 1];
      Size(f, e, side, price, n - 1) + if msg.Change? && (msg.e, msg.side, msg.price) == (e, side, price) then msg.delta else 0
  }

  // Snapshots carry the exchange's book, and its sizes never go negative.
  ghost predicate HonestAt(f: Feed, i: nat)
    requires i < |f.log|
  {
    match f.log[i]
    case Snap(e, yes, no) => forall p :: SizeIn(yes, p) == Size(f, e, Yes, p, i) && SizeIn(no, p) == Size(f, e, No, p, i)
    case Change(e, side, price, delta) => Size(f, e, side, price, i) + delta >= 0
    case Ctl => true
  }

  ghost predicate Honest(ex: Exchange) {
    forall s, i | s in ex && 0 <= i < |ex[s].log| :: HonestAt(ex[s], i)
  }

  // One feed per sid, for good: sids are not reused.
  type Exchange = map<nat, Feed>

  // ---------------------------------------------------------------- the client

  // src: which sid delivered the market's last snapshot; next: how many messages of the
  // sid's feed are behind us, received or lost.
  datatype World = World(m: Manager, src: map<nat, nat>, next: map<nat, nat>)

  function NextOf(w: World, sid: nat): nat { if sid in w.next then w.next[sid] else 0 }

  datatype Input = Recv(sid: nat, epoch: nat, i: nat) | BindTo(sid: nat, epoch: nat, e: nat) | Drop(e: nat)

  function EventOf(ex: Exchange, inp: Input): Event
    requires inp.Recv? ==> inp.sid in ex && inp.i < |ex[inp.sid].log|
  {
    match inp
    case BindTo(sid, epoch, e) => Binding(sid, epoch, e)
    case Drop(e) => Forgetting(e)
    case Recv(sid, epoch, i) =>
      var n := ex[sid].base + i;
      match ex[sid].log[i]
      case Snap(e, yes, no) => Snapshot(sid, epoch, e, yes, no, n)
      case Change(e, side, price, delta) => Delta(sid, epoch, e, side, price, delta, n)
      case Ctl => Control(sid, epoch, n)
  }

  // The channel: messages of a sid arrive in order, any may be missing.
  predicate InOrder(ex: Exchange, w: World, inp: Input) {
    inp.Recv? ==> inp.sid in ex && NextOf(w, inp.sid) <= inp.i < |ex[inp.sid].log|
  }

  // A snapshot is the first to reveal a loss on its sid only while no other book of the
  // sid is tradeable, such as when a second loss hits a resync.
  predicate HarmlessSnapshot(ex: Exchange, w: World, inp: Input)
    requires InOrder(ex, w, inp)
  {
    inp.Recv? && ex[inp.sid].log[inp.i].Snap? && inp.sid in w.next && inp.i != w.next[inp.sid] ==>
      forall e | e in w.src && w.src[e] == inp.sid && w.m.Tradeable(e) :: e == ex[inp.sid].log[inp.i].e
  }

  // A change for a valid book comes on the sid that delivered its snapshot.
  predicate OwnSid(ex: Exchange, w: World, inp: Input)
    requires InOrder(ex, w, inp)
  {
    inp.Recv? ==>
      var msg := ex[inp.sid].log[inp.i];
      msg.Change? && w.m.Tradeable(msg.e) && msg.e in w.src ==> w.src[msg.e] == inp.sid
  }

  predicate Allowed(ex: Exchange, w: World, inp: Input) {
    InOrder(ex, w, inp) && HarmlessSnapshot(ex, w, inp) && OwnSid(ex, w, inp)
  }

  function Take(ex: Exchange, w: World, inp: Input): World
    requires InOrder(ex, w, inp)
  {
    var m := Handle(w.m, EventOf(ex, inp));
    match inp
    case Recv(sid, _, i) =>
      var msg := ex[sid].log[i];
      World(m, if msg.Snap? then w.src[msg.e := sid] else w.src, w.next[sid := i + 1])
    case _ => w.(m := m)
  }

  const START: World := World(EMPTY, map[], map[])

  // Every input of the run is allowed where it occurs.
  predicate Fair(ex: Exchange, inputs: seq<Input>)
    decreases |inputs|, 0
  {
    inputs == [] ||
    (var k := |inputs| - 1; Fair(ex, inputs[..k]) && Allowed(ex, After(ex, inputs[..k]), inputs[k]))
  }

  function After(ex: Exchange, inputs: seq<Input>): World
    requires Fair(ex, inputs)
    decreases |inputs|, 1
  {
    if inputs == [] then START else Take(ex, After(ex, inputs[..|inputs| - 1]), inputs[|inputs| - 1])
  }

  // ---------------------------------------------------------------- the invariant

  // The streams count what has been received.
  ghost predicate Counting(ex: Exchange, w: World) {
    && (forall s | s in w.next :: s in ex && w.next[s] <= |ex[s].log|)
    && (forall s | s in w.m.streams :: w.m.streams[s].sid == s && (w.m.streams[s].seen <==> s in w.next))
    && (forall s | s in w.next :: s in w.m.streams && w.m.streams[s].expected == ex[s].base + w.next[s])
  }

  // A valid book belongs to a sid that is being received, and would be told of a gap.
  ghost predicate Owned(w: World, e: nat) {
    e in w.src && w.src[e] in w.next && w.src[e] in w.m.streams && e in w.m.streams[w.src[e]].members
  }

  // The book is the exchange's for market e after n messages.
  ghost predicate Mirrors(b: Book, f: Feed, e: nat, n: nat)
    requires n <= |f.log|
  {
    forall side, p :: Rests(b.Of(side), p, Size(f, e, side, p, n))
  }

  // A valid book is the exchange's book as of the last message counted on its sid.
  ghost predicate Synced(ex: Exchange, w: World, e: nat)
    requires Owned(w, e) && w.m.Tradeable(e)
  {
    var s := w.src[e];
    s in ex && w.next[s] <= |ex[s].log| && Mirrors(w.m.books[e], ex[s], e, w.next[s])
  }

  ghost predicate InSync(ex: Exchange, w: World) {
    forall e | w.m.Tradeable(e) :: Owned(w, e) && Synced(ex, w, e)
  }

  ghost predicate Inv(ex: Exchange, w: World) { Counting(ex, w) && InSync(ex, w) }

  // The messages between leave every size of market e as it was.
  ghost predicate Alike(f: Feed, e: nat, i: nat, j: nat)
    requires i <= |f.log| && j <= |f.log|
  {
    forall side, p :: Size(f, e, side, p, i) == Size(f, e, side, p, j)
  }

  lemma MirrorsOn(b: Book, f: Feed, e: nat, i: nat, j: nat)
    requires i <= |f.log| && j <= |f.log| && Mirrors(b, f, e, i) && Alike(f, e, i, j)
    ensures Mirrors(b, f, e, j)
  {
    forall side, p ensures Rests(b.Of(side), p, Size(f, e, side, p, j)) {
      assert Rests(b.Of(side), p, Size(f, e, side, p, i));
    }
  }

  lemma MirrorsNext(b: Book, f: Feed, e: nat, i: nat)
    requires i < |f.log| && !(f.log[i].Change? && f.log[i].e == e)
    ensures Alike(f, e, i, i + 1) && (Mirrors(b, f, e, i) ==> Mirrors(b, f, e, i + 1))
  {
    if Mirrors(b, f, e, i) { MirrorsOn(b, f, e, i, i + 1); }
  }

  lemma LoadedMirrors(f: Feed, i: nat, seqno: nat)
    requires i < |f.log| && f.log[i].Snap? && HonestAt(f, i)
    ensures Mirrors(Loaded(f.log[i].yes, f.log[i].no, seqno), f, f.log[i].e, i + 1)
  {
    var b := Loaded(f.log[i].yes, f.log[i].no, seqno);
    forall side, p ensures Rests(b.Of(side), p, Size(f, f.log[i].e, side, p, i)) {
      LoadedExact(f.log[i].yes, p);
      LoadedExact(f.log[i].no, p);
    }
    MirrorsNext(b, f, f.log[i].e, i);
  }

  lemma ChangedMirrors(b: Book, f: Feed, i: nat, seqno: nat)
    requires i < |f.log| && f.log[i].Change? && HonestAt(f, i) && b.valid && Mirrors(b, f, f.log[i].e, i)
    ensures Mirrors(ApplyDelta(b, f.log[i].side, f.log[i].price, f.log[i].delta, seqno).0, f, f.log[i].e, i + 1)
  {
    var msg, n := f.log[i], i + 1;
    var b' := ApplyDelta(b, msg.side, msg.price, msg.delta, seqno).0;
    assert Rests(b.Of(msg.side), msg.price, Size(f, msg.e, msg.side, msg.price, i));
    forall side, p ensures Rests(b'.Of(side), p, Size(f, msg.e, side, p, n)) {
      assert Rests(b.Of(side), p, Size(f, msg.e, side, p, i));
      if side == msg.side { ChangedRests(b.Of(side), msg.price, msg.delta, p, Size(f, msg.e, side, p, i)); }
    }
  }

  lemma LocalInv(ex: Exchange, w: World, inp: Input)
    requires Inv(ex, w) && !inp.Recv?
    ensures Inv(ex, Take(ex, w, inp))
  {
    var w' := Take(ex, w, inp);
    forall e | w'.m.Tradeable(e) ensures Owned(w', e) && Synced(ex, w', e) {
      assert w.m.Tradeable(e) && Owned(w, e) && Synced(ex, w, e);
    }
  }

  // Receiving a message moves its own sid's count and nobody else's.
  lemma RecvStreams(ex: Exchange, w: World, inp: Input)
    requires Counting(ex, w) && inp.Recv? && InOrder(ex, w, inp)
    ensures var streams, n := Handle(w.m, EventOf(ex, inp)).streams, ex[inp.sid].base + inp.i;
      && inp.sid in streams && streams == w.m.streams[inp.sid := streams[inp.sid]]
      && streams[inp.sid].seen && streams[inp.sid].expected == n + 1 && streams[inp.sid].sid == inp.sid
  {
    var s, n := w.m.Stream(inp.sid, inp.epoch), ex[inp.sid].base + inp.i;
    assert s.Observe(n).0 == s.(seen := true, expected := n + 1);
    match ex[inp.sid].log[inp.i]
    case Snap(e, yes, no) =>
      assert w.m.Bind(inp.sid, inp.epoch, e).streams[inp.sid] == s.(members := s.members + {e});
    case Change(_, _, _, _) =>
    case Ctl =>
  }

  lemma RecvCounting(ex: Exchange, w: World, inp: Input)
    requires Counting(ex, w) && inp.Recv? && InOrder(ex, w, inp)
    ensures Counting(ex, Take(ex, w, inp))
  {
    RecvStreams(ex, w, inp);
    var w' := Take(ex, w, inp);
    assert w'.next == w.next[inp.sid := inp.i + 1] && w'.m.streams == Handle(w.m, EventOf(ex, inp)).streams;
  }

  lemma SnapInv(ex: Exchange, w: World, inp: Input)
    requires Inv(ex, w) && Honest(ex) && inp.Recv? && Allowed(ex, w, inp) && ex[inp.sid].log[inp.i].Snap?
    ensures InSync(ex, Take(ex, w, inp))
  {
    var w', f := Take(ex, w, inp), ex[inp.sid];
    var msg := f.log[inp.i];
    assert HonestAt(f, inp.i);
    LoadedMirrors(f, inp.i, f.base + inp.i);
    forall e | w'.m.Tradeable(e) ensures Owned(w', e) && Synced(ex, w', e) {
      if e != msg.e {
        assert w.m.Tradeable(e) && Owned(w, e) && Synced(ex, w, e);
        MirrorsNext(w.m.books[e], f, e, inp.i);
      }
    }
  }

  // The message reveals a loss: every book of the sid goes down.
  lemma GapInv(ex: Exchange, w: World, inp: Input)
    requires Inv(ex, w) && inp.Recv? && InOrder(ex, w, inp) && Reveals(w.m, EventOf(ex, inp))
    ensures InSync(ex, Take(ex, w, inp))
  {
    var w' := Take(ex, w, inp);
    forall e | w'.m.Tradeable(e) ensures Owned(w', e) && Synced(ex, w', e) {
      assert w.m.Tradeable(e) && Owned(w, e) && Synced(ex, w, e);
    }
  }

  lemma ControlInv(ex: Exchange, w: World, inp: Input)
    requires Inv(ex, w) && inp.Recv? && InOrder(ex, w, inp) && ex[inp.sid].log[inp.i].Ctl? && !Reveals(w.m, EventOf(ex, inp))
    ensures InSync(ex, Take(ex, w, inp))
  {
    var w', f := Take(ex, w, inp), ex[inp.sid];
    forall e | w'.m.Tradeable(e) ensures Owned(w', e) && Synced(ex, w', e) {
      assert w.m.Tradeable(e) && Owned(w, e) && Synced(ex, w, e);
      MirrorsNext(w.m.books[e], f, e, inp.i);
    }
  }

  // Without a loss, a change reaches its market's book and no other.
  lemma ChangeBooks(ex: Exchange, w: World, inp: Input)
    requires Counting(ex, w) && inp.Recv? && InOrder(ex, w, inp) && ex[inp.sid].log[inp.i].Change? && !Reveals(w.m, EventOf(ex, inp))
    ensures var msg := ex[inp.sid].log[inp.i];
      Handle(w.m, EventOf(ex, inp)).books
      == w.m.books[msg.e := ApplyDelta(w.m.BookOf(msg.e), msg.side, msg.price, msg.delta, ex[inp.sid].base + inp.i).0]
  {
  }

  lemma OneChangeInv(ex: Exchange, w: World, inp: Input, w': World, e: nat)
    requires Inv(ex, w) && Honest(ex) && inp.Recv? && InOrder(ex, w, inp) && OwnSid(ex, w, inp) && ex[inp.sid].log[inp.i].Change?
    requires w'.src == w.src && w'.next == w.next[inp.sid := inp.i + 1] && w'.m.Tradeable(e)
    requires w'.m.streams == w.m.streams[inp.sid := w.m.Stream(inp.sid, inp.epoch).Observe(ex[inp.sid].base + inp.i).0]
    requires inp.sid in w.next ==> inp.i == w.next[inp.sid]
    requires var msg := ex[inp.sid].log[inp.i];
      w'.m.books == w.m.books[msg.e := ApplyDelta(w.m.BookOf(msg.e), msg.side, msg.price, msg.delta, ex[inp.sid].base + inp.i).0]
    ensures Owned(w', e) && Synced(ex, w', e)
  {
    var f := ex[inp.sid];
    assert HonestAt(f, inp.i);
    assert w.m.Tradeable(e) && Owned(w, e) && Synced(ex, w, e);
    if e == f.log[inp.i].e { ChangedMirrors(w.m.books[e], f, inp.i, f.base + inp.i); } else { MirrorsNext(w.m.books[e], f, e, inp.i); }
  }

  lemma ChangeInv(ex: Exchange, w: World, inp: Input)
    requires Inv(ex, w) && Honest(ex) && inp.Recv? && Allowed(ex, w, inp) && ex[inp.sid].log[inp.i].Change? && !Reveals(w.m, EventOf(ex, inp))
    ensures InSync(ex, Take(ex, w, inp))
  {
    var w' := Take(ex, w, inp);
    ChangeBooks(ex, w, inp);
    forall e | w'.m.Tradeable(e) ensures Owned(w', e) && Synced(ex, w', e) { OneChangeInv(ex, w, inp, w', e); }
  }

  lemma TakeInv(ex: Exchange, w: World, inp: Input)
    requires Inv(ex, w) && Honest(ex) && Allowed(ex, w, inp)
    ensures Inv(ex, Take(ex, w, inp))
  {
    if inp.Recv? {
      RecvCounting(ex, w, inp);
      if Reveals(w.m, EventOf(ex, inp)) {
        GapInv(ex, w, inp);
      } else {
        match ex[inp.sid].log[inp.i]
        case Snap(_, _, _) => SnapInv(ex, w, inp);
        case Change(_, _, _, _) => ChangeInv(ex, w, inp);
        case Ctl => ControlInv(ex, w, inp);
      }
    } else {
      LocalInv(ex, w, inp);
    }
  }

  lemma {:induction false} RunInv(ex: Exchange, inputs: seq<Input>)
    requires Honest(ex) && Fair(ex, inputs)
    ensures Inv(ex, After(ex, inputs))
    decreases |inputs|
  {
    if inputs != [] {
      RunInv(ex, inputs[..|inputs| - 1]);
      TakeInv(ex, After(ex, inputs[..|inputs| - 1]), inputs[|inputs| - 1]);
    }
  }

  /** Whatever is lost, a tradeable book rests at every price exactly what the exchange
      does, the initial size and all changes since, as of the sequence number before the one its sid expects next, provided sids are not reused, no snapshot is
      the first to reveal a loss while another book of its sid is tradeable, and changes
      come on the sid of the book's snapshot. */
  lemma TradeableMeansCurrent(ex: Exchange, inputs: seq<Input>, e: nat)
    requires Honest(ex) && Fair(ex, inputs) && After(ex, inputs).m.Tradeable(e)
    ensures var w := After(ex, inputs);
      && e in w.src && w.src[e] in ex && w.src[e] in w.m.streams
      && (var f, expected := ex[w.src[e]], w.m.streams[w.src[e]].expected;
          && f.base <= expected <= f.base + |f.log|
          && Mirrors(w.m.books[e], f, e, expected - f.base))
  {
    RunInv(ex, inputs);
    assert Owned(After(ex, inputs), e) && Synced(ex, After(ex, inputs), e);
  }

  // ---------------------------------------------------------------- why the exclusions are needed

  // What a received snapshot does to the other books of its sid: nothing, although the
  // sid moves on.
  lemma SnapLeavesOthers(ex: Exchange, w: World, inp: Input, e: nat)
    requires Inv(ex, w) && inp.Recv? && InOrder(ex, w, inp) && ex[inp.sid].log[inp.i].Snap? && e != ex[inp.sid].log[inp.i].e
    ensures var w' := Take(ex, w, inp);
      && (w'.m.Tradeable(e) <==> w.m.Tradeable(e))
      && (w.m.Tradeable(e) ==> w'.m.books[e] == w.m.books[e] && Owned(w, e) && Owned(w', e) && w'.src[e] == w.src[e])
      && w'.next == w.next[inp.sid := inp.i + 1]
  {
    if w.m.Tradeable(e) { assert Owned(w, e); }
  }

  lemma SnapshotGapStep(ex: Exchange, w: World, inp: Input)
    requires Inv(ex, w) && Honest(ex) && inp.Recv? && InOrder(ex, w, inp) && ex[inp.sid].log[inp.i].Snap?
    ensures InSync(ex, Take(ex, w, inp)) <==> (forall e | w.m.Tradeable(e) && Skipped(ex, w, inp, e) :: Unmoved(ex, w, inp, e))
  {
    var w', f := Take(ex, w, inp), ex[inp.sid];
    var msg := f.log[inp.i];
    assert HonestAt(f, inp.i);
    forall e | e != msg.e && w.m.Tradeable(e)
      ensures w'.m.Tradeable(e) && Owned(w', e) && (Synced(ex, w', e) <==> (Skipped(ex, w, inp, e) ==> Unmoved(ex, w, inp, e)))
    {
      SnapLeavesOthers(ex, w, inp, e);
      assert Synced(ex, w, e);
      MirrorsNext(w.m.books[e], f, e, inp.i);
      if Skipped(ex, w, inp, e) { MirrorsLater(w.m.books[e], f, e, NextOf(w, inp.sid), inp.i + 1); }
    }
    LoadedMirrors(f, inp.i, f.base + inp.i);
    assert Owned(w', msg.e) && Synced(ex, w', msg.e);
    forall e | w'.m.Tradeable(e) && e != msg.e ensures w.m.Tradeable(e) { SnapLeavesOthers(ex, w, inp, e); }
    if forall e | w.m.Tradeable(e) && Skipped(ex, w, inp, e) :: Unmoved(ex, w, inp, e) {
      forall e | w'.m.Tradeable(e) ensures Owned(w', e) && Synced(ex, w', e) { }
    }
  }

  // Market e is on the message's sid without being its subject.
  predicate Skipped(ex: Exchange, w: World, inp: Input, e: nat)
    requires inp.Recv? && InOrder(ex, w, inp)
  {
    e in w.src && w.src[e] == inp.sid && !(ex[inp.sid].log[inp.i].Snap? && ex[inp.sid].log[inp.i].e == e)
  }

  // The messages skipped over change nothing in market e.
  ghost predicate Unmoved(ex: Exchange, w: World, inp: Input, e: nat)
    requires inp.Recv? && InOrder(ex, w, inp)
  {
    Alike(ex[inp.sid], e, NextOf(w, inp.sid), inp.i)
  }

  // A book left alone is current later exactly if its sizes did not move.
  lemma MirrorsLater(b: Book, f: Feed, e: nat, i: nat, j: nat)
    requires i <= |f.log| && j <= |f.log| && Mirrors(b, f, e, i)
    ensures Mirrors(b, f, e, j) <==> Alike(f, e, i, j)
  {
    if Alike(f, e, i, j) { MirrorsOn(b, f, e, i, j); }
    if Mirrors(b, f, e, j) {
      forall side, p ensures Size(f, e, side, p, i) == Size(f, e, side, p, j) {
        assert Rests(b.Of(side), p, Size(f, e, side, p, i)) && Rests(b.Of(side), p, Size(f, e, side, p, j));
      }
    }
  }

  /** After every allowed run, a snapshot that may reveal a loss keeps the books current
      exactly when the messages it skips over left every other tradeable book of the sid
      as it was. */
  lemma SnapshotGapExact(ex: Exchange, inputs: seq<Input>, inp: Input)
    requires Honest(ex) && Fair(ex, inputs) && inp.Recv? && InOrder(ex, After(ex, inputs), inp) && ex[inp.sid].log[inp.i].Snap?
    ensures var w := After(ex, inputs);
      InSync(ex, Take(ex, w, inp)) <==> (forall e | w.m.Tradeable(e) && Skipped(ex, w, inp, e) :: Unmoved(ex, w, inp, e))
  {
    RunInv(ex, inputs);
    SnapshotGapStep(ex, After(ex, inputs), inp);
  }

  // A change of a current book keeps it current exactly if it changes nothing.
  lemma SameMirrors(b: Book, side: Side, price: int, delta: int, seqno: nat, f: Feed, e: nat, n: nat)
    requires n <= |f.log| && Mirrors(b, f, e, n) && b.valid && SizeAt(b.Of(side), price) + delta >= 0
    ensures Mirrors(ApplyDelta(b, side, price, delta, seqno).0, f, e, n) <==> delta == 0
  {
    var b', size := ApplyDelta(b, side, price, delta, seqno).0, Size(f, e, side, price, n);
    assert Rests(b.Of(side), price, size);
    ChangedRests(b.Of(side), price, delta, price, size);
    if delta == 0 {
      forall side', p ensures Rests(b'.Of(side'), p, Size(f, e, side', p, n)) {
        assert Rests(b.Of(side'), p, Size(f, e, side', p, n));
        if side' == side { ChangedRests(b.Of(side), price, delta, p, Size(f, e, side, p, n)); }
      }
    } else {
      assert !Rests(b'.Of(side), price, size);
    }
  }

  lemma ForeignChangeStep(ex: Exchange, w: World, inp: Input)
    requires Inv(ex, w) && inp.Recv? && InOrder(ex, w, inp) && !Reveals(w.m, EventOf(ex, inp))
    requires var msg := ex[inp.sid].log[inp.i]; msg.Change? && w.m.Tradeable(msg.e) && msg.e in w.src && w.src[msg.e] != inp.sid
    ensures var msg := ex[inp.sid].log[inp.i];
      InSync(ex, Take(ex, w, inp)) <==> msg.delta == 0 || SizeAt(w.m.books[msg.e].Of(msg.side), msg.price) + msg.delta < 0
  {
    var w', f := Take(ex, w, inp), ex[inp.sid];
    var msg := f.log[inp.i];
    var b, src := w.m.books[msg.e], w.src[msg.e];
    assert Owned(w, msg.e) && Synced(ex, w, msg.e);
    RecvStreams(ex, w, inp);
    ChangeBooks(ex, w, inp);
    forall e | e != msg.e && w.m.Tradeable(e) ensures w'.m.Tradeable(e) && Owned(w', e) && Synced(ex, w', e) {
      assert Owned(w, e) && Synced(ex, w, e);
      MirrorsNext(w.m.books[e], f, e, inp.i);
    }
    if w'.m.Tradeable(msg.e) {
      assert Owned(w', msg.e);
      SameMirrors(b, msg.side, msg.price, msg.delta, f.base + inp.i, ex[src], msg.e, w.next[src]);
    }
  }

  // A change, without a gap, for a tradeable book on a sid other than its snapshot's.
  predicate Foreign(ex: Exchange, w: World, inp: Input) {
    && inp.Recv? && InOrder(ex, w, inp) && !Reveals(w.m, EventOf(ex, inp))
    && var msg := ex[inp.sid].log[inp.i]; msg.Change? && w.m.Tradeable(msg.e) && msg.e in w.src && w.src[msg.e] != inp.sid
  }

  /** After every allowed run, a change for a tradeable book that arrives, without a gap,
      on a sid other than the one of its snapshot keeps the books current if and only if
      it changes nothing, or takes the book down by driving a level negative. */
  lemma ForeignChangeExact(ex: Exchange, inputs: seq<Input>, inp: Input)
    requires Honest(ex) && Fair(ex, inputs) && Foreign(ex, After(ex, inputs), inp)
    ensures var w, msg := After(ex, inputs), ex[inp.sid].log[inp.i];
      InSync(ex, Take(ex, w, inp)) <==> msg.delta == 0 || SizeAt(w.m.books[msg.e].Of(msg.side), msg.price) + msg.delta < 0
  {
    RunInv(ex, inputs);
    ForeignChangeStep(ex, After(ex, inputs), inp);
  }

  // ---------------------------------------------------------------- reused sids

  // Sequenced messages of a new connection whose numbers the old one has passed.
  predicate Old(m: Manager, sid: nat, ev: Event) {
    sid in m.streams && m.streams[sid].seen && (ev.Delta? || ev.Control?) && ev.sid == sid && ev.seqno < m.streams[sid].expected
  }

  /** A stream outlives its connection: when a sid is reused, deltas of the new
      connection are ignored until they catch up with the old numbering, whatever epoch
      they carry, while the book loaded by the new snapshot stays tradeable. */
  lemma {:induction false} ReusedSidFreezes(m: Manager, sid: nat, evs: seq<Event>)
    requires forall i | 0 <= i < |evs| :: Old(m, sid, evs[i])
    ensures HandleAll(m, evs).books == m.books && HandleAll(m, evs).streams == m.streams
    decreases |evs|
  {
    if evs != [] {
      ReusedSidFreezes(m, sid, evs[..|evs| - 1]);
      var m1, ev := HandleAll(m, evs[..|evs| - 1]), evs[|evs| - 1];
      assert Old(m, sid, ev);
      assert m1.streams[sid := m1.streams[sid]] == m1.streams;
    }
  }

  // A sequenced message of this sid with this number.
  predicate Carries(ev: Event, sid: nat, q: nat) { (ev.Snapshot? || ev.Delta? || ev.Control?) && ev.sid == sid && ev.seqno == q }

  predicate Expecting(m: Manager, sid: nat, x: nat) { sid in m.streams && m.streams[sid].seen && m.streams[sid].expected == x }

  function Max(a: nat, b: nat): nat { if a >= b then a else b }

  ghost predicate Run(evs: seq<Event>, sid: nat, k: nat) { forall i | 0 <= i < |evs| :: Carries(evs[i], sid, k + i) }

  // The messages of a new connection on an old stream, numbered k, k + 1 and so on.
  lemma {:induction false} Renumbered(m: Manager, sid: nat, x: nat, k: nat, evs: seq<Event>)
    requires Expecting(m, sid, x) && evs != [] && Run(evs, sid, k)
    ensures Expecting(HandleAll(m, evs), sid, Max(k + |evs|, x))
    decreases |evs|
  {
    var n := |evs| - 1;
    assert Run(evs[..n], sid, k) && Carries(evs[n], sid, k + n);
    if n > 0 { Renumbered(m, sid, x, k, evs[..n]); }
    CountsTo(HandleAll(m, evs[..n]), evs[n], sid, k + n, if n > 0 then Max(k + n, x) else x);
  }

  lemma CountsTo(m: Manager, ev: Event, sid: nat, q: nat, x: nat)
    requires Expecting(m, sid, x) && Carries(ev, sid, q)
    ensures Expecting(Handle(m, ev), sid, Max(q + 1, x))
  {
  }

  /** On a reused sid whose old connection left the stream expecting x, after the new
      connection's first messages, numbered from k without a loss, its next delta reaches
      a tradeable book if and only if its number is at least x; below that it is dropped
      as stale and no book changes. */
  lemma ReusedSidExact(m: Manager, sid: nat, x: nat, k: nat, evs: seq<Event>, d: Event)
    requires Expecting(m, sid, x) && evs != [] && Run(evs, sid, k)
    requires d.Delta? && Carries(d, sid, k + |evs|) && HandleAll(m, evs).Tradeable(d.e)
    ensures var m1 := HandleAll(m, evs);
      var (m2, r) := m1.OnDelta(d.sid, d.epoch, d.e, d.side, d.price, d.delta, d.seqno);
      && (r != NeedResync <==> d.seqno >= x)
      && (d.seqno >= x ==> m2.books == m1.books[d.e := ApplyDelta(m1.books[d.e], d.side, d.price, d.delta, d.seqno).0])
      && (d.seqno < x ==> m2.books == m1.books)
  {
    Renumbered(m, sid, x, k, evs);
  }

  // ---------------------------------------------------------------- three runs

  const ONE: seq<Level> := [Level(50, 1)]

  lemma OneLoads()
    ensures LoadedSide([]) == map[] && LoadedSide(ONE) == map[50 := 1] && Changed(map[50 := 1], 50, 1) == map[50 := 2]
  {
    assert ONE[..0] == [];
    assert map[50 := 1][50 := 2] == map[50 := 2];
  }

  // Message 1, a change to market 7, is lost; the snapshot of market 8 reveals it.
  const SKIPPING: Exchange :=
    map[1 := Feed(1, map[(7, Yes, 50) := 1], [Snap(7, ONE, []), Change(7, Yes, 50, 1), Snap(8, [], [])])]

  lemma SnapshotGapLeavesStaleBook()
    ensures Honest(SKIPPING)
    ensures var w1 := Take(SKIPPING, START, Recv(1, 0, 0));
      InOrder(SKIPPING, w1, Recv(1, 0, 2)) && var w := Take(SKIPPING, w1, Recv(1, 0, 2));
      && w.m.Tradeable(7) && w.m.streams[1].expected == 4
      && Rests(w.m.books[7].yes, 50, 1) && Size(SKIPPING[1], 7, Yes, 50, 3) == 2
  {
    OneLoads();
    var f := SKIPPING[1];
    assert ONE[..0] == [];
    assert HonestAt(f, 0) && HonestAt(f, 1);
    assert HonestAt(f, 2) by {
      forall side, p ensures Size(f, 8, side, p, 2) == Size(f, 8, side, p, 1) == Size(f, 8, side, p, 0) == 0 { }
    }
    assert Size(f, 7, Yes, 50, 2) == Size(f, 7, Yes, 50, 1) + 1;
  }

  // Market 7 moves from sid 1 to sid 2; the snapshot on sid 2 is lost and its first
  // change is applied to the book of sid 1.
  const MOVING: Exchange := map[
    1 := Feed(1, map[(7, Yes, 50) := 1], [Snap(7, ONE, [])]),
    2 := Feed(1, map[(7, Yes, 50) := 2], [Snap(7, [Level(50, 2)], []), Change(7, Yes, 50, 1)])]

  lemma MovingHonest()
    ensures Honest(MOVING)
  {
    assert ONE[..0] == [] && [Level(50, 2)][..0] == [];
    assert HonestAt(MOVING[1], 0) && HonestAt(MOVING[2], 0) && HonestAt(MOVING[2], 1);
  }

  lemma ForeignChangeLeavesWrongBook()
    ensures Honest(MOVING)
    ensures var w1 := Take(MOVING, START, Recv(1, 0, 0));
      InOrder(MOVING, w1, Recv(2, 0, 1)) && var w := Take(MOVING, w1, Recv(2, 0, 1));
      && w.m.Tradeable(7) && Rests(w.m.books[7].yes, 50, 2)
      && Size(MOVING[1], 7, Yes, 50, 1) == 1 && Size(MOVING[2], 7, Yes, 50, 2) == 3
  {
    OneLoads();
    MovingHonest();
    assert Size(MOVING[2], 7, Yes, 50, 2) == Size(MOVING[2], 7, Yes, 50, 1) + 1;
  }

  // A second connection reuses sid 1: nothing is lost, but its change is ignored.
  lemma ReusedSidLeavesStaleBook()
    ensures var m := HandleAll(EMPTY, [Snapshot(1, 1, 7, ONE, [], 1), Control(1, 1, 2), Snapshot(1, 2, 7, ONE, [], 1)]);
      && Old(m, 1, Delta(1, 2, 7, Yes, 50, 1, 2))
      && var m' := Handle(m, Delta(1, 2, 7, Yes, 50, 1, 2)); m'.Tradeable(7) && Rests(m'.books[7].yes, 50, 1)
  {
    OneLoads();
    var a, b, c := Snapshot(1, 1, 7, ONE, [], 1), Control(1, 1, 2), Snapshot(1, 2, 7, ONE, [], 1);
    var m1, m2 := Handle(EMPTY, a), Handle(Handle(EMPTY, a), b);
    Compose(EMPTY, [a], [b]);
    Compose(EMPTY, [a] + [b], [c]);
    assert [a] + [b] + [c] == [a, b, c];
    assert m2.streams[1].expected == 3;
  }
}
