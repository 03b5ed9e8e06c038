/**
 The bounded lock-free queue of include/kalshi/ring.hpp as a transition system.

 One step of the system is one atomic access of one thread: a load of a position
 counter, a load of a cell's sequence number, a compare-and-swap, the plain move
 of a value into or out of a claimed cell, or the store that publishes the cell.
 Steps of any number of threads interleave in any order (sequential consistency);
 tickets are unbounded. Two history variables record what happened: `pushed[k]` is
 the value whose push claimed ticket k, `popped[k]` the value the pop that claimed
 ticket k moved out.
 */
module Ring {

  import opened Common

  datatype Cell<T> = Cell(seq_: nat, val: Option<T>)

  // Where a thread is inside try_push or try_pop, with its live local variables.
  datatype Pc<T> =
    | Idle
    | PushLoad(v: T)
    | PushSeq(v: T, pos: nat)
    | PushCas(v: T, pos: nat)
    | PushWrite(v: T, pos: nat)
    | PushPublish(v: T, pos: nat)
    | PushDone(v: T, ok: bool, pos: nat)
    | PopLoad
    | PopSeq(pos: nat)
    | PopCas(pos: nat)
    | PopRead(pos: nat)
    | PopPublish(pos: nat, out: T)
    | PopDone(result: Option<T>, pos: nat)

  datatype State<T> = State(
    cells: seq<Cell<T>>,
    enq: nat,
    deq: nat,
    pc: map<nat, Pc<T>>,
    pushed: seq<T>,
    popped: map<nat, T>)
  {
    function Capacity(): nat { |cells| }

    // `pos & mask_`: the capacity is a power of two, so this is the remainder.
    function CellOf(k: int): (i: nat)
      requires |cells| > 0
      ensures i < |cells|
    {
      k % |cells|
    }

    function SeqOf(k: int): nat
      requires |cells| > 0
    {
      cells[CellOf(k)].seq_
    }

    function At(t: nat, p: Pc<T>): State<T> { this.(pc := pc[t := p]) }

    function Put(k: int, c: Cell<T>): State<T>
      requires |cells| > 0
    {
      this.(cells := cells[CellOf(k) := c])
    }

    // The queue as a client sees it: claimed by a push, not yet claimed by a pop.
    function Queue(): seq<T>
      requires deq <= enq <= |pushed|
    {
      pushed[deq..enq]
    }
  }

  // ---------------------------------------------------------------- steps

  ghost predicate PowerOfTwo(n: nat)
    decreases n
  {
    n == 1 || (n > 0 && n % 2 == 0 && PowerOfTwo(n / 2))
  }

  // The constructor: refuses a capacity that is not a power of two >= 2.
  ghost predicate Init<T>(s: State<T>) {
    && |s.cells| >= 2
    && PowerOfTwo(|s.cells|)
    && (forall i | 0 <= i < |s.cells| :: s.cells[i].seq_ == i)
    && s.enq == 0
    && s.deq == 0
    && s.pushed == []
    && s.popped == map[]
    && (forall t | t in s.pc :: s.pc[t].Idle?)
  }

  /** One atomic access by thread t. `weak` lets compare_exchange_weak fail
      although the comparison holds. */
  function Access<T>(s: State<T>, t: nat, weak: bool): State<T>
    requires t in s.pc
    requires |s.cells| > 0
  {
    match s.pc[t]
    case Idle => s
    case PushLoad(v) => s.At(t, PushSeq(v, s.enq))
    case PushSeq(v, pos) =>
      var q := s.SeqOf(pos);
      if q == pos then s.At(t, PushCas(v, pos))
      else if q < pos then s.At(t, PushDone(v, false, pos))
      else s.At(t, PushLoad(v))
    case PushCas(v, pos) =>
      if s.enq == pos && !weak then
        s.(enq := pos + 1, pushed := s.pushed + [v]).At(t, PushWrite(v, pos))
      else
        s.At(t, PushSeq(v, s.enq))
    case PushWrite(v, pos) =>
      s.Put(pos, s.cells[s.CellOf(pos)].(val := Some(v))).At(t, PushPublish(v, pos))
    case PushPublish(v, pos) =>
      s.Put(pos, s.cells[s.CellOf(pos)].(seq_ := pos + 1)).At(t, PushDone(v, true, pos))
    case PushDone(_, _, _) => s
    case PopLoad => s.At(t, PopSeq(s.deq))
    case PopSeq(pos) =>
      var q := s.SeqOf(pos);
      if q == pos + 1 then s.At(t, PopCas(pos))
      else if q < pos + 1 then s.At(t, PopDone(None, pos))
      else s.At(t, PopLoad)
    case PopCas(pos) =>
      if s.deq == pos && !weak then
        s.(deq := pos + 1).At(t, PopRead(pos))
      else
        s.At(t, PopSeq(s.deq))
    case PopRead(pos) =>
      var c := s.cells[s.CellOf(pos)];
      if c.val.None? then s else  // never happens: ThreadOk
      s.(popped := s.popped[pos := c.val.value]).Put(pos, c.(val := None)).At(t, PopPublish(pos, c.val.value))
    case PopPublish(pos, out) =>
      s.Put(pos, s.cells[s.CellOf(pos)].(seq_ := pos + |s.cells|)).At(t, PopDone(Some(out), pos))
    case PopDone(_, _) => s
  }

  // A thread enters an operation, performs one access, or takes its result.
  datatype Action<T> = CallPush(v: T) | CallPop | Run(weak: bool) | Return

  ghost predicate Next<T>(s: State<T>, t: nat, a: Action<T>, s': State<T>) {
    && t in s.pc
    && |s.cells| > 0
    && match a
       case CallPush(v) => s.pc[t].Idle? && s' == s.At(t, PushLoad(v))
       case CallPop => s.pc[t].Idle? && s' == s.At(t, PopLoad)
       case Run(weak) => s' == Access(s, t, weak)
       case Return => (s.pc[t].PushDone? || s.pc[t].PopDone?) && s' == s.At(t, Idle)
  }

  ghost predicate Step<T(!new)>(s: State<T>, s': State<T>) {
    exists t, a :: Next(s, t, a, s')
  }

  ghost predicate IsRun<T(!new)>(run: seq<State<T>>) {
    && |run| > 0
    && Init(run[0])
    && (forall i | 0 <= i < |run| - 1 :: Step(run[i], run[i + 1]))
  }

  // ---------------------------------------------------------------- invariant

  // The cell a thread may touch without synchronisation, between its successful
  // compare-and-swap and its publishing store.
  datatype Claim = PushOf(k: nat) | PopOf(k: nat)

  function ClaimOf<T>(p: Pc<T>): Option<Claim> {
    match p
    case PushWrite(_, pos) => Some(PushOf(pos))
    case PushPublish(_, pos) => Some(PushOf(pos))
    case PopRead(pos) => Some(PopOf(pos))
    case PopPublish(pos, _) => Some(PopOf(pos))
    case _ => None
  }

  ghost predicate Claimed<T>(s: State<T>, c: Claim) {
    exists t :: t in s.pc && ClaimOf(s.pc[t]) == Some(c)
  }

  ghost predicate Reading<T>(s: State<T>, k: nat) {
    exists t :: t in s.pc && s.pc[t] == PopRead(k)
  }

  ghost predicate Shape<T>(s: State<T>) {
    && |s.cells| >= 2
    && |s.pushed| == s.enq
    && s.deq <= s.enq <= s.deq + |s.cells|
  }

  // The cells are exactly the last |cells| tickets; each one's sequence number says
  // which of the four phases of its life the cell is in.
  ghost predicate CellOk<T>(s: State<T>, k: int)
    requires Shape(s)
    requires s.enq - |s.cells| <= k < s.enq
  {
    var q := s.SeqOf(k);
    if k < 0 then q == k + |s.cells|
    else if k < s.deq then q == k + |s.cells| || (q == k + 1 && Claimed(s, PopOf(k)))
    else (q == k && Claimed(s, PushOf(k))) || (q == k + 1 && s.cells[s.CellOf(k)].val == Some(s.pushed[k]))
  }

  ghost predicate ThreadOk<T>(s: State<T>, p: Pc<T>)
    requires Shape(s)
  {
    match p
    case PushSeq(_, pos) => pos <= s.enq
    case PushCas(_, pos) => pos <= s.enq && (pos == s.enq ==> s.SeqOf(pos) == pos)
    case PushWrite(v, pos) => s.deq <= pos < s.enq && s.SeqOf(pos) == pos && s.pushed[pos] == v
    case PushPublish(v, pos) =>
      && s.deq <= pos < s.enq && s.SeqOf(pos) == pos && s.pushed[pos] == v
      && s.cells[s.CellOf(pos)].val == Some(v)
    case PushDone(v, ok, pos) => ok ==> pos < s.enq && s.pushed[pos] == v
    case PopSeq(pos) => pos <= s.deq
    case PopCas(pos) => pos <= s.deq && (pos == s.deq ==> pos < s.enq && s.SeqOf(pos) == pos + 1)
    case PopRead(pos) =>
      && s.enq - |s.cells| <= pos < s.deq && s.SeqOf(pos) == pos + 1
      && s.cells[s.CellOf(pos)].val == Some(s.pushed[pos]) && pos !in s.popped
    case PopPublish(pos, out) =>
      && s.enq - |s.cells| <= pos < s.deq && s.SeqOf(pos) == pos + 1
      && pos in s.popped && s.popped[pos] == out
    case PopDone(result, pos) => result.Some? ==> pos in s.popped && s.popped[pos] == result.value
    case _ => true
  }

  ghost predicate Exclusive<T>(s: State<T>) {
    forall t, u | t in s.pc && u in s.pc && t != u :: ClaimOf(s.pc[t]).Some? ==> ClaimOf(s.pc[t]) != ClaimOf(s.pc[u])
  }

  ghost predicate History<T>(s: State<T>)
    requires Shape(s)
  {
    && (forall k | k in s.popped :: k < s.deq && s.popped[k] == s.pushed[k])
    && (forall k | 0 <= k < s.deq :: k in s.popped || Reading(s, k))
  }

  ghost predicate CellsOk<T>(s: State<T>)
    requires Shape(s)
  {
    forall k | s.enq - |s.cells| <= k < s.enq :: CellOk(s, k)
  }

  ghost predicate ThreadsOk<T>(s: State<T>)
    requires Shape(s)
  {
    forall t | t in s.pc :: ThreadOk(s, s.pc[t])
  }

  ghost predicate Inv<T>(s: State<T>) {
    && Shape(s)
    && CellsOk(s)
    && ThreadsOk(s)
    && Exclusive(s)
    && History(s)
  }

  // ---------------------------------------------------------------- remainders

  // No multiple of n lies strictly between -n and n, except 0.
  lemma MulGap(d: int, n: nat)
    ensures d >= 1 ==> d * n >= n
    ensures d <= -1 ==> d * n <= -(n as int)
    ensures d == 0 ==> d * n == 0
  {
    if d >= 1 {
      assert (d - 1) * n >= 0;
    } else if d <= -1 {
      assert (-d - 1) * n >= 0;
    }
  }

  lemma SamePhase(n: nat, k: int)
    requires n > 0
    ensures (k + n) % n == k % n
  {
    var q := k / n;
    assert k + n == (q + 1) * n + k % n;
    UniqueRemainder(n, k + n, q + 1, k % n);
  }

  lemma UniqueRemainder(n: nat, x: int, q: int, r: int)
    requires n > 0 && 0 <= r < n && x == q * n + r
    ensures x % n == r
  {
    var d := x / n - q;
    assert d * n == r - x % n;
    MulGap(d, n);
  }

  lemma DistinctCells(n: nat, j: int, k: int)
    requires n > 0 && j < k < j + n
    ensures j % n != k % n
  {
    var d := k / n - j / n;
    assert d * n == (k - j) - (k % n - j % n);
    MulGap(d, n);
  }

  // All tickets of the current window other than k live in other cells.
  lemma OthersElsewhere<T>(s: State<T>, k: int)
    requires Shape(s)
    requires s.enq - |s.cells| <= k < s.enq
    ensures forall j | s.enq - |s.cells| <= j < s.enq && j != k :: s.CellOf(j) != s.CellOf(k)
  {
    forall j | s.enq - |s.cells| <= j < s.enq && j != k
      ensures s.CellOf(j) != s.CellOf(k)
    {
      if j < k { DistinctCells(|s.cells|, j, k); } else { DistinctCells(|s.cells|, k, j); }
    }
  }

  // ---------------------------------------------------------------- preservation

  lemma InitInv<T>(s: State<T>)
    requires Init(s)
    ensures Inv(s)
  {
    forall k | s.enq - |s.cells| <= k < s.enq
      ensures CellOk(s, k)
    {
      UniqueRemainder(|s.cells|, k, -1, k + |s.cells|);
    }
  }

  // A step that moves one thread between unclaimed program points.
  lemma LocalMove<T>(s: State<T>, t: nat, p: Pc<T>)
    requires Inv(s) && t in s.pc
    requires ClaimOf(s.pc[t]).None? && ClaimOf(p).None?
    requires ThreadOk(s, p)
    ensures Inv(s.At(t, p))
  {
    var s' := s.At(t, p);
    forall c | Claimed(s, c) ensures Claimed(s', c) {
      var u :| u in s.pc && ClaimOf(s.pc[u]) == Some(c);
      assert u in s'.pc && s'.pc[u] == s.pc[u];
    }
    forall k | Reading(s, k) ensures Reading(s', k) {
      var u :| u in s.pc && s.pc[u] == PopRead(k);
      assert u in s'.pc && s'.pc[u] == s.pc[u];
    }
    forall k | s'.enq - |s'.cells| <= k < s'.enq ensures CellOk(s', k) {
      assert CellOk(s, k);
    }
  }

  // Threads other than t keep their claims and readings in s'.
  lemma OwnersKept<T>(s: State<T>, s': State<T>, t: nat)
    requires s.pc.Keys == s'.pc.Keys
    requires forall u | u in s.pc && u != t :: s'.pc[u] == s.pc[u]
    ensures forall c | Claimed(s, c) && !(t in s.pc && ClaimOf(s.pc[t]) == Some(c)) :: Claimed(s', c)
    ensures forall k | Reading(s, k) && !(t in s.pc && s.pc[t] == PopRead(k)) :: Reading(s', k)
  {
    forall c | Claimed(s, c) && !(t in s.pc && ClaimOf(s.pc[t]) == Some(c)) ensures Claimed(s', c) {
      var u :| u in s.pc && ClaimOf(s.pc[u]) == Some(c);
      assert u in s'.pc && ClaimOf(s'.pc[u]) == Some(c);
    }
    forall k | Reading(s, k) && !(t in s.pc && s.pc[t] == PopRead(k)) ensures Reading(s', k) {
      var u :| u in s.pc && s.pc[u] == PopRead(k);
      assert u in s'.pc && s'.pc[u] == PopRead(k);
    }
  }

  // The claimed cell was free, and the ticket that held it before is fully retired.
  lemma ClaimPush<T>(s: State<T>, t: nat)
    requires Inv(s) && t in s.pc && s.pc[t].PushCas? && s.enq == s.pc[t].pos
    ensures Inv(Access(s, t, false))
  {
    var s' := Access(s, t, false);
    assert ThreadOk(s, s.pc[t]);
    ClaimPushShape(s, t, s');
    ClaimPushThreads(s, t, s');
    ClaimPushCells(s, t, s');
    ClaimPushRest(s, t, s');
  }

  lemma ClaimPushRest<T>(s: State<T>, t: nat, s': State<T>)
    requires Shape(s) && ThreadsOk(s) && Exclusive(s) && History(s) && t in s.pc && s.pc[t].PushCas? && s.enq == s.pc[t].pos
    requires s' == Access(s, t, false) && Shape(s')
    ensures Exclusive(s') && History(s')
  {
    OwnersKept(s, s', t);
    forall u | u in s.pc ensures ClaimOf(s.pc[u]) != Some(PushOf(s.enq)) { assert ThreadOk(s, s.pc[u]); }
  }

  lemma ClaimPushShape<T>(s: State<T>, t: nat, s': State<T>)
    requires Inv(s) && t in s.pc && s.pc[t].PushCas? && s.enq == s.pc[t].pos
    requires s' == Access(s, t, false)
    ensures Shape(s')
  {
    SamePhase(|s.cells|, s.enq - |s.cells|);
    assert CellOk(s, s.enq - |s.cells|);
    assert ThreadOk(s, s.pc[t]);
  }

  lemma CellAfterPush<T>(s: State<T>, s': State<T>, k: int)
    requires Shape(s) && Shape(s') && s'.cells == s.cells && s'.enq == s.enq + 1 && s'.deq == s.deq && s'.pushed[..s.enq] == s.pushed
    requires s'.enq - |s.cells| <= k < s'.enq && (k < s.enq ==> CellOk(s, k))
    requires k >= 0 && (k == s.enq || Claimed(s, PushOf(k))) ==> Claimed(s', PushOf(k))
    requires k >= 0 && Claimed(s, PopOf(k)) ==> Claimed(s', PopOf(k))
    requires k == s.enq ==> s.SeqOf(k) == k
    ensures CellOk(s', k)
  {
    if 0 <= k < s.enq { assert s'.pushed[k] == s'.pushed[..s.enq][k]; }
  }

  lemma ClaimPushCells<T>(s: State<T>, t: nat, s': State<T>)
    requires Shape(s) && CellsOk(s) && t in s.pc && s.pc[t].PushCas? && s.enq == s.pc[t].pos && ThreadOk(s, s.pc[t])
    requires s' == Access(s, t, false) && Shape(s')
    ensures CellsOk(s')
  {
    OwnersKept(s, s', t);
    assert t in s'.pc && ClaimOf(s'.pc[t]) == Some(PushOf(s.enq));
    forall k | s'.enq - |s.cells| <= k < s'.enq ensures CellOk(s', k) {
      CellAfterPush(s, s', k);
    }
  }

  lemma ClaimPushThreads<T>(s: State<T>, t: nat, s': State<T>)
    requires Inv(s) && t in s.pc && s.pc[t].PushCas? && s.enq == s.pc[t].pos
    requires s' == Access(s, t, false) && Shape(s')
    ensures ThreadsOk(s')
  {
    SamePhase(|s.cells|, s.enq - |s.cells|);
    assert CellOk(s, s.enq - |s.cells|);
    forall u | u in s'.pc ensures ThreadOk(s', s'.pc[u]) {
      if u != t {
        assert ThreadOk(s, s.pc[u]);
      }
    }
  }

  // Thread t, which has claimed ticket pos, touches nothing but its cell.
  ghost predicate OwnCell<T>(s: State<T>, t: nat, s': State<T>, pos: nat)
    requires |s.cells| > 0
  {
    && s'.enq == s.enq && s'.deq == s.deq && s'.pushed == s.pushed
    && s'.pc.Keys == s.pc.Keys && (forall u | u in s.pc && u != t :: s'.pc[u] == s.pc[u])
    && |s'.cells| == |s.cells| && (forall i | 0 <= i < |s.cells| && i != s.CellOf(pos) :: s'.cells[i] == s.cells[i])
    && (forall k | k != pos :: k in s.popped <==> k in s'.popped)
    && (forall k | k in s.popped && k != pos :: s'.popped[k] == s.popped[k])
    && (pos in s.popped ==> pos in s'.popped && s'.popped[pos] == s.popped[pos])
  }

  lemma ThreadUndisturbed<T>(s: State<T>, t: nat, s': State<T>, pos: nat, u: nat)
    requires Shape(s) && t in s.pc && u in s.pc && u != t && ThreadOk(s, s.pc[t]) && ThreadOk(s, s.pc[u])
    requires ClaimOf(s.pc[t]) == Some(PushOf(pos)) || ClaimOf(s.pc[t]) == Some(PopOf(pos))
    requires OwnCell(s, t, s', pos) && ClaimOf(s.pc[u]) != ClaimOf(s.pc[t])
    requires forall j | s.enq - |s.cells| <= j < s.enq && j != pos :: s.CellOf(j) != s.CellOf(pos)
    ensures ThreadOk(s', s'.pc[u])
  {
    var p := s.pc[u];
    if p.PushCas? && p.pos == s.enq {
      SamePhase(|s.cells|, s.enq - |s.cells|);
      assert s.CellOf(s.enq) == s.CellOf(s.enq - |s.cells|);
      assert pos != s.enq - |s.cells|;
    }
  }

  lemma CellUndisturbed<T>(s: State<T>, t: nat, s': State<T>, pos: nat, k: int)
    requires Shape(s) && s.enq - |s.cells| <= k < s.enq && k != pos && CellOk(s, k) && OwnCell(s, t, s', pos)
    requires s.CellOf(k) != s.CellOf(pos)
    requires k >= 0 ==> (Claimed(s, PushOf(k)) ==> Claimed(s', PushOf(k))) && (Claimed(s, PopOf(k)) ==> Claimed(s', PopOf(k)))
    ensures CellOk(s', k)
  {
  }

  // What a thread does to the cell it has claimed is invisible to every other
  // thread: nobody else's facts mention that cell.
  lemma OthersUndisturbed<T>(s: State<T>, t: nat, s': State<T>, pos: nat)
    requires Inv(s) && t in s.pc
    requires ClaimOf(s.pc[t]) == Some(PushOf(pos)) || ClaimOf(s.pc[t]) == Some(PopOf(pos))
    requires OwnCell(s, t, s', pos)
    ensures forall u | u in s.pc && u != t :: ThreadOk(s', s'.pc[u])
    ensures forall k | s.enq - |s.cells| <= k < s.enq && k != pos :: CellOk(s', k)
  {
    assert ThreadOk(s, s.pc[t]);
    OthersElsewhere(s, pos);
    OwnersKept(s, s', t);
    forall u | u in s.pc && u != t ensures ThreadOk(s', s'.pc[u]) {
      ThreadUndisturbed(s, t, s', pos, u);
    }
    forall k | s.enq - |s.cells| <= k < s.enq && k != pos ensures CellOk(s', k) {
      CellUndisturbed(s, t, s', pos, k);
    }
  }

  lemma MoveIn<T>(s: State<T>, t: nat)
    requires Inv(s) && t in s.pc && s.pc[t].PushWrite?
    ensures Inv(Access(s, t, false))
  {
    var s' := Access(s, t, false);
    var pos := s.pc[t].pos;
    assert ThreadOk(s, s.pc[t]);
    OthersUndisturbed(s, t, s', pos);
    OwnersKept(s, s', t);
    assert t in s'.pc && ClaimOf(s'.pc[t]) == Some(PushOf(pos)) && ThreadOk(s', s'.pc[t]);
    assert CellOk(s', pos);
  }

  lemma PublishPush<T>(s: State<T>, t: nat)
    requires Inv(s) && t in s.pc && s.pc[t].PushPublish?
    ensures Inv(Access(s, t, false))
  {
    var s' := Access(s, t, false);
    var pos := s.pc[t].pos;
    assert ThreadOk(s, s.pc[t]);
    OthersUndisturbed(s, t, s', pos);
    OwnersKept(s, s', t);
    assert ThreadOk(s', s'.pc[t]);
    assert CellOk(s', pos);
  }

  lemma MoveOut<T>(s: State<T>, t: nat)
    requires Inv(s) && t in s.pc && s.pc[t].PopRead?
    ensures Inv(Access(s, t, false))
  {
    var s' := Access(s, t, false);
    var pos := s.pc[t].pos;
    assert ThreadOk(s, s.pc[t]);
    OthersUndisturbed(s, t, s', pos);
    OwnersKept(s, s', t);
    assert t in s'.pc && ClaimOf(s'.pc[t]) == Some(PopOf(pos)) && ThreadOk(s', s'.pc[t]);
    assert CellOk(s', pos);
  }

  lemma PublishPop<T>(s: State<T>, t: nat)
    requires Inv(s) && t in s.pc && s.pc[t].PopPublish?
    ensures Inv(Access(s, t, false))
  {
    var s' := Access(s, t, false);
    var pos := s.pc[t].pos;
    assert ThreadOk(s, s.pc[t]);
    OthersUndisturbed(s, t, s', pos);
    OwnersKept(s, s', t);
    assert ThreadOk(s', s'.pc[t]);
    assert CellOk(s', pos);
  }

  lemma ClaimPop<T>(s: State<T>, t: nat)
    requires Inv(s) && t in s.pc && s.pc[t].PopCas? && s.deq == s.pc[t].pos
    ensures Inv(Access(s, t, false))
  {
    var s' := Access(s, t, false);
    assert ThreadOk(s, s.pc[t]);
    assert Shape(s');
    ClaimPopCells(s, t, s');
    ClaimPopThreads(s, t, s');
    ClaimPopExclusive(s, t, s');
    ClaimPopHistory(s, t, s');
  }

  lemma ClaimPopHistory<T>(s: State<T>, t: nat, s': State<T>)
    requires Inv(s) && t in s.pc && s.pc[t].PopCas? && s.deq == s.pc[t].pos
    requires s' == Access(s, t, false) && Shape(s')
    ensures History(s')
  {
    OwnersKept(s, s', t);
    assert t in s'.pc && s'.pc[t] == PopRead(s.deq);
  }

  lemma CellAfterPop<T>(s: State<T>, s': State<T>, k: int)
    requires Shape(s) && Shape(s') && s.enq - |s.cells| <= k < s.enq && CellOk(s, k)
    requires s'.cells == s.cells && s'.enq == s.enq && s'.deq == s.deq + 1 && s'.pushed == s.pushed
    requires k >= 0 && Claimed(s, PushOf(k)) ==> Claimed(s', PushOf(k))
    requires k >= 0 && (k == s.deq || Claimed(s, PopOf(k))) ==> Claimed(s', PopOf(k))
    requires k == s.deq ==> s.SeqOf(k) == k + 1
    ensures CellOk(s', k)
  {
  }

  lemma ClaimPopCells<T>(s: State<T>, t: nat, s': State<T>)
    requires Shape(s) && CellsOk(s) && t in s.pc && s.pc[t].PopCas? && s.deq == s.pc[t].pos && ThreadOk(s, s.pc[t])
    requires s' == Access(s, t, false) && Shape(s')
    ensures CellsOk(s')
  {
    OwnersKept(s, s', t);
    assert t in s'.pc && ClaimOf(s'.pc[t]) == Some(PopOf(s.deq));
    forall k | s'.enq - |s.cells| <= k < s'.enq ensures CellOk(s', k) {
      CellAfterPop(s, s', k);
    }
  }

  lemma ClaimPopExclusive<T>(s: State<T>, t: nat, s': State<T>)
    requires Inv(s) && t in s.pc && s.pc[t].PopCas? && s.deq == s.pc[t].pos
    requires s' == Access(s, t, false)
    ensures Exclusive(s')
  {
    forall u | u in s'.pc && u != t ensures ClaimOf(s'.pc[u]) != Some(PopOf(s.deq)) {
      assert ThreadOk(s, s.pc[u]);
    }
  }

  lemma ClaimPopThreads<T>(s: State<T>, t: nat, s': State<T>)
    requires Inv(s) && t in s.pc && s.pc[t].PopCas? && s.deq == s.pc[t].pos
    requires s' == Access(s, t, false) && Shape(s')
    ensures ThreadsOk(s')
  {
    assert ThreadOk(s, s.pc[t]);
    assert CellOk(s, s.deq);
    forall u | u in s'.pc ensures ThreadOk(s', s'.pc[u]) {
      if u != t { assert ThreadOk(s, s.pc[u]); }
    }
  }

  // The loads, and a compare-and-swap that fails.
  lemma LoadStep<T>(s: State<T>, t: nat, weak: bool)
    requires Inv(s) && t in s.pc && ClaimOf(s.pc[t]).None?
    requires s.pc[t].PushCas? ==> weak || s.enq != s.pc[t].pos
    requires s.pc[t].PopCas? ==> weak || s.deq != s.pc[t].pos
    ensures Inv(Access(s, t, weak))
  {
    var p, p' := s.pc[t], Access(s, t, weak).pc[t];
    assert ThreadOk(s, p);
    if p.PopSeq? && s.SeqOf(p.pos) == p.pos + 1 { PopSeqFacts(s, p.pos); }
    LoadedOk(s, t, weak);
    if Access(s, t, weak) != s {
      LocalMove(s, t, p');
    }
  }

  lemma LoadedOk<T>(s: State<T>, t: nat, weak: bool)
    requires Shape(s) && t in s.pc && ClaimOf(s.pc[t]).None? && ThreadOk(s, s.pc[t])
    requires s.pc[t].PushCas? ==> weak || s.enq != s.pc[t].pos
    requires s.pc[t].PopCas? ==> weak || s.deq != s.pc[t].pos
    requires s.pc[t].PopSeq? && s.SeqOf(s.pc[t].pos) == s.pc[t].pos + 1 && s.pc[t].pos == s.deq ==> s.deq < s.enq
    ensures var s' := Access(s, t, weak);
            s' == s || (s' == s.At(t, s'.pc[t]) && ClaimOf(s'.pc[t]).None? && ThreadOk(s, s'.pc[t]))
  {
  }

  lemma AccessInv<T>(s: State<T>, t: nat, weak: bool)
    requires Inv(s) && t in s.pc
    ensures Inv(Access(s, t, weak))
  {
    match s.pc[t]
    case PushWrite(_, _) => MoveIn(s, t);
    case PushPublish(_, _) => PublishPush(s, t);
    case PopRead(_) => MoveOut(s, t);
    case PopPublish(_, _) => PublishPop(s, t);
    case PushCas(_, pos) =>
      if s.enq == pos && !weak { ClaimPush(s, t); } else { LoadStep(s, t, weak); }
    case PopCas(pos) =>
      if s.deq == pos && !weak { ClaimPop(s, t); } else { LoadStep(s, t, weak); }
    case _ => LoadStep(s, t, weak);
  }

  // A cell that reads pos + 1 while pos is the next pop ticket holds a pushed value.
  lemma PopSeqFacts<T>(s: State<T>, pos: nat)
    requires Inv(s) && s.SeqOf(pos) == pos + 1
    ensures pos == s.deq ==> pos < s.enq
  {
    SamePhase(|s.cells|, s.enq - |s.cells|);
    assert CellOk(s, s.enq - |s.cells|);
  }

  lemma NextInv<T>(s: State<T>, t: nat, a: Action<T>, s': State<T>)
    requires Inv(s) && Next(s, t, a, s')
    ensures Inv(s')
  {
    match a
    case CallPush(v) => LocalMove(s, t, PushLoad(v));
    case CallPop => LocalMove(s, t, PopLoad);
    case Run(weak) => AccessInv(s, t, weak);
    case Return => LocalMove(s, t, Idle);
  }

  lemma {:induction false} RunInv<T(!new)>(run: seq<State<T>>, i: nat)
    requires IsRun(run) && i < |run|
    ensures Inv(run[i])
  {
    if i == 0 {
      InitInv(run[0]);
    } else {
      RunInv(run, i - 1);
      assert Step(run[i - 1], run[i]);
      var t, a :| Next(run[i - 1], t, a, run[i]);
      NextInv(run[i - 1], t, a, run[i]);
    }
  }

  // ---------------------------------------------------------------- theorems

  // The cell a claim gives unsynchronised access to.
  function ClaimedCell<T>(s: State<T>, c: Claim): nat
    requires |s.cells| > 0
  {
    s.CellOf(c.k)
  }

  /** No two threads are ever inside the same cell at the same time, so the plain
      moves of `val` never race. */
  lemma NoSharedCell<T(!new)>(run: seq<State<T>>, i: nat, t: nat, u: nat)
    requires IsRun(run) && i < |run|
    requires t in run[i].pc && u in run[i].pc && t != u
    requires ClaimOf(run[i].pc[t]).Some? && ClaimOf(run[i].pc[u]).Some?
    ensures |run[i].cells| > 0
    ensures ClaimedCell(run[i], ClaimOf(run[i].pc[t]).value) != ClaimedCell(run[i], ClaimOf(run[i].pc[u]).value)
  {
    RunInv(run, i);
    var s := run[i];
    assert ThreadOk(s, s.pc[t]) && ThreadOk(s, s.pc[u]);
    OthersElsewhere(s, s.pc[t].pos);
  }

  /** The pop of ticket k returns the value pushed with ticket k; every ticket below
      deq has been moved out or is about to be, by one thread; a completed call reports
      exactly its ticket's value; and never more than capacity tickets are open. */
  lemma PopsReturnPushes<T(!new)>(run: seq<State<T>>, i: nat)
    requires IsRun(run) && i < |run|
    ensures var s := run[i];
      && |s.pushed| == s.enq && s.deq <= s.enq <= s.deq + |s.cells|
      && (forall k | k in s.popped :: k < s.deq <= s.enq && s.popped[k] == s.pushed[k])
      && (forall k | 0 <= k < s.deq :: k in s.popped <==> !Reading(s, k))
      && (forall t | t in s.pc && s.pc[t].PopDone? && s.pc[t].result.Some? ::
            s.pc[t].pos < s.enq && s.pc[t].result == Some(s.pushed[s.pc[t].pos]))
      && (forall t | t in s.pc && s.pc[t].PushDone? && s.pc[t].ok ::
            s.pc[t].pos < s.enq && s.pushed[s.pc[t].pos] == s.pc[t].v)
  {
    RunInv(run, i);
    var s := run[i];
    forall k | 0 <= k < s.deq && Reading(s, k) ensures k !in s.popped {
      var t :| t in s.pc && s.pc[t] == PopRead(k);
      assert ThreadOk(s, s.pc[t]);
    }
    forall t | t in s.pc ensures ThreadOk(s, s.pc[t]) {}
  }

  // What one step may do to the queue and to the popped history.
  ghost predicate QueueStep<T>(s: State<T>, t: nat, s': State<T>) {
    && Shape(s) && Shape(s') && t in s.pc && t in s'.pc
    && (|| s'.Queue() == s.Queue()
        || (s.pc[t].PushCas? && s'.pc[t] == PushWrite(s.pc[t].v, s.enq) && s'.Queue() == s.Queue() + [s.pc[t].v])
        || (s'.pc[t] == PopRead(s.deq) && |s.Queue()| > 0 && s'.Queue() == s.Queue()[1..]))
    && (|| s'.popped == s.popped
        || (&& s.pc[t].PopRead? && s.pc[t].pos !in s.popped && s.pc[t].pos < s.deq
            && s'.popped == s.popped[s.pc[t].pos := s.pushed[s.pc[t].pos]]))
  }

  lemma AccessQueue<T>(s: State<T>, t: nat, weak: bool)
    requires Inv(s) && t in s.pc
    ensures Inv(Access(s, t, weak)) && QueueStep(s, t, Access(s, t, weak))
  {
    AccessInv(s, t, weak);
    AccessMoves(s, t, weak, Access(s, t, weak));
    assert ThreadOk(s, s.pc[t]);
  }

  // The part of it that does not need the new state's invariant.
  lemma AccessMoves<T>(s: State<T>, t: nat, weak: bool, s': State<T>)
    requires Shape(s) && t in s.pc && s' == Access(s, t, weak) && Shape(s') && ThreadOk(s, s.pc[t])
    ensures QueueStep(s, t, s')
  {
    var p := s.pc[t];
    if p.PushCas? && s.enq == p.pos && !weak {
      assert s'.Queue() == s.Queue() + [p.v];
    } else if p.PopCas? && s.deq == p.pos && !weak {
      assert s'.Queue() == s.Queue()[1..];
    } else if p.PopRead? {
      assert s'.popped == s.popped[p.pos := s.pushed[p.pos]];
    } else {
      assert s'.pushed == s.pushed && s'.enq == s.enq && s'.deq == s.deq && s'.popped == s.popped;
    }
  }

  /** Every step keeps the queue, appends the value of the one push that claims a
      ticket, or removes the head for the one pop that claims a ticket; a ticket once
      popped keeps its value, and is never popped again. */
  lemma StepRefinesQueue<T(!new)>(run: seq<State<T>>, i: nat, t: nat, a: Action<T>)
    requires IsRun(run) && i + 1 < |run| && Next(run[i], t, a, run[i + 1])
    ensures QueueStep(run[i], t, run[i + 1])
  {
    RunInv(run, i);
    RunInv(run, i + 1);
    if a.Run? {
      AccessQueue(run[i], t, a.weak);
    }
  }

  /** try_push gives up exactly when its ticket is still the next one and the cell's
      previous ticket has not been popped and published: either nobody has claimed
      that pop, or its thread is still between claiming and publishing. */
  lemma PushFailsIffFull<T(!new)>(run: seq<State<T>>, i: nat, t: nat, weak: bool)
    requires IsRun(run) && i < |run| && t in run[i].pc && run[i].pc[t].PushSeq?
    ensures |run[i].cells| > 0
    ensures var s, pos := run[i], run[i].pc[t].pos;
      Access(s, t, weak).pc[t] == PushDone(s.pc[t].v, false, pos) <==>
      && pos == s.enq
      && pos >= s.Capacity()
      && (pos - s.Capacity() >= s.deq || Claimed(s, PopOf(pos - s.Capacity())))
  {
    RunInv(run, i);
    PushFailsInv(run[i], t, weak);
  }

  lemma PushFailsInv<T>(s: State<T>, t: nat, weak: bool)
    requires Inv(s) && t in s.pc && s.pc[t].PushSeq?
    ensures var pos, n := s.pc[t].pos, |s.cells|;
      Access(s, t, weak).pc[t] == PushDone(s.pc[t].v, false, pos) <==>
      pos == s.enq && pos >= n && (pos - n >= s.deq || Claimed(s, PopOf(pos - n)))
  {
    var pos, n := s.pc[t].pos, |s.cells|;
    assert ThreadOk(s, s.pc[t]);
    SeqNotBehind(s, pos);
    SamePhase(n, s.enq - n);
    assert CellOk(s, s.enq - n);
    if pos == s.enq && pos >= n && Claimed(s, PopOf(pos - n)) {
      var u :| u in s.pc && ClaimOf(s.pc[u]) == Some(PopOf(pos - n));
      assert ThreadOk(s, s.pc[u]);
    }
  }

  // The cell of a ticket already claimed by a push never reads older than the ticket.
  lemma SeqNotBehind<T>(s: State<T>, pos: nat)
    requires Inv(s)
    ensures pos < s.enq ==> s.SeqOf(pos) >= pos
    ensures pos < s.deq ==> s.SeqOf(pos) >= pos + 1
  {
    var n := |s.cells|;
    if pos < s.enq - n {
      var k := Latest(n, pos, s.enq);
      assert CellOk(s, k);
    } else if pos < s.enq {
      assert CellOk(s, pos);
    }
  }

  // The ticket of the current window that shares pos's cell.
  lemma {:induction false} Latest(n: nat, pos: int, enq: int) returns (k: int)
    requires n > 0 && pos < enq - n
    ensures enq - n <= k < enq && k % n == pos % n && k >= pos + n
    decreases enq - pos
  {
    SamePhase(n, pos);
    if pos + n >= enq - n {
      k := pos + n;
    } else {
      k := Latest(n, pos + n, enq);
    }
  }

  /** try_pop gives up exactly when its ticket is still the next one and that ticket
      is unclaimed by any push, or its push has claimed but not yet published. */
  lemma PopFailsIffEmpty<T(!new)>(run: seq<State<T>>, i: nat, t: nat, weak: bool)
    requires IsRun(run) && i < |run| && t in run[i].pc && run[i].pc[t].PopSeq?
    ensures |run[i].cells| > 0
    ensures var s, pos := run[i], run[i].pc[t].pos;
      Access(s, t, weak).pc[t] == PopDone(None, pos) <==>
      pos == s.deq && (pos == s.enq || Claimed(s, PushOf(pos)))
  {
    RunInv(run, i);
    PopFailsInv(run[i], t, weak);
  }

  lemma PopFailsInv<T>(s: State<T>, t: nat, weak: bool)
    requires Inv(s) && t in s.pc && s.pc[t].PopSeq?
    ensures Access(s, t, weak).pc[t] == PopDone(None, s.pc[t].pos) <==>
            s.pc[t].pos == s.deq && (s.deq == s.enq || Claimed(s, PushOf(s.deq)))
  {
    var pos, n := s.pc[t].pos, |s.cells|;
    assert ThreadOk(s, s.pc[t]);
    SeqNotBehind(s, pos);
    SamePhase(n, s.enq - n);
    assert CellOk(s, s.enq - n);
    if s.deq < s.enq {
      assert CellOk(s, s.deq);
      if Claimed(s, PushOf(s.deq)) {
        var u :| u in s.pc && ClaimOf(s.pc[u]) == Some(PushOf(s.deq));
        assert ThreadOk(s, s.pc[u]);
      }
    }
  }

  /** Whatever a push has been doing, lost compare-and-swaps included, the step that makes
      it answer no finds its ticket still the next one and the ticket capacity places
      earlier not popped and published. */
  lemma PushGivesUpOnlyWhenFull<T(!new)>(run: seq<State<T>>, i: nat, t: nat)
    requires IsRun(run) && i + 1 < |run| && t in run[i].pc && t in run[i + 1].pc && run[i + 1].pc[t] != run[i].pc[t]
    requires run[i + 1].pc[t].PushDone? && !run[i + 1].pc[t].ok
    ensures var s, p := run[i], run[i + 1].pc[t];
      && s.pc[t] == PushSeq(p.v, p.pos) && p.pos == s.enq && p.pos >= s.Capacity()
      && (p.pos - s.Capacity() >= s.deq || Claimed(s, PopOf(p.pos - s.Capacity())))
  {
    RunInv(run, i);
    assert Step(run[i], run[i + 1]);
    var u, a :| Next(run[i], u, a, run[i + 1]);
    OnlyItsThread(run[i], u, a, run[i + 1], t);
    Refusal(run[i], t, a.weak);
  }

  lemma Refusal<T>(s: State<T>, t: nat, weak: bool)
    requires Inv(s) && t in s.pc && Pushing(s.pc[t]) && !s.pc[t].PushDone?
    requires var p := Access(s, t, weak).pc[t]; p.PushDone? && !p.ok
    ensures var p, n := Access(s, t, weak).pc[t], |s.cells|;
      s.pc[t] == PushSeq(p.v, p.pos) && p.pos == s.enq && p.pos >= n && (p.pos - n >= s.deq || Claimed(s, PopOf(p.pos - n)))
  {
    OnlySeqRefuses(s, t, weak);
    PushFailsInv(s, t, weak);
  }

  /** And the step that makes a pop answer nothing finds its ticket still the next one and
      not pushed and published. */
  lemma PopGivesUpOnlyWhenEmpty<T(!new)>(run: seq<State<T>>, i: nat, t: nat)
    requires IsRun(run) && i + 1 < |run| && t in run[i].pc && t in run[i + 1].pc && run[i + 1].pc[t] != run[i].pc[t]
    requires run[i + 1].pc[t].PopDone? && run[i + 1].pc[t].result.None?
    ensures var s, p := run[i], run[i + 1].pc[t];
      s.pc[t] == PopSeq(p.pos) && p.pos == s.deq && (p.pos == s.enq || Claimed(s, PushOf(p.pos)))
  {
    RunInv(run, i);
    assert Step(run[i], run[i + 1]);
    var u, a :| Next(run[i], u, a, run[i + 1]);
    OnlyItsThread(run[i], u, a, run[i + 1], t);
    OnlySeqGivesUp(run[i], t, a.weak);
    PopFailsInv(run[i], t, a.weak);
  }

  // A call ends by an access of its own thread.
  lemma OnlyItsThread<T>(s: State<T>, u: nat, a: Action<T>, s': State<T>, t: nat)
    requires Next(s, u, a, s') && t in s.pc && t in s'.pc && s'.pc[t] != s.pc[t] && (s'.pc[t].PushDone? || s'.pc[t].PopDone?)
    ensures u == t && a.Run? && s' == Access(s, t, a.weak)
    ensures s'.pc[t].PushDone? ==> Pushing(s.pc[t]) && !s.pc[t].PushDone?
    ensures s'.pc[t].PopDone? ==> Popping(s.pc[t]) && !s.pc[t].PopDone?
  {
  }

  lemma OnlySeqRefuses<T>(s: State<T>, t: nat, weak: bool)
    requires t in s.pc && |s.cells| > 0 && Pushing(s.pc[t]) && !s.pc[t].PushDone?
    requires var p := Access(s, t, weak).pc[t]; p.PushDone? && !p.ok
    ensures s.pc[t].PushSeq? && Access(s, t, weak) == s.At(t, PushDone(s.pc[t].v, false, s.pc[t].pos))
  {
  }

  // So while nobody is pushing, a pop that gives up has seen the ring empty.
  lemma GivesUpEmpty<T>(s: State<T>, t: nat, weak: bool)
    requires Inv(s) && t in s.pc && s.pc[t].PopSeq? && forall u | u in s.pc :: !Pushing(s.pc[u])
    ensures Access(s, t, weak).pc[t] == PopDone(None, s.pc[t].pos) ==> s.deq == s.enq
  {
    PopFailsInv(s, t, weak);
  }

  /** Nothing is lost: once no thread is inside an operation, the values moved out are
      exactly the first deq values pushed, in ticket order, and every other pushed
      value sits published in its own cell. */
  lemma NothingLost<T(!new)>(run: seq<State<T>>, i: nat)
    requires IsRun(run) && i < |run|
    requires forall t | t in run[i].pc :: ClaimOf(run[i].pc[t]).None?
    ensures var s := run[i];
      && s.deq <= s.enq == |s.pushed| && s.enq - s.deq <= |s.cells|
      && s.popped == (map k: nat | k < s.deq :: s.pushed[k])
      && (forall k | s.deq <= k < s.enq :: s.cells[s.CellOf(k)] == Cell(k + 1, Some(s.pushed[k])))
  {
    RunInv(run, i);
    var s := run[i];
    forall k | s.deq <= k < s.enq ensures s.cells[s.CellOf(k)] == Cell(k + 1, Some(s.pushed[k])) {
      assert CellOk(s, k);
    }
    forall k | 0 <= k < s.deq ensures k in s.popped {
      assert k in s.popped || Reading(s, k);
    }
  }

  // ---------------------------------------------------------------- undisturbed

  // One access, and the five of a call that meets nobody.
  function Go<T>(s: State<T>, t: nat): State<T> { if t in s.pc && |s.cells| > 0 then Access(s, t, false) else s }

  function Alone<T>(s: State<T>, t: nat): State<T> { Go(Go(Go(Go(Go(s, t), t), t), t), t) }

  lemma PutTwice<T>(s: State<T>, k: int, c: Cell<T>, d: Cell<T>)
    requires |s.cells| > 0
    ensures s.Put(k, c).Put(k, d) == s.Put(k, d)
  {
    assert s.cells[s.CellOf(k) := c][s.CellOf(k) := d] == s.cells[s.CellOf(k) := d];
  }

  lemma SoloClaim<T>(s: State<T>, t: nat, v: T, k: nat)
    requires |s.cells| > 0 && s.SeqOf(k) == s.enq == k && t in s.pc && s.pc[t] == PushLoad(v)
    ensures Go(Go(Go(s, t), t), t) == s.(enq := k + 1, pushed := s.pushed + [v]).At(t, PushWrite(v, k))
  {
    assert Go(s, t) == s.At(t, PushSeq(v, k));
    assert Go(s.At(t, PushSeq(v, k)), t) == s.At(t, PushSeq(v, k)).At(t, PushCas(v, k)) == s.At(t, PushCas(v, k));
  }

  lemma SoloStore<T>(s: State<T>, t: nat, v: T, k: nat)
    requires |s.cells| > 0 && t in s.pc && s.pc[t] == PushWrite(v, k)
    ensures Go(Go(s, t), t) == s.Put(k, Cell(k + 1, Some(v))).At(t, PushDone(v, true, k))
  {
    var c := Cell(s.SeqOf(k), Some(v));
    assert Go(s, t) == s.Put(k, c).At(t, PushPublish(v, k));
    PutTwice(s, k, c, Cell(k + 1, Some(v)));
  }

  lemma SoloPush<T>(s: State<T>, t: nat, v: T, k: nat)
    requires |s.cells| > 0 && s.SeqOf(k) == s.enq == k && t in s.pc && s.pc[t] == PushLoad(v)
    ensures Alone(s, t) == s.(enq := k + 1, pushed := s.pushed + [v]).Put(k, Cell(k + 1, Some(v))).At(t, PushDone(v, true, k))
  {
    SoloClaim(s, t, v, k);
    SoloStore(s.(enq := k + 1, pushed := s.pushed + [v]).At(t, PushWrite(v, k)), t, v, k);
  }

  lemma SoloRefused<T>(s: State<T>, t: nat, v: T)
    requires |s.cells| > 0 && s.SeqOf(s.enq) < s.enq && t in s.pc && s.pc[t] == PushLoad(v)
    ensures Alone(s, t) == s.At(t, PushDone(v, false, s.enq))
  {
    assert Go(s, t) == s.At(t, PushSeq(v, s.enq));
    assert Go(Go(s, t), t) == s.At(t, PushDone(v, false, s.enq));
  }

  /** A push that runs undisturbed, while no pop is in the middle of its cell, succeeds
      exactly when the queue holds fewer values than the capacity; it then appends its
      value, and otherwise leaves the ring as it was. */
  lemma PushAloneExact<T(!new)>(run: seq<State<T>>, i: nat, t: nat, v: T)
    requires IsRun(run) && i < |run| && t in run[i].pc && run[i].pc[t] == PushLoad(v)
    requires var s := run[i]; s.enq >= |s.cells| ==> !Claimed(s, PopOf(s.enq - |s.cells|))
    ensures PushedAlone(run[i], t, v, Alone(run[i], t))
  {
    RunInv(run, i);
    PushedAloneInv(run[i], t, v);
  }

  // What such a push leaves.
  predicate PushedAlone<T(==)>(s: State<T>, t: nat, v: T, s': State<T>) {
    if s.enq - s.deq < s.Capacity() then
      && t in s'.pc && s'.pc[t] == PushDone(v, true, s.enq) && s'.enq == s.enq + 1 && s'.deq == s.deq && s'.pushed == s.pushed + [v]
      && |s'.cells| > 0 && s'.cells[s'.CellOf(s.enq)] == Cell(s.enq + 1, Some(v))
    else s' == s.At(t, PushDone(v, false, s.enq))
  }

  lemma PushedAloneInv<T>(s: State<T>, t: nat, v: T)
    requires Inv(s) && t in s.pc && s.pc[t] == PushLoad(v) && (s.enq >= |s.cells| ==> !Claimed(s, PopOf(s.enq - |s.cells|)))
    ensures PushedAlone(s, t, v, Alone(s, t))
  {
    var n := |s.cells|;
    SamePhase(n, s.enq - n);
    assert CellOk(s, s.enq - n);
    if s.enq - s.deq < n { SoloPush(s, t, v, s.enq); } else { SoloRefused(s, t, v); }
  }

  lemma SoloPop<T>(s: State<T>, t: nat, k: nat, v: T)
    requires |s.cells| > 0 && s.deq == k && s.cells[s.CellOf(k)] == Cell(k + 1, Some(v)) && t in s.pc && s.pc[t].PopLoad?
    ensures Alone(s, t) == s.(deq := k + 1, popped := s.popped[k := v]).Put(k, Cell(k + |s.cells|, None)).At(t, PopDone(Some(v), k))
  {
    var s3 := s.(deq := k + 1).At(t, PopRead(k));
    assert Go(s, t) == s.At(t, PopSeq(k));
    assert Go(Go(s, t), t) == s.At(t, PopCas(k));
    assert Go(Go(Go(s, t), t), t) == s3;
    PopMovesOut(s3, t, k, v);
  }

  lemma PopMovesOut<T>(s: State<T>, t: nat, k: nat, v: T)
    requires |s.cells| > 0 && s.cells[s.CellOf(k)] == Cell(k + 1, Some(v)) && t in s.pc && s.pc[t] == PopRead(k)
    ensures Go(Go(s, t), t) == s.(popped := s.popped[k := v]).Put(k, Cell(k + |s.cells|, None)).At(t, PopDone(Some(v), k))
  {
    var p := s.(popped := s.popped[k := v]);
    assert Go(s, t) == p.Put(k, Cell(k + 1, None)).At(t, PopPublish(k, v));
    PutTwice(p, k, Cell(k + 1, None), Cell(k + |s.cells|, None));
  }

  /** A pop that runs undisturbed, while no push is in the middle of its cell, takes the
      oldest value if the queue holds one, and otherwise leaves the ring as it was. */
  lemma PopAloneExact<T(!new)>(run: seq<State<T>>, i: nat, t: nat)
    requires IsRun(run) && i < |run| && t in run[i].pc && run[i].pc[t].PopLoad? && !Claimed(run[i], PushOf(run[i].deq))
    ensures PoppedAlone(run[i], t, Alone(run[i], t))
  {
    RunInv(run, i);
    PoppedAloneInv(run[i], t);
  }

  // What such a pop leaves.
  predicate PoppedAlone<T(==)>(s: State<T>, t: nat, s': State<T>) {
    if s.deq < s.enq then
      && s.enq <= |s.pushed| && t in s'.pc && s'.pc[t] == PopDone(Some(s.pushed[s.deq]), s.deq)
      && s'.deq == s.deq + 1 && s'.enq == s.enq
      && |s'.cells| > 0 && s'.cells[s'.CellOf(s.deq)] == Cell(s.deq + |s.cells|, None)
    else s' == s.At(t, PopDone(None, s.deq))
  }

  lemma PoppedAloneInv<T>(s: State<T>, t: nat)
    requires Inv(s) && t in s.pc && s.pc[t].PopLoad? && !Claimed(s, PushOf(s.deq))
    ensures PoppedAlone(s, t, Alone(s, t))
  {
    var n := |s.cells|;
    if s.deq < s.enq {
      assert CellOk(s, s.deq);
      SoloPop(s, t, s.deq, s.pushed[s.deq]);
    } else {
      SamePhase(n, s.enq - n);
      assert CellOk(s, s.enq - n);
      SoloEmpty(s, t);
    }
  }

  lemma SoloEmpty<T>(s: State<T>, t: nat)
    requires |s.cells| > 0 && s.SeqOf(s.deq) < s.deq + 1 && t in s.pc && s.pc[t].PopLoad?
    ensures Alone(s, t) == s.At(t, PopDone(None, s.deq))
  {
    assert Go(s, t) == s.At(t, PopSeq(s.deq));
    assert Go(Go(s, t), t) == s.At(t, PopDone(None, s.deq));
  }

  // A ring of one cell as the constructor would make it, with two pushes about to begin.
  ghost predicate OneCell<T>(s: State<T>, t: nat, v: T, u: nat, w: T) {
    && |s.cells| == 1 && s.cells[0].seq_ == 0 && s.enq == s.deq == 0 && s.pushed == [] && s.popped == map[]
    && t in s.pc && u in s.pc && t != u && s.pc[t] == PushLoad(v) && s.pc[u] == PushLoad(w)
  }

  lemma OneCellPush<T>(s: State<T>, t: nat, v: T, k: nat)
    requires |s.cells| == 1 && s.cells[0].seq_ == s.enq == k && t in s.pc && s.pc[t] == PushLoad(v)
    ensures Alone(s, t) == s.(cells := [Cell(k + 1, Some(v))], enq := k + 1, pushed := s.pushed + [v]).At(t, PushDone(v, true, k))
  {
    assert s.CellOf(k) == 0;
    SoloPush(s, t, v, k);
  }

  /** The constructor's refusal of capacity one is needed: with a single cell the
      sequence number a push publishes is already the one the next push waits for. So the
      second push succeeds too, two tickets are open on one cell, and the first value is
      overwritten although nothing was ever popped. */
  lemma OneCellOverwrites<T>(s: State<T>, t: nat, v: T, u: nat, w: T)
    requires OneCell(s, t, v, u, w)
    ensures Alone(s, t) == s.(cells := [Cell(1, Some(v))], enq := 1, pushed := [v]).At(t, PushDone(v, true, 0))
    ensures Alone(Alone(s, t), u)
         == s.(cells := [Cell(2, Some(w))], enq := 2, pushed := [v, w]).At(t, PushDone(v, true, 0)).At(u, PushDone(w, true, 1))
  {
    OneCellPush(s, t, v, 0);
    OneCellPush(Alone(s, t), u, w, 1);
  }

  // ---------------------------------------------------------------- for clients

  predicate Pushing<T>(p: Pc<T>) {
    p.PushLoad? || p.PushSeq? || p.PushCas? || p.PushWrite? || p.PushPublish? || p.PushDone?
  }

  predicate Popping<T>(p: Pc<T>) {
    p.PopLoad? || p.PopSeq? || p.PopCas? || p.PopRead? || p.PopPublish? || p.PopDone?
  }

  // Has this push claimed its ticket?
  predicate Entered<T>(p: Pc<T>) {
    p.PushWrite? || p.PushPublish? || (p.PushDone? && p.ok)
  }

  // The ticket this pop has claimed, if any.
  function Taken<T>(p: Pc<T>): Option<nat> {
    match p
    case PopRead(k) => Some(k)
    case PopPublish(k, _) => Some(k)
    case PopDone(Some(_), k) => Some(k)
    case _ => None
  }

  ghost predicate OnlyMoved<T>(s: State<T>, t: nat, s': State<T>) {
    t in s.pc && s'.pc.Keys == s.pc.Keys && forall u | u in s.pc && u != t :: s'.pc[u] == s.pc[u]
  }

  // All a client needs to know of one access inside try_push ...
  ghost predicate PushMove<T>(s: State<T>, t: nat, s': State<T>) {
    && OnlyMoved(s, t, s')
    && Pushing(s.pc[t]) && Pushing(s'.pc[t]) && s'.pc[t].v == s.pc[t].v
    && s'.deq == s.deq
    && (|| (s'.enq == s.enq && s'.pushed == s.pushed && Entered(s'.pc[t]) == Entered(s.pc[t]))
        || (s'.enq == s.enq + 1 && s'.pushed == s.pushed + [s.pc[t].v] && !Entered(s.pc[t]) && Entered(s'.pc[t])))
  }

  // ... and inside try_pop.
  ghost predicate PopMove<T>(s: State<T>, t: nat, s': State<T>) {
    && OnlyMoved(s, t, s')
    && Popping(s.pc[t]) && Popping(s'.pc[t])
    && s'.enq == s.enq && s'.pushed == s.pushed
    && (|| (s'.deq == s.deq && Taken(s'.pc[t]) == Taken(s.pc[t]))
        || (s'.deq == s.deq + 1 && Taken(s.pc[t]) == None && Taken(s'.pc[t]) == Some(s.deq)))
  }

  lemma AccessPushMove<T>(s: State<T>, t: nat, weak: bool)
    requires t in s.pc && |s.cells| > 0 && Pushing(s.pc[t])
    ensures PushMove(s, t, Access(s, t, weak))
  {
  }

  lemma AccessPopMove<T>(s: State<T>, t: nat, weak: bool)
    requires t in s.pc && |s.cells| > 0 && Popping(s.pc[t])
    ensures PopMove(s, t, Access(s, t, weak))
  {
  }

  // A pop fails only where it reads the sequence number of its cell.
  lemma OnlySeqGivesUp<T>(s: State<T>, t: nat, weak: bool)
    requires t in s.pc && |s.cells| > 0 && Popping(s.pc[t]) && !s.pc[t].PopDone?
    requires var p := Access(s, t, weak).pc[t]; p.PopDone? && p.result.None?
    ensures s.pc[t].PopSeq? && Access(s, t, weak) == s.At(t, PopDone(None, s.pc[t].pos))
  {
  }

  // A pop that reports success reports the value pushed with its ticket.
  lemma PopResult<T>(s: State<T>, t: nat)
    requires Inv(s) && t in s.pc && s.pc[t].PopDone? && s.pc[t].result.Some?
    ensures s.pc[t].pos < s.enq == |s.pushed| && s.pushed[s.pc[t].pos] == s.pc[t].result.value
  {
    assert ThreadOk(s, s.pc[t]);
  }
}
