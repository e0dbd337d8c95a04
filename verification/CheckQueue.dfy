/** The script check queue: one master and any number of workers under one mutex and two
    condition variables, as atomic steps between taking and releasing the lock. Every
    interleaving and every spurious wakeup is a run of these steps. */
module CheckQueue {
  import opened Common

  /** A verification; what it evaluates to is the arbitrary function `eval` below. */
  type Check = nat

  /** Where a thread stands. */
  datatype Phase =
    | Outside                                          // the master, not in Wait
    | Entering                                         // about to take the lock for the first time
    | Locked                                           // in the critical section
    | Blocked(notified: bool)                          // in cond.wait
    | Busy(batch: seq<Check>, next: nat, ok: bool)     // working off vChecks, lock released

  /** A finished round: what was added, evaluated and passed over, and what Wait returned. */
  datatype Round = Round(added: seq<Check>, ran: multiset<Check>, skipped: multiset<Check>, result: bool)

  /** Thread 0 is the master. The last five fields only record the history of the run. */
  datatype State = State(
    queue: seq<Check>,
    nTodo: int,
    nIdle: int,
    nTotal: int,
    fAllOk: bool,
    threads: seq<Phase>,
    added: seq<Check>,
    committed: multiset<Check>,
    ran: multiset<Check>,
    skipped: multiset<Check>,
    rounds: seq<Round>)

  /** `woken` is the worker that notify_one picks, or 0 when no worker waits. */
  datatype Step = Add(checks: seq<Check>, woken: nat) | StartWait | Enter(t: nat) | RunNext(t: nat)

  function Init(workers: nat): State {
    State([], 0, 0, 0, true, [Outside] + seq(workers, _ => Entering), [], multiset{}, multiset{}, multiset{}, [])
  }

  // ---------------------------------------------------------------------
  // Sums over the threads
  // ---------------------------------------------------------------------

  function Sum(threads: seq<Phase>, weight: Phase -> int): int {
    if threads == [] then 0 else weight(threads[0]) + Sum(threads[1..], weight)
  }

  function IdleWeight(p: Phase): int { if p.Blocked? then 1 else 0 }

  function TotalWeight(p: Phase): int { if p.Outside? || p.Entering? then 0 else 1 }

  /** How many checks are in uncommitted batches, how often `c` is, and how often it has been worked off there. */
  function SizeWeight(p: Phase): int { if p.Busy? then |p.batch| else 0 }
  function HeldWeight(c: Check): Phase -> int { (p: Phase) => if p.Busy? then Occurrences(p.batch, c) else 0 }
  function PassedWeight(c: Check): Phase -> int {
    (p: Phase) => if p.Busy? && p.next <= |p.batch| then Occurrences(p.batch[..p.next], c) else 0
  }

  function Occurrences(checks: seq<Check>, c: Check): nat { multiset(checks)[c] }

  lemma {:induction false} SumUpdate(threads: seq<Phase>, t: nat, p: Phase, weight: Phase -> int)
    requires t < |threads|
    ensures Sum(threads[t := p], weight) == Sum(threads, weight) - weight(threads[t]) + weight(p)
  {
    if t == 0 {
      assert threads[t := p][1..] == threads[1..];
    } else {
      assert threads[t := p][1..] == threads[1..][t - 1 := p];
      SumUpdate(threads[1..], t - 1, p, weight);
    }
  }

  lemma {:induction false} SumPositive(threads: seq<Phase>, weight: Phase -> int) returns (t: nat)
    requires Sum(threads, weight) > 0
    ensures t < |threads| && weight(threads[t]) > 0
  {
    if weight(threads[0]) > 0 {
      t := 0;
    } else {
      t := SumPositive(threads[1..], weight);
      t := t + 1;
    }
  }

  lemma {:induction false} SumNonNegative(threads: seq<Phase>, weight: Phase -> int)
    requires forall p :: weight(p) >= 0
    ensures Sum(threads, weight) >= 0
    ensures forall t :: 0 <= t < |threads| ==> Sum(threads, weight) >= weight(threads[t])
  {
    if threads != [] {
      SumNonNegative(threads[1..], weight);
      forall t | 0 <= t < |threads| ensures Sum(threads, weight) >= weight(threads[t]) {
        if t > 0 {
          assert threads[t] == threads[1..][t - 1];
        }
      }
    }
  }

  // ---------------------------------------------------------------------
  // The steps
  // ---------------------------------------------------------------------

  predicate SomeWorkerWaits(threads: seq<Phase>) {
    exists t :: 0 < t < |threads| && threads[t] == Blocked(false)
  }

  predicate Finished(p: Phase) { p.Busy? && p.next == |p.batch| }

  predicate Enabled(s: State, step: Step) {
    && |s.threads| > 0
    && match step
       case Add(checks, woken) =>
         && s.threads[0].Outside?
         && if SomeWorkerWaits(s.threads) then 0 < woken < |s.threads| && s.threads[woken] == Blocked(false)
            else woken == 0
       case StartWait => s.threads[0].Outside?
       case Enter(t) => t < |s.threads| && (s.threads[t].Entering? || s.threads[t].Blocked? || Finished(s.threads[t]))
       case RunNext(t) => t < |s.threads| && s.threads[t].Busy? && s.threads[t].next < |s.threads[t].batch|
  }

  function Notify(p: Phase): Phase { if p.Blocked? then Blocked(true) else p }

  function NotifyAll(threads: seq<Phase>): (r: seq<Phase>)
    ensures |r| == |threads|
    ensures forall t :: 0 <= t < |threads| ==> r[t] == Notify(threads[t])
  {
    if threads == [] then [] else [Notify(threads[0])] + NotifyAll(threads[1..])
  }

  lemma {:induction false} NotifyKeeps(threads: seq<Phase>, weight: Phase -> int)
    requires forall p :: weight(Notify(p)) == weight(p)
    ensures Sum(NotifyAll(threads), weight) == Sum(threads, weight)
  {
    if threads != [] {
      NotifyKeeps(threads[1..], weight);
    }
  }

  function Min(a: int, b: int): int { if a < b then a else b }

  /** How many checks a thread takes at once. CountsNonNegative keeps the divisor positive. */
  function BatchCount(s: State, nBatchSize: nat): (n: int)
    ensures n >= 1 && (s.queue != [] ==> n <= |s.queue|)
  {
    var shares := s.nTotal + s.nIdle + 1;
    Max(1, Min(nBatchSize, if shares > 0 then Share(|s.queue|, shares) else 0))
  }

  function Share(n: nat, shares: int): (share: nat)
    requires shares > 0
    ensures share <= n
  {
    var share := n / shares;
    assert n == share * shares + n % shares;
    TimesAtLeast(share, shares);
    share
  }

  lemma TimesAtLeast(q: nat, d: int)
    requires d >= 1
    ensures q <= q * d
  {
  }

  /** The batch is taken from the back of the queue, last check first. */
  function Reverse(q: seq<Check>): (r: seq<Check>)
    ensures |r| == |q| && multiset(r) == multiset(q)
  {
    if q == [] then [] else
      assert q == q[..|q| - 1] + [q[|q| - 1]];
      [q[|q| - 1]] + Reverse(q[..|q| - 1])
  }

  /** Taking the lock: clean-up of the previous pass, registration on the first one, or waking up. */
  function Arrive(s: State, t: nat): State
    requires t < |s.threads|
  {
    match s.threads[t]
    case Busy(batch, _, ok) =>
      var nTodo := s.nTodo - |batch|;
      var threads := s.threads[t := Locked];
      s.(fAllOk := s.fAllOk && ok,
         nTodo := nTodo,
         committed := s.committed + multiset(batch),
         threads := if nTodo == 0 && t != 0 then threads[0 := Notify(threads[0])] else threads)
    case Blocked(_) => s.(nIdle := s.nIdle - 1, threads := s.threads[t := Locked])
    case _ => s.(nTotal := s.nTotal + 1, threads := s.threads[t := Locked])
  }

  /** The rest of the critical section: return, wait, or take a batch. */
  function Decide(s: State, t: nat, nBatchSize: nat): State
    requires t < |s.threads|
  {
    if s.queue == [] then
      if t == 0 && s.nTodo == 0 then
        s.(nTotal := s.nTotal - 1, fAllOk := true, threads := s.threads[t := Outside],
           added := [], committed := multiset{}, ran := multiset{}, skipped := multiset{},
           rounds := s.rounds + [Round(s.added, s.ran, s.skipped, s.fAllOk)])
      else
        s.(nIdle := s.nIdle + 1, threads := s.threads[t := Blocked(false)])
    else
      var n := BatchCount(s, nBatchSize);
      s.(queue := s.queue[..|s.queue| - n],
         threads := s.threads[t := Busy(Reverse(s.queue[|s.queue| - n..]), 0, s.fAllOk)])
  }

  /** Working off the next check of a batch: nothing is evaluated after a failure. */
  function Work(s: State, t: nat, eval: Check -> bool): State
    requires t < |s.threads| && s.threads[t].Busy? && s.threads[t].next < |s.threads[t].batch|
  {
    var p := s.threads[t];
    var check := p.batch[p.next];
    if p.ok then
      s.(threads := s.threads[t := Busy(p.batch, p.next + 1, eval(check))], ran := s.ran + multiset{check})
    else
      s.(threads := s.threads[t := Busy(p.batch, p.next + 1, false)], skipped := s.skipped + multiset{check})
  }

  function AddChecks(s: State, checks: seq<Check>, woken: nat): State
    requires |s.threads| > 0
  {
    s.(queue := s.queue + checks,
       nTodo := s.nTodo + |checks|,
       added := s.added + checks,
       threads := if |checks| == 1 && 0 < woken < |s.threads| then s.threads[woken := Notify(s.threads[woken])]
                  else if |checks| > 1 then [s.threads[0]] + NotifyAll(s.threads[1..])
                  else s.threads)
  }

  function Apply(s: State, step: Step, nBatchSize: nat, eval: Check -> bool): State
    requires Enabled(s, step)
  {
    match step
    case Add(checks, woken) => AddChecks(s, checks, woken)
    case StartWait => s.(threads := s.threads[0 := Entering])
    case Enter(t) => Decide(Arrive(s, t), t, nBatchSize)
    case RunNext(t) => Work(s, t, eval)
  }

  // ---------------------------------------------------------------------
  // The invariant
  // ---------------------------------------------------------------------

  /** nIdle and nTotal count the threads they say they count. */
  predicate Counted(s: State) {
    s.nIdle == Sum(s.threads, IdleWeight) && s.nTotal == Sum(s.threads, TotalWeight)
  }

  lemma CountsNonNegative(s: State)
    requires Counted(s)
    ensures s.nIdle >= 0 && s.nTotal >= 0
  {
    SumNonNegative(s.threads, IdleWeight);
    SumNonNegative(s.threads, TotalWeight);
  }

  lemma ArriveCounted(s: State, t: nat)
    requires Counted(s) && t < |s.threads| && !s.threads[t].Outside? && !s.threads[t].Locked?
    ensures Counted(Arrive(s, t)) && Arrive(s, t).nIdle >= 0 && Arrive(s, t).nTotal >= 0
  {
    SumUpdate(s.threads, t, Locked, IdleWeight);
    SumUpdate(s.threads, t, Locked, TotalWeight);
    var threads := s.threads[t := Locked];
    SumUpdate(threads, 0, Notify(threads[0]), IdleWeight);
    SumUpdate(threads, 0, Notify(threads[0]), TotalWeight);
    CountsNonNegative(Arrive(s, t));
  }

  predicate AllPass(checks: seq<Check>, eval: Check -> bool) {
    forall c :: c in checks ==> eval(c)
  }

  /** A batch is never empty, and its flag tells whether something in it, or before it, has failed. */
  predicate ThreadOk(p: Phase, fAllOk: bool, eval: Check -> bool) {
    p.Busy? ==>
      && 0 < |p.batch| && p.next <= |p.batch|
      && (p.ok ==> forall i :: 0 <= i < p.next ==> eval(p.batch[i]))
      && (!p.ok ==> !fAllOk || exists i :: 0 <= i < p.next && !eval(p.batch[i]))
  }

  predicate ThreadsOk(s: State, eval: Check -> bool) {
    && |s.threads| > 0
    && (forall t :: 0 <= t < |s.threads| ==> ThreadOk(s.threads[t], s.fAllOk, eval))
    && (forall t :: 0 < t < |s.threads| ==> !s.threads[t].Outside?)
  }

  /** No check is lost or duplicated on the way from Add through the batches. */
  predicate Conserved(s: State, c: Check) {
    && Occurrences(s.added, c) == Occurrences(s.queue, c) + Sum(s.threads, HeldWeight(c)) + s.committed[c]
    && s.ran[c] + s.skipped[c] == s.committed[c] + Sum(s.threads, PassedWeight(c))
  }

  ghost predicate AllConserved(s: State) {
    && s.nTodo == |s.queue| + Sum(s.threads, SizeWeight)
    && forall c :: Conserved(s, c)
  }

  predicate VerdictOk(s: State, eval: Check -> bool) {
    && (s.fAllOk ==> forall c :: c in s.committed ==> eval(c))
    && (!s.fAllOk ==> exists c :: c in s.committed && !eval(c))
  }

  /** A check is passed over only after a failure. */
  predicate SkipsOk(s: State) {
    s.skipped != multiset{} && s.fAllOk ==> exists t :: 0 <= t < |s.threads| && s.threads[t].Busy? && !s.threads[t].ok
  }

  /** The master sleeps without a pending notification only while work is out with the workers. */
  predicate MasterOk(s: State) {
    |s.threads| > 0 && (s.threads[0] == Blocked(false) ==> s.queue == [] && s.nTodo > 0)
  }

  predicate RoundOk(r: Round, eval: Check -> bool) {
    && r.result == AllPass(r.added, eval)
    && r.ran + r.skipped == multiset(r.added)
    && (r.result ==> r.ran == multiset(r.added))
  }

  ghost predicate Inv(s: State, eval: Check -> bool) {
    && Counted(s)
    && ThreadsOk(s, eval)
    && AllConserved(s)
    && VerdictOk(s, eval)
    && SkipsOk(s)
    && MasterOk(s)
    && (forall r :: r in s.rounds ==> RoundOk(r, eval))
  }

  /** Replacing one thread's phase shifts every sum by the difference. */
  lemma Replace(threads: seq<Phase>, t: nat, p: Phase)
    requires t < |threads|
    ensures Sum(threads[t := p], IdleWeight) == Sum(threads, IdleWeight) - IdleWeight(threads[t]) + IdleWeight(p)
    ensures Sum(threads[t := p], TotalWeight) == Sum(threads, TotalWeight) - TotalWeight(threads[t]) + TotalWeight(p)
    ensures Sum(threads[t := p], SizeWeight) == Sum(threads, SizeWeight) - SizeWeight(threads[t]) + SizeWeight(p)
  {
    SumUpdate(threads, t, p, IdleWeight);
    SumUpdate(threads, t, p, TotalWeight);
    SumUpdate(threads, t, p, SizeWeight);
  }

  lemma ReplaceFor(threads: seq<Phase>, t: nat, p: Phase, c: Check)
    requires t < |threads|
    ensures Sum(threads[t := p], HeldWeight(c))
      == Sum(threads, HeldWeight(c)) - HeldWeight(c)(threads[t]) + HeldWeight(c)(p)
    ensures Sum(threads[t := p], PassedWeight(c))
      == Sum(threads, PassedWeight(c)) - PassedWeight(c)(threads[t]) + PassedWeight(c)(p)
  {
    SumUpdate(threads, t, p, HeldWeight(c));
    SumUpdate(threads, t, p, PassedWeight(c));
  }

  lemma {:induction false} InitInv(workers: nat, eval: Check -> bool)
    ensures Inv(Init(workers), eval)
  {
    var s := Init(workers);
    assert s.threads[1..] == seq(workers, _ => Entering);
    InitSum(workers, IdleWeight);
    InitSum(workers, TotalWeight);
    InitSum(workers, SizeWeight);
    forall c ensures Conserved(s, c) {
      InitSum(workers, HeldWeight(c));
      InitSum(workers, PassedWeight(c));
    }
  }

  lemma {:induction false} InitSum(workers: nat, weight: Phase -> int)
    requires weight(Entering) == 0
    ensures Sum(seq(workers, _ => Entering), weight) == 0
  {
    if workers > 0 {
      InitSum(workers - 1, weight);
      assert seq(workers, _ => Entering)[1..] == seq(workers - 1, _ => Entering);
    }
  }

  lemma StartInv(s: State, eval: Check -> bool)
    requires Inv(s, eval) && s.threads[0].Outside?
    ensures Inv(s.(threads := s.threads[0 := Entering]), eval)
  {
    Replace(s.threads, 0, Entering);
    var s' := s.(threads := s.threads[0 := Entering]);
    forall c ensures Conserved(s', c) {
      assert Conserved(s, c);
      ReplaceFor(s.threads, 0, Entering, c);
    }
  }

  lemma WorkWeights(batch: seq<Check>, n: nat, ok: bool, ok': bool, c: Check)
    requires n < |batch|
    ensures HeldWeight(c)(Busy(batch, n + 1, ok')) == HeldWeight(c)(Busy(batch, n, ok))
    ensures PassedWeight(c)(Busy(batch, n + 1, ok')) == PassedWeight(c)(Busy(batch, n, ok)) + multiset{batch[n]}[c]
  {
    assert batch[..n + 1] == batch[..n] + [batch[n]];
  }

  lemma WorkConserved(s: State, t: nat, eval: Check -> bool, c: Check)
    requires Conserved(s, c) && Enabled(s, RunNext(t))
    ensures Conserved(Work(s, t, eval), c)
  {
    hide Sum;
    hide HeldWeight;
    hide PassedWeight;
    hide SomeWorkerWaits;
    var s', p := Work(s, t, eval), s.threads[t];
    ReplaceFor(s.threads, t, s'.threads[t], c);
    WorkWeights(p.batch, p.next, p.ok, s'.threads[t].ok, c);
  }

  lemma WorkThreads(s: State, t: nat, eval: Check -> bool)
    requires ThreadsOk(s, eval) && SkipsOk(s) && MasterOk(s) && Enabled(s, RunNext(t))
    ensures var s' := Work(s, t, eval); ThreadsOk(s', eval) && SkipsOk(s') && MasterOk(s')
  {
    var s', p := Work(s, t, eval), s.threads[t];
    if p.ok {
      if !eval(p.batch[p.next]) {
        assert !eval(s'.threads[t].batch[p.next]);
      }
      if s'.skipped != multiset{} && s'.fAllOk {
        var u :| 0 <= u < |s.threads| && s.threads[u].Busy? && !s.threads[u].ok;
        assert s'.threads[u] == s.threads[u];
      }
    } else {
      assert s'.threads[t].Busy? && !s'.threads[t].ok;
    }
  }

  lemma WorkInv(s: State, t: nat, eval: Check -> bool)
    requires Inv(s, eval) && Enabled(s, RunNext(t))
    ensures Inv(Work(s, t, eval), eval)
  {
    hide Sum;
    hide Conserved;
    hide ThreadsOk;
    hide SkipsOk;
    hide MasterOk;
    hide RoundOk;
    Replace(s.threads, t, Work(s, t, eval).threads[t]);
    forall c ensures Conserved(Work(s, t, eval), c) {
      WorkConserved(s, t, eval, c);
    }
    WorkThreads(s, t, eval);
  }

  lemma ArriveWeights(p: Phase, c: Check)
    ensures HeldWeight(c)(Locked) == PassedWeight(c)(Locked) == 0
    ensures HeldWeight(c)(Notify(p)) == HeldWeight(c)(p) && PassedWeight(c)(Notify(p)) == PassedWeight(c)(p)
    ensures !p.Busy? ==> HeldWeight(c)(p) == PassedWeight(c)(p) == 0
    ensures Finished(p) ==> HeldWeight(c)(p) == PassedWeight(c)(p) == multiset(p.batch)[c]
  {
    if Finished(p) {
      assert p.batch[..p.next] == p.batch;
    }
  }

  lemma ArriveFrame(s: State, t: nat, c: Check)
    requires t < |s.threads|
    ensures var s' := Arrive(s, t);
      && s'.added == s.added && s'.queue == s.queue && s'.ran == s.ran && s'.skipped == s.skipped
      && s'.committed[c] == s.committed[c] + if s.threads[t].Busy? then multiset(s.threads[t].batch)[c] else 0
  {
  }

  lemma ArriveSums(s: State, t: nat, c: Check)
    requires t < |s.threads|
    ensures Sum(Arrive(s, t).threads, HeldWeight(c)) == Sum(s.threads, HeldWeight(c)) - HeldWeight(c)(s.threads[t])
    ensures Sum(Arrive(s, t).threads, PassedWeight(c))
      == Sum(s.threads, PassedWeight(c)) - PassedWeight(c)(s.threads[t])
  {
    hide Sum;
    hide HeldWeight;
    hide PassedWeight;
    var mid := s.threads[t := Locked];
    ReplaceFor(s.threads, t, Locked, c);
    ReplaceFor(mid, 0, Notify(mid[0]), c);
    ArriveWeights(mid[0], c);
  }

  lemma ArriveConserved(s: State, t: nat, c: Check)
    requires Conserved(s, c) && Enabled(s, Enter(t))
    ensures Conserved(Arrive(s, t), c)
  {
    hide Sum;
    hide SomeWorkerWaits;
    hide HeldWeight;
    hide PassedWeight;
    hide Arrive;
    hide Occurrences;
    ArriveFrame(s, t, c);
    ArriveSums(s, t, c);
    ArriveWeights(s.threads[t], c);
  }

  lemma ArriveAllConserved(s: State, t: nat)
    requires AllConserved(s) && Enabled(s, Enter(t))
    ensures AllConserved(Arrive(s, t))
  {
    var p, mid := s.threads[t], s.threads[t := Locked];
    Replace(s.threads, t, Locked);
    Replace(mid, 0, Notify(mid[0]));
    forall c ensures Conserved(Arrive(s, t), c) {
      ArriveConserved(s, t, c);
    }
  }

  lemma ArriveThreads(s: State, t: nat, eval: Check -> bool)
    requires ThreadsOk(s, eval) && MasterOk(s) && Enabled(s, Enter(t)) && Arrive(s, t).nTodo >= 0
    ensures ThreadsOk(Arrive(s, t), eval) && MasterOk(Arrive(s, t))
  {
  }

  lemma ArriveSkips(s: State, t: nat)
    requires SkipsOk(s) && Enabled(s, Enter(t))
    ensures SkipsOk(Arrive(s, t))
  {
    var s' := Arrive(s, t);
    if s'.skipped != multiset{} && s'.fAllOk {
      var u :| 0 <= u < |s.threads| && s.threads[u].Busy? && !s.threads[u].ok;
      assert s'.threads[u] == s.threads[u];
    }
  }

  lemma ArriveVerdict(s: State, t: nat, eval: Check -> bool)
    requires ThreadsOk(s, eval) && VerdictOk(s, eval) && Enabled(s, Enter(t))
    ensures VerdictOk(Arrive(s, t), eval)
  {
    assert ThreadOk(s.threads[t], s.fAllOk, eval);
    hide ThreadsOk;
    hide SomeWorkerWaits;
    var s', p := Arrive(s, t), s.threads[t];
    if p.Busy? {
      assert forall c :: c in multiset(p.batch) <==> c in p.batch;
      if !p.ok && s.fAllOk {
        var i :| 0 <= i < p.next && !eval(p.batch[i]);
        assert p.batch[i] in s'.committed;
      } else if !s.fAllOk {
        var c :| c in s.committed && !eval(c);
        assert c in s'.committed;
      }
    }
  }

  lemma ArriveInv(s: State, t: nat, eval: Check -> bool)
    requires Inv(s, eval) && Enabled(s, Enter(t))
    ensures Inv(Arrive(s, t), eval)
  {
    ArriveCounted(s, t);
    ArriveAllConserved(s, t);
    SumNonNegative(Arrive(s, t).threads, SizeWeight);
    ArriveVerdict(s, t, eval);
    ArriveSkips(s, t);
    ArriveThreads(s, t, eval);
  }

  lemma {:induction false} SumZero(threads: seq<Phase>, weight: Phase -> int)
    requires forall t :: 0 <= t < |threads| ==> weight(threads[t]) == 0
    ensures Sum(threads, weight) == 0
  {
    if threads != [] {
      SumZero(threads[1..], weight);
    }
  }

  /** When nothing is queued or counted as outstanding, every check added has been committed. */
  lemma RoundDone(s: State, eval: Check -> bool)
    requires Inv(s, eval) && s.queue == [] && s.nTodo == 0
    ensures forall t :: 0 <= t < |s.threads| ==> !s.threads[t].Busy?
    ensures multiset(s.added) == s.committed == s.ran + s.skipped
    ensures RoundOk(Round(s.added, s.ran, s.skipped, s.fAllOk), eval)
  {
    SumNonNegative(s.threads, SizeWeight);
    assert forall t :: 0 <= t < |s.threads| ==> SizeWeight(s.threads[t]) == 0;
    forall c ensures multiset(s.added)[c] == s.committed[c] == (s.ran + s.skipped)[c] {
      assert Conserved(s, c);
      SumZero(s.threads, HeldWeight(c));
      SumZero(s.threads, PassedWeight(c));
    }
    assert forall c :: c in s.added <==> c in multiset(s.added);
  }

  lemma DecideTakes(s: State, t: nat, nBatchSize: nat, c: Check)
    requires Conserved(s, c) && t < |s.threads| && s.threads[t].Locked? && s.queue != []
    ensures Conserved(Decide(s, t, nBatchSize), c)
  {
    var n := BatchCount(s, nBatchSize);
    var front, back := s.queue[..|s.queue| - n], s.queue[|s.queue| - n..];
    assert s.queue == front + back;
    assert Occurrences(s.queue, c) == Occurrences(front, c) + Occurrences(back, c);
    ReplaceFor(s.threads, t, Busy(Reverse(back), 0, s.fAllOk), c);
    assert Occurrences([], c) == 0 && Reverse(back)[..0] == [];
  }

  lemma DecideConserved(s: State, t: nat, nBatchSize: nat, eval: Check -> bool)
    requires Inv(s, eval) && t < |s.threads| && s.threads[t].Locked?
    ensures AllConserved(Decide(s, t, nBatchSize)) && Counted(Decide(s, t, nBatchSize))
  {
    var s' := Decide(s, t, nBatchSize);
    Replace(s.threads, t, s'.threads[t]);
    forall c ensures Conserved(s', c) {
      assert Conserved(s, c);
      if s.queue != [] {
        DecideTakes(s, t, nBatchSize, c);
      } else {
        ReplaceFor(s.threads, t, s'.threads[t], c);
        if t == 0 && s.nTodo == 0 {
          RoundDone(s, eval);
          SumZero(s.threads, HeldWeight(c));
          SumZero(s.threads, PassedWeight(c));
        }
      }
    }
    if s.queue == [] && t == 0 && s.nTodo == 0 {
      RoundDone(s, eval);
    }
  }

  lemma DecideThreads(s: State, t: nat, nBatchSize: nat, eval: Check -> bool)
    requires Inv(s, eval) && t < |s.threads| && s.threads[t].Locked?
    ensures var s' := Decide(s, t, nBatchSize); ThreadsOk(s', eval) && SkipsOk(s') && MasterOk(s')
  {
    var s' := Decide(s, t, nBatchSize);
    if s.queue == [] && t == 0 && s.nTodo == 0 {
      RoundDone(s, eval);
    } else if s.skipped != multiset{} && s.fAllOk {
      var u :| 0 <= u < |s.threads| && s.threads[u].Busy? && !s.threads[u].ok;
      assert s'.threads[u] == s.threads[u];
    }
    SumNonNegative(s.threads, SizeWeight);
  }

  lemma DecideInv(s: State, t: nat, nBatchSize: nat, eval: Check -> bool)
    requires Inv(s, eval) && t < |s.threads| && s.threads[t].Locked?
    ensures Inv(Decide(s, t, nBatchSize), eval)
  {
    DecideConserved(s, t, nBatchSize, eval);
    DecideThreads(s, t, nBatchSize, eval);
    if s.queue == [] && t == 0 && s.nTodo == 0 {
      RoundDone(s, eval);
    }
  }

  lemma AddSum(s: State, checks: seq<Check>, woken: nat, weight: Phase -> int)
    requires |s.threads| > 0
    requires forall p :: weight(Notify(p)) == weight(p)
    ensures Sum(AddChecks(s, checks, woken).threads, weight) == Sum(s.threads, weight)
  {
    if |checks| == 1 && 0 < woken < |s.threads| {
      SumUpdate(s.threads, woken, Notify(s.threads[woken]), weight);
    } else if |checks| > 1 {
      NotifyKeeps(s.threads[1..], weight);
      var threads := [s.threads[0]] + NotifyAll(s.threads[1..]);
      assert threads[1..] == NotifyAll(s.threads[1..]);
    }
  }

  lemma AddThreads(s: State, checks: seq<Check>, woken: nat)
    requires |s.threads| > 0
    ensures var threads := AddChecks(s, checks, woken).threads;
      |threads| == |s.threads| && threads[0] == s.threads[0] &&
      forall t :: 0 <= t < |threads| ==> threads[t] == s.threads[t] || threads[t] == Notify(s.threads[t])
  {
  }

  lemma AddConserved(s: State, checks: seq<Check>, woken: nat)
    requires Counted(s) && AllConserved(s) && |s.threads| > 0
    ensures Counted(AddChecks(s, checks, woken)) && AllConserved(AddChecks(s, checks, woken))
  {
    var s' := AddChecks(s, checks, woken);
    AddSum(s, checks, woken, IdleWeight);
    AddSum(s, checks, woken, TotalWeight);
    AddSum(s, checks, woken, SizeWeight);
    forall c ensures Conserved(s', c) {
      assert Conserved(s, c);
      AddSum(s, checks, woken, HeldWeight(c));
      AddSum(s, checks, woken, PassedWeight(c));
    }
  }

  lemma AddInv(s: State, checks: seq<Check>, woken: nat, eval: Check -> bool)
    requires Inv(s, eval) && Enabled(s, Add(checks, woken))
    ensures Inv(AddChecks(s, checks, woken), eval)
  {
    var s' := AddChecks(s, checks, woken);
    AddConserved(s, checks, woken);
    AddThreads(s, checks, woken);
    if s.skipped != multiset{} && s.fAllOk {
      var u :| 0 <= u < |s.threads| && s.threads[u].Busy? && !s.threads[u].ok;
      assert s'.threads[u] == s.threads[u];
    }
  }

  // ---------------------------------------------------------------------
  // Runs
  // ---------------------------------------------------------------------

  predicate Legal(s: State, steps: seq<Step>, nBatchSize: nat, eval: Check -> bool)
    decreases |steps|
  {
    steps == [] || (Enabled(s, steps[0]) && Legal(Apply(s, steps[0], nBatchSize, eval), steps[1..], nBatchSize, eval))
  }

  function Run(s: State, steps: seq<Step>, nBatchSize: nat, eval: Check -> bool): State
    requires Legal(s, steps, nBatchSize, eval)
    decreases |steps|
  {
    if steps == [] then s else Run(Apply(s, steps[0], nBatchSize, eval), steps[1..], nBatchSize, eval)
  }

  lemma StepInv(s: State, step: Step, nBatchSize: nat, eval: Check -> bool)
    requires Inv(s, eval) && Enabled(s, step)
    ensures Inv(Apply(s, step, nBatchSize, eval), eval)
  {
    match step
    case Add(checks, woken) => AddInv(s, checks, woken, eval);
    case StartWait => StartInv(s, eval);
    case Enter(t) =>
      ArriveInv(s, t, eval);
      DecideInv(Arrive(s, t), t, nBatchSize, eval);
    case RunNext(t) => WorkInv(s, t, eval);
  }

  lemma {:induction false} RunInv(s: State, steps: seq<Step>, nBatchSize: nat, eval: Check -> bool)
    requires Inv(s, eval) && Legal(s, steps, nBatchSize, eval)
    ensures Inv(Run(s, steps, nBatchSize, eval), eval)
    decreases |steps|
  {
    if steps != [] {
      StepInv(s, steps[0], nBatchSize, eval);
      RunInv(Apply(s, steps[0], nBatchSize, eval), steps[1..], nBatchSize, eval);
    }
  }

  /** In every interleaving, each Wait that returned did so with the conjunction of its round's checks,
      none of which was lost or evaluated twice. */
  lemma WaitIsExact(workers: nat, steps: seq<Step>, nBatchSize: nat, eval: Check -> bool, r: Round)
    requires Legal(Init(workers), steps, nBatchSize, eval)
    requires r in Run(Init(workers), steps, nBatchSize, eval).rounds
    ensures r.result <==> forall c :: c in r.added ==> eval(c)
    ensures r.ran + r.skipped == multiset(r.added)
    ensures r.result ==> r.ran == multiset(r.added)
  {
    InitInv(workers, eval);
    RunInv(Init(workers), steps, nBatchSize, eval);
  }

  /** nTodo is what is queued plus what is in uncommitted batches, check by check. */
  lemma NothingLost(workers: nat, steps: seq<Step>, nBatchSize: nat, eval: Check -> bool, c: Check)
    requires Legal(Init(workers), steps, nBatchSize, eval)
    ensures var s := Run(Init(workers), steps, nBatchSize, eval);
      && s.nTodo == |s.queue| + Sum(s.threads, SizeWeight)
      && Occurrences(s.added, c) == Occurrences(s.queue, c) + Sum(s.threads, HeldWeight(c)) + s.committed[c]
      && s.ran[c] + s.skipped[c] == s.committed[c] + Sum(s.threads, PassedWeight(c))
  {
    InitInv(workers, eval);
    RunInv(Init(workers), steps, nBatchSize, eval);
    assert Conserved(Run(Init(workers), steps, nBatchSize, eval), c);
  }

  /** No lost wakeup: a master asleep with no notification pending is waiting for a worker that holds work. */
  lemma NoLostWakeup(workers: nat, steps: seq<Step>, nBatchSize: nat, eval: Check -> bool) returns (t: nat)
    requires Legal(Init(workers), steps, nBatchSize, eval)
    requires Run(Init(workers), steps, nBatchSize, eval).threads != []
    requires Run(Init(workers), steps, nBatchSize, eval).threads[0] == Blocked(false)
    ensures var s := Run(Init(workers), steps, nBatchSize, eval);
      0 < t < |s.threads| && s.threads[t].Busy? && s.threads[t].batch != []
  {
    InitInv(workers, eval);
    RunInv(Init(workers), steps, nBatchSize, eval);
    t := SumPositive(Run(Init(workers), steps, nBatchSize, eval).threads, SizeWeight);
  }

  // ---------------------------------------------------------------------
  // Wait comes to an end
  // ---------------------------------------------------------------------

  /** A thread waking although nobody notified it. */
  predicate Spurious(s: State, step: Step) {
    step.Enter? && step.t < |s.threads| && s.threads[step.t] == Blocked(false)
  }

  predicate NoneLocked(s: State) {
    forall t :: 0 <= t < |s.threads| ==> !s.threads[t].Locked?
  }

  lemma EnterUnlocked(s: State, t: nat, nBatchSize: nat)
    requires NoneLocked(s) && t < |s.threads|
    ensures NoneLocked(Decide(Arrive(s, t), t, nBatchSize))
  {
    var arrived := Arrive(s, t);
    assert forall u :: 0 <= u < |s.threads| && u != t ==> !arrived.threads[u].Locked?;
    var decided := Decide(arrived, t, nBatchSize);
    assert decided.threads == arrived.threads[t := decided.threads[t]];
  }

  lemma StepUnlocked(s: State, step: Step, nBatchSize: nat, eval: Check -> bool)
    requires NoneLocked(s) && Enabled(s, step)
    ensures NoneLocked(Apply(s, step, nBatchSize, eval))
  {
    match step
    case Add(checks, woken) => AddThreads(s, checks, woken);
    case StartWait =>
    case RunNext(t) =>
    case Enter(t) => EnterUnlocked(s, t, nBatchSize);
  }

  lemma {:induction false} RunUnlocked(s: State, steps: seq<Step>, nBatchSize: nat, eval: Check -> bool)
    requires NoneLocked(s) && Legal(s, steps, nBatchSize, eval)
    ensures NoneLocked(Run(s, steps, nBatchSize, eval))
    decreases |steps|
  {
    if steps != [] {
      StepUnlocked(s, steps[0], nBatchSize, eval);
      RunUnlocked(Apply(s, steps[0], nBatchSize, eval), steps[1..], nBatchSize, eval);
    }
  }

  /** While the master is in Wait, some thread can move on without a spurious wakeup. */
  lemma WaitMovesOn(workers: nat, steps: seq<Step>, nBatchSize: nat, eval: Check -> bool) returns (step: Step)
    requires Legal(Init(workers), steps, nBatchSize, eval)
    requires var s := Run(Init(workers), steps, nBatchSize, eval); s.threads != [] && !s.threads[0].Outside?
    ensures var s := Run(Init(workers), steps, nBatchSize, eval);
      (step.Enter? || step.RunNext?) && Enabled(s, step) && !Spurious(s, step)
  {
    var s := Run(Init(workers), steps, nBatchSize, eval);
    InitInv(workers, eval);
    RunInv(Init(workers), steps, nBatchSize, eval);
    RunUnlocked(Init(workers), steps, nBatchSize, eval);
    var t := 0;
    if s.threads[0] == Blocked(false) {
      t := NoLostWakeup(workers, steps, nBatchSize, eval);
    }
    step := if s.threads[t].Busy? && s.threads[t].next < |s.threads[t].batch| then RunNext(t) else Enter(t);
  }

  function RankWeight(p: Phase): int {
    if p.Busy? then 2 * |p.batch| + 2 * (|p.batch| - p.next)
    else if p.Entering? || p == Blocked(true) then 1 else 0
  }

  function Rank(s: State): int { 6 * |s.queue| + Sum(s.threads, RankWeight) }

  lemma ArriveRank(s: State, t: nat, eval: Check -> bool)
    requires ThreadsOk(s, eval) && Enabled(s, Enter(t))
    ensures Rank(Arrive(s, t)) <= Rank(s) - if Spurious(s, Enter(t)) then 0 else 1
  {
    var mid := s.threads[t := Locked];
    SumUpdate(s.threads, t, Locked, RankWeight);
    SumUpdate(mid, 0, Notify(mid[0]), RankWeight);
  }

  lemma DecideRank(s: State, t: nat, nBatchSize: nat)
    requires t < |s.threads| && s.threads[t].Locked?
    ensures Rank(Decide(s, t, nBatchSize)) <= Rank(s)
  {
    SumUpdate(s.threads, t, Decide(s, t, nBatchSize).threads[t], RankWeight);
  }

  lemma StepRank(s: State, step: Step, nBatchSize: nat, eval: Check -> bool)
    requires ThreadsOk(s, eval) && Enabled(s, step) && (step.Enter? || step.RunNext?)
    ensures Rank(Apply(s, step, nBatchSize, eval)) <= Rank(s) - if Spurious(s, step) then 0 else 1
  {
    if step.Enter? {
      ArriveRank(s, step.t, eval);
      DecideRank(Arrive(s, step.t), step.t, nBatchSize);
    } else {
      SumUpdate(s.threads, step.t, Work(s, step.t, eval).threads[step.t], RankWeight);
    }
  }

  /** How many steps of a run were not spurious wakeups. */
  function Effective(s: State, steps: seq<Step>, nBatchSize: nat, eval: Check -> bool): nat
    requires Legal(s, steps, nBatchSize, eval)
    decreases |steps|
  {
    if steps == [] then 0
    else
      var rest := Effective(Apply(s, steps[0], nBatchSize, eval), steps[1..], nBatchSize, eval);
      if Spurious(s, steps[0]) then rest else rest + 1
  }

  lemma {:induction false} EffectiveBound(s: State, steps: seq<Step>, nBatchSize: nat, eval: Check -> bool)
    requires Inv(s, eval) && Legal(s, steps, nBatchSize, eval)
    requires forall step :: step in steps ==> step.Enter? || step.RunNext?
    ensures Effective(s, steps, nBatchSize, eval) + Rank(Run(s, steps, nBatchSize, eval)) <= Rank(s)
    decreases |steps|
  {
    if steps != [] {
      StepInv(s, steps[0], nBatchSize, eval);
      StepRank(s, steps[0], nBatchSize, eval);
      EffectiveBound(Apply(s, steps[0], nBatchSize, eval), steps[1..], nBatchSize, eval);
    }
  }

  lemma {:induction false} RankBound(threads: seq<Phase>)
    requires forall t :: 0 <= t < |threads| && threads[t].Busy? ==> threads[t].next <= |threads[t].batch|
    ensures 0 <= Sum(threads, RankWeight) <= 4 * Sum(threads, SizeWeight) + |threads|
  {
    if threads != [] {
      RankBound(threads[1..]);
    }
  }

  /** Once nothing is added any more, the threads move at most 6 * nTodo + |threads| times besides
      spurious wakeups; with WaitMovesOn, Wait returns within that many moves. */
  lemma WaitIsBounded(workers: nat, before: seq<Step>, steps: seq<Step>, nBatchSize: nat, eval: Check -> bool)
    requires Legal(Init(workers), before, nBatchSize, eval)
    requires Legal(Run(Init(workers), before, nBatchSize, eval), steps, nBatchSize, eval)
    requires forall step :: step in steps ==> step.Enter? || step.RunNext?
    ensures var s := Run(Init(workers), before, nBatchSize, eval);
      Effective(s, steps, nBatchSize, eval) <= 6 * s.nTodo + |s.threads|
  {
    var s := Run(Init(workers), before, nBatchSize, eval);
    InitInv(workers, eval);
    RunInv(Init(workers), before, nBatchSize, eval);
    EffectiveBound(s, steps, nBatchSize, eval);
    RunInv(s, steps, nBatchSize, eval);
    RankBound(s.threads);
    RankBound(Run(s, steps, nBatchSize, eval).threads);
    SumNonNegative(s.threads, SizeWeight);
  }
}
