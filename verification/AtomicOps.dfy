/**
 The atomic operations that my_atomic.h builds from compare-and-swap, as a state machine: any
 number of threads take turns, one memory access a step. Add and fetch-and-store read the cell
 once and then retry a compare-and-swap; store is a fetch-and-store whose result is dropped; load
 is one compare-and-swap of 0 against 0.

 Besides the cell and the threads, a state records two histories that no step reads: the calls and
 returns in the order they happened, and the operations in the order they took effect.
 */
module AtomicOps {

  /** The value of a cell; it has 8, 16 or 32 bits or those of a pointer, and only an addition can tell which. */
  type word = nat

  /** The number of values of a cell. */
  type Range = n: nat | n > 0 witness 1

  datatype Op = Add(v: word, range: Range) | Fas(v: word) | Store(v: word) | Load | Cas(cmp: word, put: word)

  /** What each operation is documented to leave in the cell, given the value it finds there. */
  function Effect(op: Op, m: word): word {
    match op
    case Add(v, range) => (m + v) % range
    case Fas(v) => v
    case Store(v) => v
    case Load => m
    case Cas(cmp, put) => if m == cmp then put else m
  }

  /** What each operation is documented to return; compare-and-swap leaves its answer in *cmp. */
  function Result(op: Op, m: word): word {
    if op.Store? then 0 else m
  }

  /** The cell after the first n of the operations, one after another. */
  function ValueAfter(init: word, log: seq<Commit>, n: nat): word
    requires n <= |log|
  {
    if n == 0 then init else Effect(log[n - 1].op, ValueAfter(init, log, n - 1))
  }

  // ---------- states ----------

  /** The history: a return names its call and the place of its operation in the log. */
  datatype Moment = Called(op: Op) | Returned(call: nat, ret: word, place: nat)

  /** An operation that took effect: its call (a place in the history), its result, and the history's length then. */
  datatype Commit = Commit(call: nat, op: Op, ret: word, at: nat)

  /**
   Where a thread stands. A thread that retries holds `tmp`; it started when `start` operations had
   taken effect, last looked at the cell when `seen` had, and lost `fails` attempts so far.
   */
  datatype Phase =
    | Idle
    | Entered(call: nat, op: Op)
    | Trying(call: nat, op: Op, tmp: word, start: nat, seen: nat, fails: nat)
    | Finished(call: nat, op: Op, ret: word, place: nat)

  datatype State = State(cell: word, threads: map<nat, Phase>, history: seq<Moment>, log: seq<Commit>)

  function Initial(cell: word): State {
    State(cell, map[], [], [])
  }

  function PhaseOf(s: State, t: nat): Phase {
    if t in s.threads then s.threads[t] else Idle
  }

  // ---------- steps ----------

  /** The machine instruction: the new cell, the new *cmp, and whether the swap happened. */
  function CompareAndSwap(cell: word, cmp: word, put: word): (word, word, bool) {
    if cell == cmp then (put, cmp, true) else (cell, cell, false)
  }

  function Committed(s: State, t: nat, call: nat, op: Op, cell: word, ret: word): State {
    s.(cell := cell,
       threads := s.threads[t := Finished(call, op, ret, |s.log|)],
       log := s.log + [Commit(call, op, ret, |s.history|)])
  }

  /** A retry loop: `v` is stored as it is by fetch-and-store, added to `tmp` by add. */
  function Proposal(op: Op, tmp: word): word
    requires !op.Load? && !op.Cas?
  {
    if op.Add? then (tmp + op.v) % op.range else op.v
  }

  function Invoke(s: State, t: nat, op: Op): State {
    s.(threads := s.threads[t := Entered(|s.history|, op)], history := s.history + [Called(op)])
  }

  /** The next memory access, or the return, of thread t. */
  function Advance(s: State, t: nat): State {
    match PhaseOf(s, t)
    case Idle => s
    case Entered(call, Load) =>
      var (cell, ret, _) := CompareAndSwap(s.cell, 0, 0);
      Committed(s, t, call, Load, cell, ret)
    case Entered(call, Cas(cmp, put)) =>
      var (cell, cmp', _) := CompareAndSwap(s.cell, cmp, put);
      Committed(s, t, call, Cas(cmp, put), cell, cmp')
    case Entered(call, op) =>
      s.(threads := s.threads[t := Trying(call, op, s.cell, |s.log|, |s.log|, 0)])
    case Trying(call, op, tmp, start, seen, fails) =>
      if op.Load? || op.Cas? then s else
      var (cell, tmp', swapped) := CompareAndSwap(s.cell, tmp, Proposal(op, tmp));
      if swapped then Committed(s, t, call, op, cell, if op.Store? then 0 else tmp')
      else s.(threads := s.threads[t := Trying(call, op, tmp', start, |s.log|, fails + 1)])
    case Finished(call, op, ret, place) =>
      s.(threads := s.threads - {t}, history := s.history + [Returned(call, ret, place)])
  }

  datatype Act = Invoking(t: nat, op: Op) | Advancing(t: nat)

  ghost predicate Step(s: State, a: Act, s': State) {
    match a
    case Invoking(t, op) => PhaseOf(s, t).Idle? && s' == Invoke(s, t, op)
    case Advancing(t) => s' == Advance(s, t)
  }

  ghost predicate IsRun(init: word, ss: seq<State>, acts: seq<Act>) {
    && |ss| == |acts| + 1 && ss[0] == Initial(init)
    && forall i {:trigger Step(ss[i], acts[i], ss[i + 1])} :: 0 <= i < |acts| ==> Step(ss[i], acts[i], ss[i + 1])
  }

  // ---------- the invariant ----------

  type History = seq<Moment>
  type Log = seq<Commit>

  /** The cell and every result are those of the logged operations run one after another. */
  ghost predicate Sequential(init: word, cell: word, log: Log) {
    && cell == ValueAfter(init, log, |log|)
    && forall i :: 0 <= i < |log| ==> log[i].ret == Result(log[i].op, ValueAfter(init, log, i))
  }

  /** Each logged operation took effect after its own call; the log is in order of time and logs no call twice. */
  ghost predicate Ordered(h: History, log: Log) {
    && (forall i :: 0 <= i < |log| ==>
          log[i].call < log[i].at <= |h| && h[log[i].call] == Called(log[i].op))
    && (forall i, j :: 0 <= i < j < |log| ==> log[i].at <= log[j].at && log[i].call != log[j].call)
  }

  ghost predicate Logged(log: Log, place: nat, call: nat, ret: word) {
    place < |log| && log[place].call == call && log[place].ret == ret
  }

  /** Every return reports an operation that had taken effect by then; no call returns twice. */
  ghost predicate Answered(h: History, log: Log) {
    && (forall r :: 0 <= r < |h| && h[r].Returned? ==>
          Logged(log, h[r].place, h[r].call, h[r].ret) && log[h[r].place].at <= r)
    && (forall q, r :: 0 <= q < r < |h| && h[q].Returned? && h[r].Returned? ==> h[q].call != h[r].call)
  }

  ghost predicate Unlogged(log: Log, call: nat) {
    forall i :: 0 <= i < |log| ==> log[i].call != call
  }

  ghost predicate Unanswered(h: History, call: nat) {
    forall r :: 0 <= r < |h| && h[r].Returned? ==> h[r].call != call
  }

  ghost predicate PhaseOk(init: word, h: History, log: Log, p: Phase) {
    p.Idle? || (
      && p.call < |h| && h[p.call] == Called(p.op) && Unanswered(h, p.call)
      && match p
         case Entered(call, op) => Unlogged(log, call)
         case Trying(call, op, tmp, start, seen, fails) =>
           && Unlogged(log, call) && !op.Load? && !op.Cas?
           && start + fails <= seen <= |log| && tmp == ValueAfter(init, log, seen)
         case Finished(call, op, ret, place) => Logged(log, place, call, ret))
  }

  ghost predicate Apart(p: Phase, q: Phase) {
    p.Idle? || q.Idle? || p.call != q.call
  }

  ghost predicate Threads(init: word, threads: map<nat, Phase>, h: History, log: Log) {
    && (forall t :: t in threads ==> PhaseOk(init, h, log, threads[t]))
    && (forall t, u :: t in threads && u in threads && t != u ==> Apart(threads[t], threads[u]))
  }

  ghost predicate Inv(init: word, s: State) {
    && Sequential(init, s.cell, s.log)
    && Ordered(s.history, s.log)
    && Answered(s.history, s.log)
    && Threads(init, s.threads, s.history, s.log)
  }

  // ---------- every step keeps it ----------

  lemma {:induction false} ValueAfterPrefix(init: word, log: Log, c: Commit, n: nat)
    requires n <= |log|
    ensures ValueAfter(init, log + [c], n) == ValueAfter(init, log, n)
  {
    if n > 0 {
      ValueAfterPrefix(init, log, c, n - 1);
    }
  }

  lemma SequentialCommit(init: word, cell: word, log: Log, c: Commit)
    requires Sequential(init, cell, log) && c.ret == Result(c.op, cell)
    ensures Sequential(init, Effect(c.op, cell), log + [c])
  {
    forall i | 0 <= i <= |log| ensures ValueAfter(init, log + [c], i) == ValueAfter(init, log, i) {
      ValueAfterPrefix(init, log, c, i);
    }
  }

  /** A thread's phase is untouched by what other threads do to the history and the log. */
  lemma PhaseOkSurvives(init: word, h: History, log: Log, p: Phase, m: Moment, c: Commit)
    requires PhaseOk(init, h, log, p)
    ensures (p.Idle? || m.Called? || m.call != p.call) ==> PhaseOk(init, h + [m], log, p)
    ensures (p.Idle? || c.call != p.call) ==> PhaseOk(init, h, log + [c], p)
  {
    if p.Trying? {
      ValueAfterPrefix(init, log, c, p.seen);
    }
  }

  /** One thread moves on; the others keep their phases. */
  lemma ThreadMoves(init: word, threads: map<nat, Phase>, t: nat, p: Phase,
                    h: History, log: Log, h': History, log': Log)
    requires Threads(init, threads, h, log)
    requires PhaseOk(init, h', log', p)
    requires forall u :: u in threads && u != t ==> PhaseOk(init, h', log', threads[u]) && Apart(threads[u], p)
    ensures Threads(init, threads[t := p], h', log')
    ensures Threads(init, threads - {t}, h', log')
  {
  }

  lemma InvokeKeepsInv(init: word, s: State, t: nat, op: Op)
    requires Inv(init, s) && PhaseOf(s, t).Idle?
    ensures Inv(init, Invoke(s, t, op))
  {
    var h, m, p := s.history, Called(op), Entered(|s.history|, op);
    assert Unlogged(s.log, |h|);
    assert Ordered(h + [m], s.log) && Answered(h + [m], s.log);
    assert Unanswered(h + [m], |h|) by {
      assert forall r :: 0 <= r < |h| && h[r].Returned? ==> Logged(s.log, h[r].place, h[r].call, h[r].ret);
    }
    forall u | u in s.threads && u != t
      ensures PhaseOk(init, h + [m], s.log, s.threads[u]) && Apart(s.threads[u], p)
    {
      PhaseOkSurvives(init, h, s.log, s.threads[u], m, Commit(0, op, 0, 0));
    }
    ThreadMoves(init, s.threads, t, p, h, s.log, h + [m], s.log);
  }

  lemma ReturnKeepsInv(init: word, s: State, t: nat)
    requires Inv(init, s) && PhaseOf(s, t).Finished?
    ensures Inv(init, Advance(s, t))
  {
    var h, p := s.history, s.threads[t];
    var m := Returned(p.call, p.ret, p.place);
    assert PhaseOk(init, h, s.log, p);
    assert Ordered(h + [m], s.log) && Answered(h + [m], s.log);
    forall u | u in s.threads && u != t ensures PhaseOk(init, h + [m], s.log, s.threads[u]) {
      assert Apart(s.threads[u], p);
      PhaseOkSurvives(init, h, s.log, s.threads[u], m, Commit(0, p.op, 0, 0));
    }
    ThreadMoves(init, s.threads, t, Idle, h, s.log, h + [m], s.log);
  }

  /** A thread that commits: its answer and the new cell are those of its operation applied to the cell. */
  lemma CommitKeepsInv(init: word, s: State, t: nat)
    requires Inv(init, s) && t in s.threads
    requires var p := s.threads[t]; (p.Entered? || p.Trying?)
    ensures var p := s.threads[t];
            Inv(init, Committed(s, t, p.call, p.op, Effect(p.op, s.cell), Result(p.op, s.cell)))
  {
    var h, log, p := s.history, s.log, s.threads[t];
    var c := Commit(p.call, p.op, Result(p.op, s.cell), |h|);
    assert PhaseOk(init, h, log, p);
    SequentialCommit(init, s.cell, log, c);
    assert Ordered(h, log + [c]) && Answered(h, log + [c]);
    var p' := Finished(p.call, p.op, c.ret, |log|);
    forall u | u in s.threads && u != t
      ensures PhaseOk(init, h, log + [c], s.threads[u]) && Apart(s.threads[u], p')
    {
      assert Apart(s.threads[u], p);
      PhaseOkSurvives(init, h, log, s.threads[u], Called(p.op), c);
    }
    ThreadMoves(init, s.threads, t, p', h, log, h, log + [c]);
  }

  /** A thread that only looks at the cell. */
  lemma LookKeepsInv(init: word, s: State, t: nat, p: Phase)
    requires Inv(init, s) && t in s.threads
    requires PhaseOk(init, s.history, s.log, p)
    requires !s.threads[t].Idle? && !p.Idle? && p.call == s.threads[t].call
    ensures Inv(init, s.(threads := s.threads[t := p]))
  {
    forall u | u in s.threads && u != t ensures Apart(s.threads[u], p) {
      assert Apart(s.threads[u], s.threads[t]);
    }
    ThreadMoves(init, s.threads, t, p, s.history, s.log, s.history, s.log);
  }

  /** A step that takes effect does to the cell what its operation is documented to do. */
  lemma CommitStep(s: State, t: nat)
    requires var p := PhaseOf(s, t);
             (p.Entered? && (p.op.Load? || p.op.Cas?))
             || (p.Trying? && !p.op.Load? && !p.op.Cas? && p.tmp == s.cell)
    ensures var p := PhaseOf(s, t);
            Advance(s, t) == Committed(s, t, p.call, p.op, Effect(p.op, s.cell), Result(p.op, s.cell))
  {
  }

  /** The other steps of a thread inside a call only change what the thread holds. */
  function Looked(s: State, p: Phase): Phase
    requires p.Entered? || p.Trying?
  {
    if p.Entered? then Trying(p.call, p.op, s.cell, |s.log|, |s.log|, 0)
    else Trying(p.call, p.op, s.cell, p.start, |s.log|, p.fails + 1)
  }

  lemma LookStep(s: State, t: nat)
    requires var p := PhaseOf(s, t);
             (p.Entered? || (p.Trying? && p.tmp != s.cell)) && !p.op.Load? && !p.op.Cas?
    ensures Advance(s, t) == s.(threads := s.threads[t := Looked(s, PhaseOf(s, t))])
  {
  }

  /** A call enters the history, and a finished thread's next step returns its result and frees the thread. */
  lemma CallAndReturn(s: State, t: nat, op: Op)
    ensures var s' := Invoke(s, t, op);
            && PhaseOf(s', t) == Entered(|s.history|, op) && s'.history == s.history + [Called(op)]
            && s'.cell == s.cell && s'.log == s.log && forall u :: u != t ==> PhaseOf(s', u) == PhaseOf(s, u)
    ensures var (p, s') := (PhaseOf(s, t), Advance(s, t));
            p.Finished? ==>
              && PhaseOf(s', t).Idle? && s'.history == s.history + [Returned(p.call, p.ret, p.place)]
              && s'.cell == s.cell && s'.log == s.log && forall u :: u != t ==> PhaseOf(s', u) == PhaseOf(s, u)
  {
  }

  /**
   A thread that is left alone gets through: from its call it needs at most three steps to return the
   result of its operation on the value it found, and it leaves what the operation makes of that value.
   */
  lemma AloneReturns(s: State, t: nat)
    requires PhaseOf(s, t).Entered?
    ensures var p := PhaseOf(s, t);
            var steps := if p.op.Load? || p.op.Cas? then 2 else 3;
            var s' := Alone(s, t, steps);
            && s'.cell == Effect(p.op, s.cell) && PhaseOf(s', t).Idle?
            && s'.history == s.history + [Returned(p.call, Result(p.op, s.cell), |s.log|)]
  {
    var p := PhaseOf(s, t);
    assert Alone(s, t, 1) == Advance(s, t) && Alone(s, t, 2) == Advance(Alone(s, t, 1), t);
    if p.op.Load? || p.op.Cas? {
      CommitStep(s, t);
    } else {
      LookStep(s, t);
      CommitStep(Alone(s, t, 1), t);
      assert Alone(s, t, 3) == Advance(Alone(s, t, 2), t);
    }
  }

  /** Some steps of one thread and no other. */
  function Alone(s: State, t: nat, steps: nat): State {
    if steps == 0 then s else Advance(Alone(s, t, steps - 1), t)
  }

  /** A lost attempt means that the log has grown since the thread last looked. */
  lemma LostToLog(init: word, cell: word, h: History, log: Log, p: Phase)
    requires Sequential(init, cell, log) && PhaseOk(init, h, log, p) && p.Trying? && p.tmp != cell
    ensures p.seen < |log|
  {
  }

  lemma LookedOk(init: word, s: State, p: Phase)
    requires Sequential(init, s.cell, s.log) && PhaseOk(init, s.history, s.log, p)
    requires p.Entered? || (p.Trying? && p.tmp != s.cell)
    requires !p.op.Load? && !p.op.Cas?
    ensures PhaseOk(init, s.history, s.log, Looked(s, p))
  {
  }

  lemma AdvanceKeepsInv(init: word, s: State, t: nat)
    requires Inv(init, s)
    ensures Inv(init, Advance(s, t))
  {
    var p := PhaseOf(s, t);
    if p.Idle? {
    } else if p.Finished? {
      ReturnKeepsInv(init, s, t);
    } else {
      assert PhaseOk(init, s.history, s.log, p);
      if p.op.Load? || p.op.Cas? || (p.Trying? && p.tmp == s.cell) {
        CommitStep(s, t);
        CommitKeepsInv(init, s, t);
      } else {
        LookStep(s, t);
        LookedOk(init, s, p);
        LookKeepsInv(init, s, t, Looked(s, p));
      }
    }
  }

  lemma {:induction false} RunKeepsInv(init: word, ss: seq<State>, acts: seq<Act>, n: nat)
    requires IsRun(init, ss, acts) && n <= |acts|
    ensures Inv(init, ss[n])
  {
    if n > 0 {
      var k := n - 1;
      RunKeepsInv(init, ss, acts, k);
      assert Step(ss[k], acts[k], ss[k + 1]);
      match acts[k]
      case Invoking(t, op) => InvokeKeepsInv(init, ss[k], t, op);
      case Advancing(t) => AdvanceKeepsInv(init, ss[k], t);
    }
  }

  // ---------- what the operations promise ----------

  /**
   Linearizability: the log is a sequential run of the operations, each between its call and its
   return, that explains the cell and every answer. Operations that do not overlap keep their order.
   */
  ghost predicate Linearized(init: word, s: State) {
    && Sequential(init, s.cell, s.log)
    && (forall i :: 0 <= i < |s.log| ==>
          s.log[i].call < |s.history| && s.history[s.log[i].call] == Called(s.log[i].op))
    && (forall i, j :: 0 <= i < j < |s.log| ==> s.log[i].call != s.log[j].call)
    && (forall r :: 0 <= r < |s.history| && s.history[r].Returned? ==>
          Logged(s.log, s.history[r].place, s.history[r].call, s.history[r].ret))
    && (forall r, j :: 0 <= r < |s.history| && s.history[r].Returned? && 0 <= j < |s.log| && r < s.log[j].call ==>
          s.history[r].place < j)
  }

  lemma OrderKept(h: History, log: Log, r: nat, j: nat)
    requires Ordered(h, log) && Answered(h, log)
    requires r < |h| && h[r].Returned? && j < |log| && r < log[j].call
    ensures h[r].place < j
  {
  }

  lemma EveryRunIsLinearized(init: word, ss: seq<State>, acts: seq<Act>, n: nat)
    requires IsRun(init, ss, acts) && n <= |acts|
    ensures Linearized(init, ss[n])
  {
    RunKeepsInv(init, ss, acts, n);
    InvLinearizes(init, ss[n]);
  }

  lemma InvLinearizes(init: word, s: State)
    requires Inv(init, s)
    ensures Linearized(init, s)
  {
    forall r, j | 0 <= r < |s.history| && s.history[r].Returned? && 0 <= j < |s.log| && r < s.log[j].call
      ensures s.history[r].place < j
    {
      OrderKept(s.history, s.log, r, j);
    }
  }

  /**
   In words of the cell: an operation other than a store answers the value it found; an addition leaves
   the sum, a fetch-and-store and a store their argument, a load nothing new, and a compare-and-swap its
   new value exactly where it found the expected one.
   */
  ghost predicate Explains(op: Op, ret: word, was: word, now: word) {
    && (!op.Store? ==> ret == was)
    && match op
       case Add(v, range) => now == (was + v) % range
       case Fas(v) => now == v
       case Store(v) => now == v
       case Load => now == was
       case Cas(cmp, put) => now == if was == cmp then put else was
  }

  lemma SequentialExplains(init: word, cell: word, log: Log, i: nat)
    requires Sequential(init, cell, log) && i < |log|
    ensures Explains(log[i].op, log[i].ret, ValueAfter(init, log, i), ValueAfter(init, log, i + 1))
  {
  }

  /** At any point of any run that is so of each operation that took effect, from the first value to the present one. */
  lemma RunExplained(init: word, ss: seq<State>, acts: seq<Act>, n: nat, i: nat)
    requires IsRun(init, ss, acts) && n <= |acts| && i < |ss[n].log|
    ensures var log := ss[n].log;
            Explains(log[i].op, log[i].ret, ValueAfter(init, log, i), ValueAfter(init, log, i + 1))
    ensures ValueAfter(init, ss[n].log, 0) == init && ValueAfter(init, ss[n].log, |ss[n].log|) == ss[n].cell
  {
    EveryRunIsLinearized(init, ss, acts, n);
    SequentialExplains(init, ss[n].cell, ss[n].log, i);
  }

  /** The operation is one on cells of this range. */
  predicate OfRange(op: Op, range: Range) {
    match op
    case Add(v, r) => v < range && r == range
    case Fas(v) => v < range
    case Store(v) => v < range
    case Load => true
    case Cas(cmp, put) => cmp < range && put < range
  }

  lemma {:induction false} ValuesFit(init: word, log: Log, n: nat, range: Range)
    requires n <= |log| && init < range && forall i :: 0 <= i < |log| ==> OfRange(log[i].op, range)
    ensures ValueAfter(init, log, n) < range
  {
    if n > 0 {
      ValuesFit(init, log, n - 1, range);
    }
  }

  /** If all calls are for cells of one range, the cell never leaves it, and no answer does. */
  lemma RunFits(init: word, ss: seq<State>, acts: seq<Act>, n: nat, range: Range)
    requires IsRun(init, ss, acts) && n <= |acts| && init < range
    requires forall r :: 0 <= r < |ss[n].history| && ss[n].history[r].Called? ==> OfRange(ss[n].history[r].op, range)
    ensures ss[n].cell < range
    ensures forall r :: 0 <= r < |ss[n].history| && ss[n].history[r].Returned? ==> ss[n].history[r].ret < range
  {
    var s := ss[n];
    EveryRunIsLinearized(init, ss, acts, n);
    forall i | 0 <= i < |s.log| ensures OfRange(s.log[i].op, range) {
      assert s.history[s.log[i].call] == Called(s.log[i].op);
    }
    ValuesFit(init, s.log, |s.log|, range);
    forall r | 0 <= r < |s.history| && s.history[r].Returned? ensures s.history[r].ret < range {
      var place := s.history[r].place;
      assert Logged(s.log, place, s.history[r].call, s.history[r].ret);
      ValuesFit(init, s.log, place, range);
    }
  }

  /** An attempt is lost only to operations of other calls that took effect since the last look at the cell. */
  lemma LostOnlyToOthers(init: word, ss: seq<State>, acts: seq<Act>, n: nat, t: nat)
    requires IsRun(init, ss, acts) && n <= |acts|
    requires PhaseOf(ss[n], t).Trying? && PhaseOf(Advance(ss[n], t), t).Trying?
    ensures var s, p := ss[n], PhaseOf(ss[n], t);
            p.seen < |s.log| && forall i :: p.seen <= i < |s.log| ==> s.log[i].call != p.call
  {
    RunKeepsInv(init, ss, acts, n);
    var s, p := ss[n], PhaseOf(ss[n], t);
    assert PhaseOk(init, s.history, s.log, p);
    if p.tmp == s.cell {
      CommitStep(s, t);
    }
    LostToLog(init, s.cell, s.history, s.log, p);
  }

  /** No thread loses more attempts than operations took effect since it started: some thread always gets on. */
  lemma AttemptsBounded(init: word, ss: seq<State>, acts: seq<Act>, n: nat, t: nat)
    requires IsRun(init, ss, acts) && n <= |acts| && PhaseOf(ss[n], t).Trying?
    ensures var p := PhaseOf(ss[n], t); p.fails <= |ss[n].log| - p.start
  {
    RunKeepsInv(init, ss, acts, n);
    assert PhaseOk(init, ss[n].history, ss[n].log, ss[n].threads[t]);
  }
}
