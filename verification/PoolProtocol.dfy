/** `PersistentWorkerPool` as a step system.

  One action is one critical section of a thread, one notification issued outside the lock, one index
  of a running task, or a spurious wake-up.  Evaluating a wait predicate and blocking is one action
  because `wait` releases the mutex and blocks atomically.  The task body of `parallel_for` writes
  `y[r]` for each index `r` of its range, so a job carries the value that index `r` has to get. */
module PoolProtocol {
  import opened Chunking
  import opened Words

  /** Ready: about to take the lock and evaluate the wait predicate.  Blocked: waiting on `m_cv_task`.
    Running: holding a popped task whose indices below `next` are done. */
  datatype Worker = Ready | Blocked | Running(task: Range, next: nat) | Exited

  /** Idle: outside any call.  Notifying / Stopping: the lock was released, `notify_all` on `m_cv_task`
    is still to come.  Checking: about to evaluate the `m_cv_done` predicate.  Waiting: blocked on it. */
  datatype Caller = Idle | Notifying | Checking | Waiting | Stopping | Joining | Joined

  /** `goal[r]` is what the task body stores at `r`; `before` is the output array when the call began;
    `chunks` is 0 before the first call. */
  datatype Job<T> = Job(goal: seq<T>, before: seq<T>, chunks: nat)

  /** How often the tasks of a job process index `i`. */
  ghost function Due<T>(job: Job<T>, i: int): nat
  {
    if job.chunks == 0 then 0 else Times(Chunks(|job.goal|, job.chunks), i)
  }

  datatype Pool<T> = Pool(
    tasks: seq<Range>, working: int, stop: bool,
    workers: seq<Worker>, caller: Caller,
    job: Job<T>, output: seq<T>, hits: seq<nat>)

  datatype Action<T> =
    | Call(goal: seq<T>, chunks: nat)
    | NotifyTasks
    | CheckDone
    | SpuriousDone
    | WorkerCheck(w: nat)
    | WorkerStep(w: nat)
    | WorkerFinish(w: nat)
    | SpuriousTask(w: nat)
    | Stop
    | NotifyStop
    | Join

  function Init<T>(n: nat, output: seq<T>): Pool<T>
  {
    Pool([], 0, false, seq(n, _ => Ready), Idle, Job([], output, 0), output, [])
  }

  /** `m_cv_task.notify_all()`. */
  function WakeAll(ws: seq<Worker>): seq<Worker>
  {
    seq(|ws|, k requires 0 <= k < |ws| => if ws[k] == Blocked then Ready else ws[k])
  }

  predicate Done<T>(s: Pool<T>) { s.tasks == [] && s.working == 0 }

  ghost predicate Enabled<T>(s: Pool<T>, a: Action<T>)
  {
    match a
    case Call(goal, chunks) =>
      s.caller == Idle && 0 < chunks < U64_LIMIT && |goal| < U64_LIMIT && |goal| <= |s.output|
    case NotifyTasks => s.caller == Notifying
    case CheckDone => s.caller == Checking
    case SpuriousDone => s.caller == Waiting
    case WorkerCheck(w) => w < |s.workers| && s.workers[w] == Ready
    case WorkerStep(w) => w < |s.workers| && s.workers[w].Running? && s.workers[w].next < s.workers[w].task.hi
                          && s.workers[w].next < |s.output| && s.workers[w].next < |s.hits| == |s.job.goal|
    case WorkerFinish(w) => w < |s.workers| && s.workers[w].Running? && s.workers[w].next >= s.workers[w].task.hi
    case SpuriousTask(w) => w < |s.workers| && s.workers[w] == Blocked
    case Stop => s.caller == Idle
    case NotifyStop => s.caller == Stopping
    case Join => s.caller == Joining && forall w :: 0 <= w < |s.workers| ==> s.workers[w] == Exited
  }

  /** What a worker does with the lock in hand: block, leave, or pop the most recently pushed task. */
  function Checked<T>(s: Pool<T>, w: nat): Pool<T>
    requires w < |s.workers|
  {
    if s.tasks != [] then
      var task := s.tasks[|s.tasks| - 1];
      s.(tasks := s.tasks[..|s.tasks| - 1], working := s.working + 1,
         workers := s.workers[w := Running(task, task.lo)])
    else
      s.(workers := s.workers[w := if s.stop then Exited else Blocked])
  }

  /** The decrement after a task, with the `m_cv_done` notification made under the same lock. */
  function Finished<T>(s: Pool<T>, w: nat): Pool<T>
    requires w < |s.workers|
  {
    var working := s.working - 1;
    s.(working := working, workers := s.workers[w := Ready],
       caller := if s.tasks == [] && working == 0 && s.caller == Waiting then Checking else s.caller)
  }

  ghost function Next<T>(s: Pool<T>, a: Action<T>): Pool<T>
    requires Enabled(s, a)
  {
    match a
    case Call(goal, chunks) =>
      s.(tasks := s.tasks + Chunks(|goal|, chunks), caller := Notifying,
         job := Job(goal, s.output, chunks), hits := seq(|goal|, _ => 0))
    case NotifyTasks => s.(workers := WakeAll(s.workers), caller := Checking)
    case CheckDone => s.(caller := if Done(s) then Idle else Waiting)
    case SpuriousDone => s.(caller := Checking)
    case WorkerCheck(w) => Checked(s, w)
    case WorkerStep(w) =>
      var r := s.workers[w].next;
      s.(workers := s.workers[w := Running(s.workers[w].task, r + 1)],
         output := s.output[r := s.job.goal[r]],
         hits := s.hits[r := s.hits[r] + 1])
    case WorkerFinish(w) => Finished(s, w)
    case SpuriousTask(w) => s.(workers := s.workers[w := Ready])
    case Stop => s.(stop := true, caller := Stopping)
    case NotifyStop => s.(workers := WakeAll(s.workers), caller := Joining)
    case Join => s.(caller := Joined)
  }

  // ---- sums over the workers ----

  ghost function Sum(ws: seq<Worker>, f: Worker -> int): int
  {
    if ws == [] then 0 else f(ws[0]) + Sum(ws[1..], f)
  }

  lemma {:induction false} SumUpdate(ws: seq<Worker>, w: nat, x: Worker, f: Worker -> int)
    requires w < |ws|
    ensures Sum(ws[w := x], f) == Sum(ws, f) - f(ws[w]) + f(x)
  {
    if w == 0 {
      assert ws[w := x][1..] == ws[1..];
    } else {
      assert ws[w := x][1..] == ws[1..][w - 1 := x];
      SumUpdate(ws[1..], w - 1, x, f);
    }
  }

  /** Waking changes a sum by at least nothing and at most `f(Ready) - f(Blocked)` per worker. */
  lemma {:induction false} SumWake(ws: seq<Worker>, f: Worker -> int)
    requires f(Blocked) <= f(Ready)
    ensures Sum(ws, f) <= Sum(WakeAll(ws), f) <= Sum(ws, f) + |ws| * (f(Ready) - f(Blocked))
  {
    if ws != [] {
      assert WakeAll(ws)[1..] == WakeAll(ws[1..]);
      SumWake(ws[1..], f);
      var d := f(Ready) - f(Blocked);
      assert |ws| * d == |ws[1..]| * d + d;
    }
  }

  lemma {:induction false} SumFresh(n: nat, x: Worker, f: Worker -> int)
    ensures Sum(seq(n, _ => x), f) == n * f(x)
  {
    if n != 0 {
      assert seq(n, _ => x)[1..] == seq(n - 1, _ => x);
      SumFresh(n - 1, x, f);
      assert n * f(x) == (n - 1) * f(x) + f(x);
    }
  }

  lemma {:induction false} SumNonNegative(ws: seq<Worker>, f: Worker -> int)
    requires forall x :: f(x) >= 0
    ensures Sum(ws, f) >= 0
    ensures forall w :: 0 <= w < |ws| ==> f(ws[w]) <= Sum(ws, f)
  {
    if ws != [] {
      SumNonNegative(ws[1..], f);
      forall w | 0 <= w < |ws|
        ensures f(ws[w]) <= Sum(ws, f)
      {
        if w > 0 {
          assert ws[w] == ws[1..][w - 1];
        }
      }
    }
  }

  /** 1 for a worker that `m_working` counts. */
  ghost function IsRunning(x: Worker): int { if x.Running? then 1 else 0 }

  /** 1 when index `i` is still to be processed by this worker. */
  ghost function Owes(i: int): Worker -> int
  {
    (x: Worker) => if x.Running? && x.next <= i < x.task.hi then 1 else 0
  }

  // ---- the invariant ----

  /** Executions done, queued and in progress of index `i`. */
  ghost function Account<T>(s: Pool<T>, i: int): int
    requires 0 <= i < |s.hits|
  {
    s.hits[i] + Times(s.tasks, i) + Sum(s.workers, Owes(i))
  }

  ghost predicate WellShaped<T>(s: Pool<T>)
  {
    && |s.hits| == |s.job.goal| <= |s.output| == |s.job.before|
    && (forall k :: 0 <= k < |s.tasks| ==> s.tasks[k].lo <= s.tasks[k].hi <= |s.job.goal|)
    && (forall w :: 0 <= w < |s.workers| && s.workers[w].Running? ==>
          s.workers[w].task.lo <= s.workers[w].next <= s.workers[w].task.hi <= |s.job.goal|)
  }

  /** Executions are conserved: those done, queued and in progress are together the ones the call pushed. */
  ghost predicate Conserved<T>(s: Pool<T>)
  {
    forall i :: 0 <= i < |s.hits| ==> Account(s, i) == Due(s.job, i)
  }

  ghost predicate OutputTracksHits<T>(s: Pool<T>)
    requires WellShaped(s)
  {
    forall i :: 0 <= i < |s.output| ==>
      s.output[i] == if i < |s.hits| && s.hits[i] != 0 then s.job.goal[i] else s.job.before[i]
  }

  /** No lost wake-up: a worker blocks only while there is nothing to do, apart from the moment
    between a push (or the stop request) and its notification. */
  ghost predicate NoLostTask<T>(s: Pool<T>)
  {
    (s.tasks != [] || s.stop) && s.caller != Notifying && s.caller != Stopping ==>
      forall w :: 0 <= w < |s.workers| ==> s.workers[w] != Blocked
  }

  ghost predicate CallerPhase<T>(s: Pool<T>)
  {
    && (s.caller == Waiting ==> !Done(s))
    && (s.caller == Idle || s.stop ==> Done(s))
    && (s.stop <==> s.caller == Stopping || s.caller == Joining || s.caller == Joined)
    && (forall w :: 0 <= w < |s.workers| && s.workers[w] == Exited ==> s.stop)
    && (s.caller == Joined ==> forall w :: 0 <= w < |s.workers| ==> s.workers[w] == Exited)
  }

  ghost predicate Inv<T>(s: Pool<T>)
  {
    && WellShaped(s)
    && s.working == Sum(s.workers, IsRunning)
    && Conserved(s)
    && OutputTracksHits(s)
    && NoLostTask(s)
    && CallerPhase(s)
  }

  lemma InitInv<T>(n: nat, output: seq<T>)
    ensures Inv(Init(n, output))
  {
    SumFresh(n, Ready, IsRunning);
  }

  lemma {:induction false} NothingOwed(ws: seq<Worker>, i: int)
    requires Sum(ws, IsRunning) == 0
    ensures Sum(ws, Owes(i)) == 0
    ensures forall w :: 0 <= w < |ws| ==> !ws[w].Running?
  {
    if ws != [] {
      SumNonNegative(ws[1..], IsRunning);
      NothingOwed(ws[1..], i);
      forall w | 0 <= w < |ws|
        ensures !ws[w].Running?
      {
        if w > 0 {
          assert ws[w] == ws[1..][w - 1];
        }
      }
    }
  }

  /** When nothing is queued or running, every index has been executed as often as it was pushed, and the
    output is the goal where that is at least once and untouched elsewhere. */
  lemma DoneMeansExecuted<T>(s: Pool<T>)
    requires Inv(s) && Done(s)
    ensures forall i :: 0 <= i < |s.hits| ==> s.hits[i] == Due(s.job, i)
    ensures forall i :: 0 <= i < |s.output| ==>
      s.output[i] == if i < |s.job.goal| && Due(s.job, i) != 0 then s.job.goal[i] else s.job.before[i]
  {
    hide Due;
    forall i | 0 <= i < |s.hits|
      ensures s.hits[i] == Due(s.job, i)
    {
      NothingOwed(s.workers, i);
      assert Account(s, i) == Due(s.job, i);
    }
  }

  /** Then, if the call's rounding-up sum did not wrap, every index has been executed exactly once and the
    output is the goal on `[0, total)` and untouched elsewhere. */
  lemma DoneMeansFinished<T>(s: Pool<T>)
    requires Inv(s) && Done(s) && 0 < s.job.chunks < U64_LIMIT && |s.job.goal| + s.job.chunks - 1 < U64_LIMIT
    ensures s.hits == seq(|s.job.goal|, _ => 1)
    ensures s.output == s.job.goal + s.job.before[|s.job.goal|..]
  {
    hide Pushed, Times;
    DoneMeansExecuted(s);
    ExactlyOnceIff(|s.job.goal|, s.job.chunks);
    assert forall i :: 0 <= i < |s.job.goal| ==> Due(s.job, i) == 1;
  }

  lemma CallKeepsInv<T>(s: Pool<T>, goal: seq<T>, chunks: nat)
    requires Inv(s) && Enabled(s, Call(goal, chunks))
    ensures Inv(Next(s, Call(goal, chunks)))
  {
    hide Pushed, StepOf, StartOf, RangeOf, Times;
    var t := Next(s, Call(goal, chunks));
    assert t.tasks == Chunks(|goal|, chunks);
    forall k | 0 <= k < |t.tasks|
      ensures t.tasks[k].lo <= t.tasks[k].hi <= |goal|
    {
      PushedInside(|goal|, chunks, chunks, k);
    }
    NothingOwed(s.workers, 0);
    forall i | 0 <= i < |t.hits|
      ensures Account(t, i) == Due(t.job, i)
    {
      NothingOwed(s.workers, i);
    }
  }

  lemma WakeKeepsInv<T>(s: Pool<T>, a: Action<T>)
    requires Inv(s) && Enabled(s, a) && (a == NotifyTasks || a == NotifyStop)
    ensures Inv(Next(s, a))
  {
    var t := Next(s, a);
    SumWake(s.workers, IsRunning);
    forall i | 0 <= i < |t.hits|
      ensures Account(t, i) == Due(t.job, i)
    {
      assert Account(s, i) == Due(s.job, i);
      SumWake(s.workers, Owes(i));
    }
  }

  lemma CheckKeepsInv<T>(s: Pool<T>, w: nat)
    requires Inv(s) && Enabled(s, WorkerCheck(w))
    ensures Inv(Checked(s, w))
  {
    var t := Checked(s, w);
    SumUpdate(s.workers, w, t.workers[w], IsRunning);
    SumNonNegative(s.workers, IsRunning);
    forall i | 0 <= i < |t.hits|
      ensures Account(t, i) == Due(t.job, i)
    {
      assert Account(s, i) == Due(s.job, i);
      SumUpdate(s.workers, w, t.workers[w], Owes(i));
    }
  }

  lemma StepKeepsInv<T>(s: Pool<T>, w: nat)
    requires Inv(s) && Enabled(s, WorkerStep(w))
    ensures Inv(Next(s, WorkerStep(w)))
  {
    var t := Next(s, WorkerStep(w));
    SumUpdate(s.workers, w, t.workers[w], IsRunning);
    forall i | 0 <= i < |t.hits|
      ensures Account(t, i) == Due(t.job, i)
    {
      assert Account(s, i) == Due(s.job, i);
      SumUpdate(s.workers, w, t.workers[w], Owes(i));
    }
  }

  lemma FinishKeepsInv<T>(s: Pool<T>, w: nat)
    requires Inv(s) && Enabled(s, WorkerFinish(w))
    ensures Inv(Finished(s, w))
  {
    var t := Finished(s, w);
    SumUpdate(s.workers, w, Ready, IsRunning);
    SumNonNegative(s.workers, IsRunning);
    forall i | 0 <= i < |t.hits|
      ensures Account(t, i) == Due(t.job, i)
    {
      assert Account(s, i) == Due(s.job, i);
      SumUpdate(s.workers, w, Ready, Owes(i));
    }
  }

  lemma SpuriousKeepsInv<T>(s: Pool<T>, w: nat)
    requires Inv(s) && Enabled(s, SpuriousTask(w))
    ensures Inv(Next(s, SpuriousTask(w)))
  {
    var t := Next(s, SpuriousTask(w));
    SumUpdate(s.workers, w, Ready, IsRunning);
    forall i | 0 <= i < |t.hits|
      ensures Account(t, i) == Due(t.job, i)
    {
      assert Account(s, i) == Due(s.job, i);
      SumUpdate(s.workers, w, Ready, Owes(i));
    }
  }

  lemma NextInv<T>(s: Pool<T>, a: Action<T>)
    requires Inv(s) && Enabled(s, a)
    ensures Inv(Next(s, a))
  {
    match a
    case Call(goal, chunks) => CallKeepsInv(s, goal, chunks);
    case NotifyTasks => WakeKeepsInv(s, a);
    case NotifyStop => WakeKeepsInv(s, a);
    case WorkerCheck(w) => CheckKeepsInv(s, w);
    case WorkerStep(w) => StepKeepsInv(s, w);
    case WorkerFinish(w) => FinishKeepsInv(s, w);
    case SpuriousTask(w) => SpuriousKeepsInv(s, w);
    case _ =>
      assert forall i :: 0 <= i < |s.hits| ==> Account(Next(s, a), i) == Account(s, i);
  }
}
