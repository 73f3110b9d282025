/** Whole runs of the worker pool: every interleaving of any number of workers and one caller. */
module PoolRuns {
  import opened Chunking
  import opened PoolProtocol
  import opened Words

  ghost predicate IsRun<T>(s: Pool<T>, acts: seq<Action<T>>)
    decreases |acts|
  {
    acts == [] || (Enabled(s, acts[0]) && IsRun(Next(s, acts[0]), acts[1..]))
  }

  ghost function After<T>(s: Pool<T>, acts: seq<Action<T>>): Pool<T>
    requires IsRun(s, acts)
    decreases |acts|
  {
    if acts == [] then s else After(Next(s, acts[0]), acts[1..])
  }

  /** The single-threaded loop `for r in [0, total): y[r] = goal[r]`, up to `r`. */
  ghost function SequentialLoop<T>(y: seq<T>, goal: seq<T>, r: nat): seq<T>
    requires r <= |goal| <= |y|
    ensures |SequentialLoop(y, goal, r)| == |y|
  {
    if r == 0 then y else SequentialLoop(y, goal, r - 1)[r - 1 := goal[r - 1]]
  }

  lemma {:induction false} SequentialLoopValue<T>(y: seq<T>, goal: seq<T>, r: nat)
    requires r <= |goal| <= |y|
    ensures SequentialLoop(y, goal, r) == goal[..r] + y[r..]
  {
    if r != 0 {
      SequentialLoopValue(y, goal, r - 1);
    }
  }

  lemma {:induction false} RunInv<T>(s: Pool<T>, acts: seq<Action<T>>)
    requires Inv(s) && IsRun(s, acts)
    ensures Inv(After(s, acts))
    ensures |After(s, acts).workers| == |s.workers|
    decreases |acts|
  {
    if acts != [] {
      NextInv(s, acts[0]);
      RunInv(Next(s, acts[0]), acts[1..]);
    }
  }

  ghost predicate NoCall<T>(acts: seq<Action<T>>)
  {
    forall a <- acts :: !a.Call?
  }

  lemma {:induction false} RunKeepsJob<T>(s: Pool<T>, acts: seq<Action<T>>)
    requires IsRun(s, acts) && NoCall(acts)
    ensures After(s, acts).job == s.job
    decreases |acts|
  {
    if acts != [] {
      assert acts[0] in acts && forall a <- acts[1..] :: a in acts;
      RunKeepsJob(Next(s, acts[0]), acts[1..]);
    }
  }

  /** A call made after some history, and the same call when it has returned. */
  ghost predicate Returned<T>(n: nat, output: seq<T>, earlier: seq<Action<T>>, goal: seq<T>, chunks: nat,
                              during: seq<Action<T>>)
  {
    && IsRun(Init(n, output), earlier)
    && var s := After(Init(n, output), earlier);
       Enabled(s, Call(goal, chunks)) &&
       IsRun(Next(s, Call(goal, chunks)), during) && NoCall(during) &&
       After(Next(s, Call(goal, chunks)), during).caller == Idle
  }

  lemma CallFinished<T>(
      n: nat, output: seq<T>, earlier: seq<Action<T>>, goal: seq<T>, chunks: nat, during: seq<Action<T>>)
    requires Returned(n, output, earlier, goal, chunks, during)
    ensures var s := After(Init(n, output), earlier);
            var t := After(Next(s, Call(goal, chunks)), during);
            Inv(t) && Done(t) && t.job == Job(goal, s.output, chunks)
  {
    hide Inv;
    InitInv(n, output);
    RunInv(Init(n, output), earlier);
    var s := After(Init(n, output), earlier);
    NextInv(s, Call(goal, chunks));
    RunInv(Next(s, Call(goal, chunks)), during);
    RunKeepsJob(Next(s, Call(goal, chunks)), during);
    IdleIsDone(After(Next(s, Call(goal, chunks)), during));
  }

  lemma IdleIsDone<T>(s: Pool<T>)
    requires Inv(s) && s.caller == Idle
    ensures Done(s)
  {
  }

  /** Whatever happened before a call and however the workers interleave during it, when `parallel_for`
    has returned each index was processed exactly once and to completion, and the output array is the one
    the sequential loop produces from the array the call found, provided the rounding-up sum of the call
    did not wrap. */
  lemma ParallelForRefinesLoop<T>(
      n: nat, output: seq<T>, earlier: seq<Action<T>>, goal: seq<T>, chunks: nat, during: seq<Action<T>>)
    requires Returned(n, output, earlier, goal, chunks, during)
    requires |goal| + chunks - 1 < U64_LIMIT
    ensures var s := After(Init(n, output), earlier);
            var t := After(Next(s, Call(goal, chunks)), during);
            t.hits == seq(|goal|, _ => 1) &&
            t.output == SequentialLoop(s.output, goal, |goal|)
  {
    hide Inv;
    CallFinished(n, output, earlier, goal, chunks, during);
    var s := After(Init(n, output), earlier);
    DoneMeansFinished(After(Next(s, Call(goal, chunks)), during));
    MayCall(n, output, earlier, goal, chunks, during);
    SequentialLoopValue(s.output, goal, |goal|);
  }

  lemma FinishedIff<T>(t: Pool<T>)
    requires Inv(t) && Done(t) && 0 < t.job.chunks < U64_LIMIT && |t.job.goal| < U64_LIMIT
    ensures |t.hits| == |t.job.goal| <= |t.output| == |t.job.before|
    ensures var n := |t.job.goal|;
            (t.hits == seq(n, _ => 1) <==> n + t.job.chunks - 1 < U64_LIMIT) &&
            (n + t.job.chunks - 1 >= U64_LIMIT ==>
               0 < n && t.hits[n - 1] == 0 && t.output[n - 1] == t.job.before[n - 1])
  {
    hide Pushed, Times;
    var n := |t.job.goal|;
    if n + t.job.chunks - 1 < U64_LIMIT {
      DoneMeansFinished(t);
    } else {
      DoneMeansExecuted(t);
      WrappedMisses(n, t.job.chunks, t.job.chunks);
      assert Due(t.job, n - 1) == 0;
      assert t.hits[n - 1] != seq(n, _ => 1)[n - 1];
    }
  }

  /** That condition is exact: in every returned call whose sum wrapped, the last index was never processed
    and its output is still what the call found. */
  lemma ExactlyOnceInRunsIff<T>(
      n: nat, output: seq<T>, earlier: seq<Action<T>>, goal: seq<T>, chunks: nat, during: seq<Action<T>>)
    requires Returned(n, output, earlier, goal, chunks, during)
    ensures var s := After(Init(n, output), earlier);
            var t := After(Next(s, Call(goal, chunks)), during);
            |t.hits| == |goal| <= |t.output| == |s.output| &&
            (t.hits == seq(|goal|, _ => 1) <==> |goal| + chunks - 1 < U64_LIMIT) &&
            (|goal| + chunks - 1 >= U64_LIMIT ==>
               0 < |goal| && t.hits[|goal| - 1] == 0 && t.output[|goal| - 1] == s.output[|goal| - 1])
  {
    hide Inv, Next, After, Done, IsRun;
    CallFinished(n, output, earlier, goal, chunks, during);
    MayCall(n, output, earlier, goal, chunks, during);
    FinishedIff(After(Next(After(Init(n, output), earlier), Call(goal, chunks)), during));
  }

  lemma MayCall<T>(
      n: nat, output: seq<T>, earlier: seq<Action<T>>, goal: seq<T>, chunks: nat, during: seq<Action<T>>)
    requires Returned(n, output, earlier, goal, chunks, during)
    ensures 0 < chunks < U64_LIMIT && |goal| < U64_LIMIT && |goal| <= |After(Init(n, output), earlier).output|
  {
  }

  // ---- progress ----

  ghost predicate Spurious<T>(a: Action<T>) { a.SpuriousDone? || a.SpuriousTask? }

  /** The steps the pool takes by itself: not the caller's decision to start a call or to shut down, and
    not a spurious wake-up. */
  ghost predicate Internal<T>(a: Action<T>) { !a.Call? && !a.Stop? && !Spurious(a) }

  /** No deadlock and no lost wake-up: while the caller is inside `parallel_for` or the destructor, some
    thread can take a real step. */
  lemma NotStuck<T>(s: Pool<T>) returns (a: Action<T>)
    requires Inv(s) && s.workers != [] && s.caller != Idle && s.caller != Joined
    ensures Internal(a) && Enabled(s, a)
  {
    match s.caller
    case Notifying => a := NotifyTasks;
    case Checking => a := CheckDone;
    case Stopping => a := NotifyStop;
    case Waiting =>
      if s.tasks != [] {
        a := WorkerAction(s, 0);
      } else {
        var w := SomeRunning(s.workers);
        a := WorkerAction(s, w);
      }
    case Joining =>
      if w :| 0 <= w < |s.workers| && s.workers[w] != Exited {
        a := WorkerAction(s, w);
      } else {
        a := Join;
      }
  }

  lemma WorkerAction<T>(s: Pool<T>, w: nat) returns (a: Action<T>)
    requires Inv(s) && w < |s.workers| && s.workers[w] != Blocked && s.workers[w] != Exited
    ensures Internal(a) && Enabled(s, a)
  {
    if s.workers[w] == Ready {
      a := WorkerCheck(w);
    } else if s.workers[w].next < s.workers[w].task.hi {
      a := WorkerStep(w);
    } else {
      a := WorkerFinish(w);
    }
  }

  lemma {:induction false} SomeRunning(ws: seq<Worker>) returns (w: nat)
    requires Sum(ws, IsRunning) != 0
    ensures w < |ws| && ws[w].Running?
  {
    if ws[0].Running? {
      w := 0;
    } else {
      var v := SomeRunning(ws[1..]);
      w := v + 1;
    }
  }

  /** Work left: indices not yet processed plus the lock acquisitions still owed. */
  ghost function WorkerLoad(x: Worker): int
  {
    match x
    case Ready => 1
    case Running(task, next) => 3 + if next < task.hi then task.hi - next else 0
    case _ => 0
  }

  ghost function TaskLoad(ts: seq<Range>): nat
  {
    if ts == [] then 0
    else
      var r := ts[|ts| - 1];
      TaskLoad(ts[..|ts| - 1]) + 3 + if r.lo < r.hi then r.hi - r.lo else 0
  }

  ghost function CallerLoad<T>(s: Pool<T>): int
  {
    match s.caller
    case Notifying => |s.workers| + 2
    case Stopping => |s.workers| + 2
    case Checking => 1
    case Joining => 1
    case _ => 0
  }

  ghost function Load<T>(s: Pool<T>): int
  {
    TaskLoad(s.tasks) + Sum(s.workers, WorkerLoad) + CallerLoad(s)
  }

  lemma LoadNonNegative<T>(s: Pool<T>)
    ensures Load(s) >= 0
  {
    SumNonNegative(s.workers, WorkerLoad);
  }

  /** Steps of one worker: checking, processing and finishing lower the work left. */
  lemma WorkerLoadSteps<T>(s: Pool<T>, w: nat, a: Action<T>)
    requires Inv(s) && Enabled(s, a) && (a == WorkerCheck(w) || a == WorkerStep(w) || a == WorkerFinish(w))
    ensures Load(Next(s, a)) < Load(s)
  {
    hide Inv;
    var t := Next(s, a);
    SumUpdate(s.workers, w, t.workers[w], WorkerLoad);
    if a == WorkerFinish(w) {
      FinishLoad(s, w);
    }
  }

  lemma FinishLoad<T>(s: Pool<T>, w: nat)
    requires w < |s.workers|
    ensures CallerLoad(Finished(s, w)) <= CallerLoad(s) + 1
  {
  }

  /** Every real step strictly lowers the work left; a spurious wake-up adds exactly one wait-predicate
    evaluation. */
  lemma LoadSteps<T>(s: Pool<T>, a: Action<T>)
    requires Inv(s) && Enabled(s, a)
    ensures Internal(a) ==> Load(Next(s, a)) < Load(s)
    ensures Spurious(a) ==> Load(Next(s, a)) == Load(s) + 1
  {
    hide Inv;
    match a
    case NotifyTasks => SumWake(s.workers, WorkerLoad);
    case NotifyStop => SumWake(s.workers, WorkerLoad);
    case WorkerCheck(w) => WorkerLoadSteps(s, w, a);
    case WorkerStep(w) => WorkerLoadSteps(s, w, a);
    case WorkerFinish(w) => WorkerLoadSteps(s, w, a);
    case SpuriousTask(w) => SumUpdate(s.workers, w, Ready, WorkerLoad);
    case _ =>
  }

  ghost function SpuriousCount<T>(acts: seq<Action<T>>): nat
  {
    if acts == [] then 0 else (if Spurious(acts[0]) then 1 else 0) + SpuriousCount(acts[1..])
  }

  ghost predicate Undisturbed<T>(acts: seq<Action<T>>)
  {
    forall a <- acts :: Internal(a) || Spurious(a)
  }

  /** Between two decisions of the caller a run is no longer than the work left plus two steps for every
    spurious wake-up, so a schedule with finitely many spurious wake-ups always comes to rest. */
  lemma {:induction false} RunLengthBound<T>(s: Pool<T>, acts: seq<Action<T>>)
    requires Inv(s) && IsRun(s, acts) && Undisturbed(acts)
    ensures |acts| <= Load(s) + 2 * SpuriousCount(acts)
    decreases |acts|
  {
    if acts == [] {
      LoadNonNegative(s);
    } else {
      assert acts[0] in acts && forall a <- acts[1..] :: a in acts;
      NextInv(s, acts[0]);
      LoadSteps(s, acts[0]);
      RunLengthBound(Next(s, acts[0]), acts[1..]);
    }
  }

  ghost predicate AtRest<T(!new)>(s: Pool<T>)
  {
    forall a: Action<T> :: Internal(a) ==> !Enabled(s, a)
  }

  /** With at least one worker, a run that has come to rest has returned from `parallel_for` or from the
    destructor; in the latter case the queue is drained and every worker has left its loop. */
  lemma RestMeansReturned<T(!new)>(n: nat, output: seq<T>, acts: seq<Action<T>>)
    requires 0 < n && IsRun(Init(n, output), acts)
    requires AtRest(After(Init(n, output), acts))
    ensures var s := After(Init(n, output), acts);
            |s.workers| == n &&
            (s.caller == Idle || (s.caller == Joined && Done(s) && forall w :: 0 <= w < n ==> s.workers[w] == Exited))
  {
    InitInv(n, output);
    RunInv(Init(n, output), acts);
    var s := After(Init(n, output), acts);
    if s.caller != Idle && s.caller != Joined {
      var a := NotStuck(s);
    }
  }

  lemma ThreeSteps<T>(s: Pool<T>, a: Action<T>, b: Action<T>, c: Action<T>)
    requires Enabled(s, a) && Enabled(Next(s, a), b) && Enabled(Next(Next(s, a), b), c)
    ensures IsRun(s, [a, b, c]) && After(s, [a, b, c]) == Next(Next(Next(s, a), b), c)
  {
    hide Enabled, Next;
    LastStep(Next(Next(s, a), b), c);
    assert [b, c][1..] == [c] && [a, b, c][1..] == [b, c];
    assert IsRun(Next(s, a), [b, c]) && After(Next(s, a), [b, c]) == Next(Next(Next(s, a), b), c);
  }

  lemma LastStep<T>(s: Pool<T>, a: Action<T>)
    requires Enabled(s, a)
    ensures IsRun(s, [a]) && After(s, [a]) == Next(s, a)
  {
  }

  /** A pool built with no workers: the same call then waits for ever exactly when it pushed a task. */
  lemma NoWorkersWaitIff<T(!new)>(output: seq<T>, goal: seq<T>, chunks: nat)
    requires Enabled(Init(0, output), Call(goal, chunks))
    ensures var acts := [Call(goal, chunks), NotifyTasks, CheckDone];
            IsRun(Init(0, output), acts) &&
            var s := After(Init(0, output), acts);
            AtRest(s) && (s.caller == Waiting <==> goal != [])
  {
    var acts := [Call(goal, chunks), NotifyTasks, CheckDone];
    var s0 := Init(0, output);
    var s1 := Next(s0, acts[0]);
    var s2 := Next(s1, acts[1]);
    var s3 := Next(s2, acts[2]);
    ThreeSteps(s0, acts[0], acts[1], acts[2]);
    SomethingPushed(|goal|, chunks, chunks);
  }
}
