/** The pool as the object its source declares: fields changed in place by one method per critical
  section.  Each method is proved to make exactly the transition the step system gives it, so the
  results about runs hold of the object. */
module WorkerPool {
  import opened Chunking
  import opened PoolProtocol
  import opened PoolRuns
  import opened Words

  class PersistentWorkerPool<T> {
    var m_tasks: seq<Range>
    var m_working: int
    var m_stop: bool
    var threads: seq<Worker>
    var caller: Caller
    var goal: seq<T>
    const y: array<T>
    ghost var before: seq<T>
    ghost var chunks: nat
    ghost var hits: seq<nat>

    ghost function View(): Pool<T>
      reads this, y
    {
      Pool(m_tasks, m_working, m_stop, threads, caller, Job(goal, before, chunks), y[..], hits)
    }

    constructor (numWorkers: nat, y: array<T>)
      ensures this.y == y && View() == Init(numWorkers, y[..])
    {
      this.y := y;
      m_tasks, m_working, m_stop := [], 0, false;
      threads := seq(numWorkers, _ => Ready);
      caller := Idle;
      goal, before, chunks, hits := [], y[..], 0, [];
    }

    /** The first block of `parallel_for`: cut `[0, total)` into tasks and push them, last one on top. */
    method PushTasks(goal: seq<T>, chunks: nat)
      requires Enabled(View(), Call(goal, chunks))
      modifies this
      ensures View() == Next(old(View()), Call(goal, chunks))
    {
      var total := |goal|;
      var step := ((total + chunks - 1) % U64_LIMIT) / chunks;
      var c := 0;
      while c < chunks
        invariant c <= chunks
        invariant m_tasks == old(m_tasks) + Pushed(total, chunks, c)
        invariant unchanged(`m_working) && unchanged(`m_stop) && unchanged(`threads)
        invariant unchanged(`caller) && unchanged(`goal) && unchanged(`before) && unchanged(`chunks) && unchanged(`hits)
      {
        var start := (c * step) % U64_LIMIT;
        var end := Min((start + step) % U64_LIMIT, total);
        if start < total {
          m_tasks := m_tasks + [Range(start, end)];
        }
        c := c + 1;
      }
      caller := Notifying;
      this.goal, before, this.chunks, hits := goal, y[..], chunks, seq(total, _ => 0);
    }

    method NotifyAllTasks()
      requires caller == Notifying || caller == Stopping
      modifies this`threads, this`caller
      ensures View() == Next(old(View()), if old(caller) == Notifying then NotifyTasks else NotifyStop)
    {
      var w := 0;
      while w < |threads|
        invariant w <= |threads| == |old(threads)| && unchanged(`caller)
        invariant forall k :: 0 <= k < |threads| ==>
          threads[k] == if k < w && old(threads)[k] == Blocked then Ready else old(threads)[k]
      {
        if threads[w] == Blocked {
          threads := threads[w := Ready];
        }
        w := w + 1;
      }
      assert threads == WakeAll(old(threads));
      caller := if caller == Notifying then Checking else Joining;
    }

    method EvaluateDone()
      requires caller == Checking
      modifies this`caller
      ensures View() == Next(old(View()), CheckDone)
    {
      if m_tasks == [] && m_working == 0 {
        caller := Idle;
      } else {
        caller := Waiting;
      }
    }

    /** A worker with the lock in hand: wait, leave the loop, or pop a task. */
    method TakeTask(w: nat)
      requires Enabled(View(), WorkerCheck(w))
      modifies this`threads, this`m_tasks, this`m_working
      ensures View() == Next(old(View()), WorkerCheck(w))
    {
      if !(m_stop || m_tasks != []) {
        threads := threads[w := Blocked];
      } else if m_stop && m_tasks == [] {
        threads := threads[w := Exited];
      } else {
        var task := m_tasks[|m_tasks| - 1];
        m_tasks := m_tasks[..|m_tasks| - 1];
        m_working := m_working + 1;
        threads := threads[w := Running(task, task.lo)];
      }
    }

    /** One index of the task body, outside the lock. */
    method ProcessIndex(w: nat)
      requires Enabled(View(), WorkerStep(w))
      modifies this`threads, this`hits, y
      ensures View() == Next(old(View()), WorkerStep(w))
    {
      var r := threads[w].next;
      y[r] := goal[r];
      hits := hits[r := hits[r] + 1];
      threads := threads[w := Running(threads[w].task, r + 1)];
    }

    method FinishTask(w: nat)
      requires Enabled(View(), WorkerFinish(w))
      modifies this`threads, this`m_working, this`caller
      ensures View() == Next(old(View()), WorkerFinish(w))
    {
      m_working := m_working - 1;
      if m_tasks == [] && m_working == 0 {
        if caller == Waiting {
          caller := Checking;
        }
      }
      threads := threads[w := Ready];
    }

    method RequestStop()
      requires caller == Idle
      modifies this`m_stop, this`caller
      ensures View() == Next(old(View()), Stop)
    {
      m_stop := true;
      caller := Stopping;
    }

    method Perform(a: Action<T>)
      requires Enabled(View(), a)
      modifies this, y
      ensures View() == Next(old(View()), a)
    {
      match a
      case Call(goal, chunks) => PushTasks(goal, chunks);
      case NotifyTasks => NotifyAllTasks();
      case NotifyStop => NotifyAllTasks();
      case CheckDone => EvaluateDone();
      case WorkerCheck(w) => TakeTask(w);
      case WorkerStep(w) => ProcessIndex(w);
      case WorkerFinish(w) => FinishTask(w);
      case SpuriousTask(w) => threads := threads[w := Ready];
      case SpuriousDone => caller := Checking;
      case Stop => RequestStop();
      case Join => caller := Joined;
    }

    /** Any schedule the threads can follow takes the object where the step system goes. */
    method Execute(schedule: seq<Action<T>>)
      requires IsRun(View(), schedule)
      modifies this, y
      ensures View() == After(old(View()), schedule)
    {
      var i := 0;
      while i < |schedule|
        invariant i <= |schedule|
        invariant IsRun(View(), schedule[i..])
        invariant After(View(), schedule[i..]) == After(old(View()), schedule)
      {
        assert schedule[i..][0] == schedule[i] && schedule[i..][1..] == schedule[i + 1..];
        Perform(schedule[i]);
        i := i + 1;
      }
    }
  }
}
