/** The shell's own methods on its job table: `build_new_job` and `task_handler`, loop by loop. */
module ShellTables {
  import opened Bytes
  import opened ShellJobs

  // ----- iterating a BTreeMap in key order

  predicate Ascending(keys: seq<int>) {
    forall i, k :: 0 <= i < k < |keys| ==> keys[i] < keys[k]
  }

  function Members(keys: seq<int>): set<int> {
    set n | n in keys
  }

  /** `x` is the smallest member of `s`. */
  predicate IsLeast(s: set<int>, x: int) {
    x in s && forall y :: y in s ==> x <= y
  }

  lemma {:induction false} LeastExists(s: set<int>)
    requires |s| > 0
    ensures exists x :: IsLeast(s, x)
  {
    assert (forall x: int :: x !in s) ==> s == {};
    var x :| x in s;
    var rest := s - {x};
    assert s == rest + {x};
    if |rest| == 0 {
      assert IsLeast(s, x);
    } else {
      LeastExists(rest);
      var m :| IsLeast(rest, m);
      assert IsLeast(s, if x <= m then x else m);
    }
  }

  /** `order` lists, in ascending order, members of `keys`; `rest` are the others, all larger. */
  predicate Partway(keys: set<int>, order: seq<int>, rest: set<int>) {
    && Ascending(order) && Members(order) + rest == keys
    && forall k, y :: 0 <= k < |order| && y in rest ==> order[k] < y
  }

  lemma NextLeast(keys: set<int>, order: seq<int>, rest: set<int>, x: int)
    requires Partway(keys, order, rest) && IsLeast(rest, x)
    ensures Partway(keys, order + [x], rest - {x})
  {
  }

  /** The keys in the order in which a BTreeMap visits them. */
  method InOrder(keys: set<int>) returns (order: seq<int>)
    ensures Ascending(order) && Members(order) == keys
  {
    var rest := keys;
    order := [];
    while |rest| > 0
      invariant Partway(keys, order, rest)
      decreases |rest|
    {
      LeastExists(rest);
      var x :| IsLeast(rest, x);
      NextLeast(keys, order, rest, x);
      order := order + [x];
      rest := rest - {x};
    }
  }

  /** The allocation loop of `build_new_job`: stops at the first gap. */
  method NewJobNumber(keys: set<int>) returns (num: int)
    requires forall n :: n in keys ==> n >= 1
    ensures LeastUnused(keys, num)
  {
    var order := InOrder(keys);
    num := 1;
    for i := 0 to |order|
      invariant num == i + 1
      invariant forall k :: 0 <= k < i ==> order[k] == k + 1
    {
      if num != order[i] {
        assert order[i] in Members(order);
        Gap(order, i);
        return;
      }
      num := num + 1;
    }
    Gap(order, |order|);
  }

  lemma Gap(order: seq<int>, i: nat)
    requires i <= |order| && Ascending(order) && (forall k :: 0 <= k < i ==> order[k] == k + 1)
    requires forall n :: n in Members(order) ==> n >= 1
    requires i < |order| ==> order[i] != i + 1
    ensures LeastUnused(Members(order), i + 1)
  {
    forall m | 1 <= m < i + 1 ensures m in Members(order) {
      assert order[m - 1] == m;
    }
    forall k | 0 <= k < |order| ensures order[k] != i + 1 {
      if k == i { assert order[i] in Members(order); }
      if k > i { assert order[i] in Members(order) && (i > 0 ==> order[i - 1] == i); }
    }
  }

  // ----- one job's tasks

  ghost predicate AliveBefore(j: Job, obs: Observation, i: nat) {
    exists k :: 0 <= k < i && k < |j.taskIds| && obs(j.taskIds[k]) != Exited
  }

  ghost predicate BlockedBefore(j: Job, obs: Observation, i: nat) {
    exists k :: 0 <= k < i && k < |j.taskIds| && obs(j.taskIds[k]) == Blocked
  }

  ghost function ClosingBefore(j: Job, obs: Observation, i: nat): set<nat>
    requires Shaped(j)
  {
    set k, q | 0 <= k < i && k < |j.taskIds| && obs(j.taskIds[k]) == Exited && q in QueuesAround(j, k) :: q
  }

  /** The loop over queues and ids side by side that finds an exited task and sets the three EOFs. */
  method CloseAround(j: Job, exitedId: nat, eof: set<nat>, ghost i: nat) returns (eof': set<nat>)
    requires Shaped(j) && Distinct(j.taskIds) && i < |j.taskIds| && j.taskIds[i] == exitedId
    ensures eof' == eof + QueuesAround(j, i)
  {
    eof' := eof;
    var k := 0;
    while k < |j.pipes| && k < |j.stderrs| && k < |j.taskIds|
      invariant k <= i && eof' == eof
    {
      if j.taskIds[k] == exitedId {
        eof' := eof' + {j.pipes[k]};
        eof' := eof' + {j.stderrs[k]};
        if k + 1 < |j.pipes| {
          eof' := eof' + {j.pipes[k + 1]};
        }
        break;
      }
      k := k + 1;
    }
  }

  /** What the inner loop knows after `i` tasks. */
  ghost predicate Swept(j: Job, obs: Observation, i: nat, alive: bool, stopped: bool, eof: set<nat>, eof': set<nat>)
    requires Shaped(j)
  {
    && alive == AliveBefore(j, obs, i)
    && stopped == (j.status == Running && BlockedBefore(j, obs, i))
    && eof' == eof + ClosingBefore(j, obs, i)
  }

  lemma SweptAll(j: Job, obs: Observation, alive: bool, stopped: bool, eof: set<nat>, eof': set<nat>)
    requires Shaped(j) && Swept(j, obs, |j.taskIds|, alive, stopped, eof, eof')
    ensures alive == Alive(j, obs) && stopped == JustStopped(j, obs) && eof' == eof + Closing(j, obs)
  {
  }

  lemma SweptNext(j: Job, obs: Observation, i: nat, alive: bool, stopped: bool, eof: set<nat>, eof': set<nat>)
    requires Shaped(j) && i < |j.taskIds| && Swept(j, obs, i, alive, stopped, eof, eof')
    ensures obs(j.taskIds[i]) == Exited ==> Swept(j, obs, i + 1, alive, stopped, eof, eof' + QueuesAround(j, i))
    ensures obs(j.taskIds[i]) == Blocked ==> Swept(j, obs, i + 1, true, j.status == Running, eof, eof')
    ensures obs(j.taskIds[i]) == Runnable ==> Swept(j, obs, i + 1, true, stopped, eof, eof')
  {
  }

  /** The inner loop of `task_handler` over one job's tasks. */
  method SweepTasks(j: Job, obs: Observation, eof: set<nat>)
    returns (alive: bool, stopped: bool, j': Job, eof': set<nat>)
    requires Shaped(j) && Distinct(j.taskIds)
    ensures alive == Alive(j, obs) && stopped == JustStopped(j, obs)
    ensures j' == Refresh(j, obs) && eof' == eof + Closing(j, obs)
  {
    alive, stopped, eof' := false, false, eof;
    var status := j.status;
    assert ClosingBefore(j, obs, 0) == {};
    for i := 0 to |j.taskIds|
      invariant Swept(j, obs, i, alive, stopped, eof, eof')
      invariant status == if stopped then Stopped else j.status
    {
      SweptNext(j, obs, i, alive, stopped, eof, eof');
      var id := j.taskIds[i];
      if obs(id) == Exited {
        eof' := CloseAround(j, id, eof', i);
      } else if obs(id) == Blocked && status != Stopped {
        status := Stopped;
        alive := true;
        stopped := true;
      } else {
        alive := true;
      }
    }
    SweptAll(j, obs, alive, stopped, eof, eof');
    j' := j.(status := status);
  }

  // ----- the pass over all jobs

  ghost function RefreshSome(jobs: map<int, Job>, obs: Observation, done: set<int>): map<int, Job> {
    map n | n in jobs :: if n in done then Refresh(jobs[n], obs) else jobs[n]
  }

  ghost function ClosingSome(jobs: map<int, Job>, obs: Observation, done: set<int>): set<nat>
    requires AllShaped(jobs)
  {
    set n, q | n in jobs && n in done && q in Closing(jobs[n], obs) :: q
  }

  ghost function FinishedAmong(jobs: map<int, Job>, obs: Observation, done: set<int>): set<int> {
    set n | n in done && n in jobs && !Alive(jobs[n], obs)
  }

  ghost function FgAfter(s: Shell, obs: Observation, done: set<int>): Option<int> {
    match s.fg
    case Some(n) => if n in done && LeavesForeground(s, obs) then None else s.fg
    case None => None
  }

  /** The pass over the jobs has dealt with the jobs in `done`. */
  ghost predicate Passed(s: Shell, obs: Observation, done: set<int>, jobs: map<int, Job>, eof: set<nat>,
                         fg: Option<int>, finished: seq<int>)
    requires AllShaped(s.jobs)
  {
    && jobs == RefreshSome(s.jobs, obs, done)
    && eof == s.eof + ClosingSome(s.jobs, obs, done)
    && fg == FgAfter(s, obs, done)
    && Members(finished) == FinishedAmong(s.jobs, obs, done)
  }

  lemma PassedNext(s: Shell, obs: Observation, done: set<int>, jobs: map<int, Job>, eof: set<nat>,
                   fg: Option<int>, finished: seq<int>, n: int)
    requires AllShaped(s.jobs) && n in s.jobs && n !in done
    requires Passed(s, obs, done, jobs, eof, fg, finished)
    ensures n in jobs && jobs[n] == s.jobs[n]
    ensures var leaves := JustStopped(s.jobs[n], obs) || !Alive(s.jobs[n], obs);
            Passed(s, obs, done + {n}, jobs[n := Refresh(s.jobs[n], obs)], eof + Closing(s.jobs[n], obs),
                   if leaves && fg == Some(n) then None else fg,
                   if Alive(s.jobs[n], obs) then finished else finished + [n])
  {
    assert ClosingSome(s.jobs, obs, done + {n}) == ClosingSome(s.jobs, obs, done) + Closing(s.jobs[n], obs);
    assert Members(finished + [n]) == Members(finished) + {n};
  }

  lemma PassedNone(s: Shell, obs: Observation)
    requires AllShaped(s.jobs)
    ensures Passed(s, obs, {}, s.jobs, s.eof, s.fg, [])
  {
  }

  ghost function GoneSome(jobs: map<int, Job>, nums: set<int>): set<nat> {
    set n, id | n in nums && n in jobs && id in TaskSet(jobs[n]) :: id
  }

  lemma MinusMore<K, V>(m: map<K, V>, a: set<K>, b: set<K>)
    ensures m - a - b == m - (a + b)
  {
  }

  lemma GoneNext(jobs: map<int, Job>, nums: set<int>, n: int)
    requires n in jobs
    ensures GoneSome(jobs, nums + {n}) == GoneSome(jobs, nums) + TaskSet(jobs[n])
  {
  }

  /** After the pass and the removals, the tables are those of `ShellJobs.TaskHandler`. */
  lemma PassedAll(s: Shell, obs: Observation, jobs: map<int, Job>, eof: set<nat>, fg: Option<int>, finished: seq<int>)
    requires AllShaped(s.jobs) && Passed(s, obs, s.jobs.Keys, jobs, eof, fg, finished)
    ensures var t := TaskHandler(s, obs);
            && jobs - Members(finished) == t.jobs && eof == t.eof && fg == t.fg
            && GoneSome(s.jobs, Members(finished)) == Gone(s.jobs, obs)
  {
  }

  // ----- wiring a new job's tasks

  /** The tables after the first `i` tasks of a new job have been entered. */
  ghost predicate Entered<V>(before: map<nat, V>, now: map<nat, V>, ids: seq<nat>, value: nat -> V, i: nat)
    requires i <= |ids|
  {
    && now.Keys == before.Keys + Elements(ids[..i])
    && (forall k :: 0 <= k < i ==> ids[k] in now && now[ids[k]] == value(k))
    && (forall id :: id in before && id !in ids[..i] ==> id in now && now[id] == before[id])
  }

  lemma EnteredNext<V>(before: map<nat, V>, now: map<nat, V>, ids: seq<nat>, value: nat -> V, i: nat)
    requires i < |ids| && Distinct(ids) && Entered(before, now, ids, value, i)
    ensures Entered(before, now[ids[i] := value(i)], ids, value, i + 1)
  {
  }

  class JobTable {
    const me: nat
    var jobs: map<int, Job>
    var taskToJob: map<nat, int>
    var fg: Option<int>
    var streams: map<nat, Streams>
    var eof: set<nat>
    var nextQueue: nat
    ghost var seen: set<nat>
    ghost var closed: set<int>

    ghost function View(): Shell
      reads this
    {
      Shell(me, jobs, taskToJob, fg, streams, eof, nextQueue, seen, closed)
    }

    /** `task_handler` */
    method HandleTasks(obs: Observation)
      requires Inv(View())
      modifies this
      ensures View() == TaskHandler(old(View()), obs) && Inv(View())
    {
      HandlerPreserves(View(), obs);
      PassAndRemove(obs);
    }

    /** The pass over the jobs and the removals after it. */
    method PassAndRemove(obs: Observation)
      requires AllShaped(jobs) && forall n :: n in jobs ==> Distinct(jobs[n].taskIds)
      modifies this
      ensures View() == TaskHandler(old(View()), obs)
    {
      ghost var s := View();
      var finished := PassJobs(obs);
      PassedAll(s, obs, jobs, eof, fg, finished);
      RemoveFinished(s.jobs, finished);
      seen := s.seen + AllExited(s.jobs, obs) - Gone(s.jobs, obs);
      closed := s.closed * jobs.Keys;
    }

    /** The loop over all jobs; returns the finished ones. */
    method PassJobs(obs: Observation) returns (finished: seq<int>)
      requires AllShaped(jobs) && forall n :: n in jobs ==> Distinct(jobs[n].taskIds)
      modifies this`jobs, this`eof, this`fg
      ensures Passed(old(View()), obs, old(jobs).Keys, jobs, eof, fg, finished)
    {
      ghost var s := View();
      var order := InOrder(jobs.Keys);
      finished := [];
      PassedNone(s, obs);
      for i := 0 to |order|
        invariant Passed(s, obs, Members(order[..i]), jobs, eof, fg, finished)
      {
        var n := order[i];
        OrderNext(order, i);
        finished := PassJob(n, obs, finished, s, Members(order[..i]));
      }
      assert order[..|order|] == order;
    }

    /** The body of that loop, for job `n`. */
    method PassJob(n: int, obs: Observation, finished: seq<int>, ghost s: Shell, ghost done: set<int>)
      returns (finished': seq<int>)
      requires AllShaped(s.jobs) && n in s.jobs && n !in done && Distinct(s.jobs[n].taskIds)
      requires Passed(s, obs, done, jobs, eof, fg, finished)
      modifies this`jobs, this`eof, this`fg
      ensures Passed(s, obs, done + {n}, jobs, eof, fg, finished')
    {
      PassedNext(s, obs, done, jobs, eof, fg, finished, n);
      finished' := finished;
      var alive, stopped, j, ends := SweepTasks(jobs[n], obs, eof);
      jobs := jobs[n := j];
      eof := ends;
      if stopped && fg == Some(n) {
        fg := None;
      }
      if !alive {
        finished' := finished' + [n];
        if fg == Some(n) {
          fg := None;
        }
      }
    }

    /** Removes finished jobs from the table, and their tasks from `taskToJob` and the stream map. */
    method RemoveFinished(ghost was: map<int, Job>, finished: seq<int>)
      requires jobs.Keys == was.Keys && Members(finished) <= jobs.Keys
      requires forall n :: n in jobs ==> jobs[n].taskIds == was[n].taskIds
      modifies this
      ensures jobs == old(jobs) - Members(finished)
      ensures taskToJob == old(taskToJob) - GoneSome(was, Members(finished))
      ensures streams == old(streams) - GoneSome(was, Members(finished))
      ensures View() == old(View()).(jobs := jobs, taskToJob := taskToJob, streams := streams)
    {
      for i := 0 to |finished|
        invariant jobs == old(jobs) - Members(finished[..i])
        invariant taskToJob == old(taskToJob) - GoneSome(was, Members(finished[..i]))
        invariant streams == old(streams) - GoneSome(was, Members(finished[..i]))
        invariant View() == old(View()).(jobs := jobs, taskToJob := taskToJob, streams := streams)
      {
        var n := finished[i];
        assert n in Members(finished);
        assert Members(finished[..i + 1]) == Members(finished[..i]) + {n};
        GoneNext(was, Members(finished[..i]), n);
        MinusMore(old(jobs), Members(finished[..i]), {n});
        MinusMore(old(taskToJob), GoneSome(was, Members(finished[..i])), TaskSet(was[n]));
        MinusMore(old(streams), GoneSome(was, Members(finished[..i])), TaskSet(was[n]));
        if n in jobs {
          var ids := jobs[n].taskIds;
          jobs := jobs - {n};
          ForgetTasks(ids);
        } else {
          AlreadyGone(was, Members(finished[..i]), n);
        }
      }
      assert finished[..|finished|] == finished;
    }

    method ForgetTasks(ids: seq<nat>)
      modifies this`taskToJob, this`streams
      ensures taskToJob == old(taskToJob) - Elements(ids) && streams == old(streams) - Elements(ids)
    {
      for k := 0 to |ids|
        invariant taskToJob == old(taskToJob) - Elements(ids[..k])
        invariant streams == old(streams) - Elements(ids[..k])
      {
        assert Elements(ids[..k + 1]) == Elements(ids[..k]) + {ids[k]};
        taskToJob := taskToJob - {ids[k]};
        streams := streams - {ids[k]};
      }
      assert ids[..|ids|] == ids;
    }

    /** Ctrl+D */
    method CloseInput()
      requires Inv(View())
      modifies this
      ensures View() == CtrlD(old(View())) && Inv(View())
    {
      CtrlDPreserves(View());
      match fg {
        case Some(n) =>
          if n in jobs {
            eof := eof + {InputOf(jobs, n)};
            closed := closed + {n};
          }
        case None =>
      }
    }

    /** `fg %n` and `bg %n`; `unblock` tells which tasks could be unblocked. The last one decides. */
    method ResumeTasks(n: int, foreground: bool, unblock: nat -> bool)
      requires Inv(View())
      modifies this
      ensures var s := old(View());
              View() == Resume(s, n, foreground, n in s.jobs && |s.jobs[n].taskIds| >= 1 && unblock(LastTask(s.jobs[n])))
      ensures Inv(View())
    {
      ghost var s := View();
      if n in jobs {
        assert Shaped(jobs[n]);
        ResumePreserves(s, n, foreground, unblock(LastTask(jobs[n])));
        if foreground {
          fg := Some(n);
        }
        var status := UnblockAll(jobs[n], unblock);
        jobs := jobs[n := jobs[n].(status := status)];
      }
    }

    /** Enter on a command: at a prompt, starts the job and puts it in the foreground unless it ends in `&`. */
    method RunCommand(ids: seq<nat>, background: bool) returns (num: int)
      requires Inv(View()) && |ids| >= 1 && Distinct(ids)
      requires forall id :: id in ids ==> id !in taskToJob && id !in streams
      modifies this
      ensures old(fg).Some? ==> View() == old(View())
      ensures old(fg).None? ==>
                LeastUnused(old(jobs).Keys, num) && View() == Step(old(View()), Launch(ids, num, background))
    {
      num := 0;
      if fg.Some? {
        return;
      }
      num := LaunchTasks(ids);
      fg := Some(num);
      if background {
        fg := None;
      }
    }

    /** `build_new_job`, for tasks already spawned with these ids. */
    method LaunchTasks(ids: seq<nat>) returns (num: int)
      requires Inv(View()) && |ids| >= 1 && Distinct(ids)
      requires forall id :: id in ids ==> id !in taskToJob && id !in streams
      modifies this
      ensures LeastUnused(old(jobs).Keys, num)
      ensures View() == BuildNewJob(old(View()), ids, num) && Inv(View())
    {
      ghost var s := View();
      num := EnterJob(ids);
      BuildPreserves(s, ids, num);
    }

    /** Sets up the queues, the job number and the table entries of a new job, in that order. */
    method EnterJob(ids: seq<nat>) returns (num: int)
      requires |ids| >= 1 && Distinct(ids) && forall n :: n in jobs.Keys ==> n >= 1
      modifies this
      ensures LeastUnused(old(jobs).Keys, num) && View() == BuildNewJob(old(View()), ids, num)
    {
      ghost var s := View();
      var pipes, stderrs := WireTasks(ids);
      num := NewJobNumber(jobs.Keys);
      EnterTasks(ids, num);
      jobs := jobs[num := Job(ids, Running, pipes, stderrs)];
      BuiltTables(s, ids, num, streams, taskToJob);
    }

    /** Creates the chain of queues and enters each task's streams in the stream map. */
    method WireTasks(ids: seq<nat>) returns (pipes: seq<nat>, stderrs: seq<nat>)
      requires |ids| >= 1 && Distinct(ids)
      modifies this`streams, this`nextQueue
      ensures var job := NewJob(ids, old(nextQueue));
              pipes == job.pipes && stderrs == job.stderrs
              && Entered(old(streams), streams, ids, StreamsAt(me, job), |ids|)
      ensures nextQueue == old(nextQueue) + 2 * |ids| + 1
    {
      ghost var was, q := streams, nextQueue;
      pipes, stderrs := [nextQueue], [];
      nextQueue := nextQueue + 1;
      for i := 0 to |ids|
        invariant Chained(was, streams, me, ids, q, i, pipes, stderrs) && nextQueue == q + 1 + 2 * i
      {
        ChainedNext(was, streams, me, ids, q, i, pipes, stderrs);
        var pipe, stderr := nextQueue, nextQueue + 1;
        nextQueue := nextQueue + 2;
        streams := streams[ids[i] := Streams(me, pipes[|pipes| - 1], pipe, stderr)];
        stderrs := stderrs + [stderr];
        pipes := pipes + [pipe];
      }
    }

    /** Maps every task of the new job to its number. */
    method EnterTasks(ids: seq<nat>, num: int)
      requires Distinct(ids)
      modifies this`taskToJob
      ensures Entered(old(taskToJob), taskToJob, ids, Always(num), |ids|)
    {
      ghost var was := taskToJob;
      for i := 0 to |ids|
        invariant Entered(was, taskToJob, ids, Always(num), i)
      {
        EnteredNext(was, taskToJob, ids, Always(num), i);
        taskToJob := taskToJob[ids[i] := num];
      }
    }
  }

  lemma BuiltTables(s: Shell, ids: seq<nat>, num: int, streams: map<nat, Streams>, taskToJob: map<nat, int>)
    requires |ids| >= 1 && Distinct(ids)
    requires Entered(s.streams, streams, ids, StreamsAt(s.me, NewJob(ids, s.nextQueue)), |ids|)
    requires Entered(s.taskToJob, taskToJob, ids, Always(num), |ids|)
    ensures streams == BuildNewJob(s, ids, num).streams && taskToJob == BuildNewJob(s, ids, num).taskToJob
  {
    assert ids[..|ids|] == ids;
    var t := BuildNewJob(s, ids, num);
    forall id | id in streams ensures streams[id] == t.streams[id] {
      if id in ids { assert ids[IndexOf(ids, id)] == id; }
    }
    forall id | id in taskToJob ensures taskToJob[id] == t.taskToJob[id] {
      if id in ids { assert ids[IndexOf(ids, id)] == id; }
    }
  }

  lemma OrderNext(order: seq<int>, i: nat)
    requires Ascending(order) && i < |order|
    ensures order[i] in Members(order) && order[i] !in Members(order[..i])
    ensures Members(order[..i + 1]) == Members(order[..i]) + {order[i]}
  {
  }

  /** The loop that unblocks every task of a job: the status follows the last one. */
  method UnblockAll(j: Job, unblock: nat -> bool) returns (status: Status)
    requires |j.taskIds| >= 1
    ensures status == if unblock(LastTask(j)) then Running else Stopped
  {
    status := j.status;
    for k := 0 to |j.taskIds|
      invariant k > 0 ==> status == if unblock(j.taskIds[k - 1]) then Running else Stopped
    {
      if !unblock(j.taskIds[k]) {
        status := Stopped;
      } else {
        status := Running;
      }
    }
  }

  /** The first `i` tasks of a new job are wired to queues numbered from `q` on. */
  ghost predicate Chained(was: map<nat, Streams>, streams: map<nat, Streams>, me: nat, ids: seq<nat>, q: nat, i: nat,
                          pipes: seq<nat>, stderrs: seq<nat>)
    requires 1 <= |ids| && i <= |ids|
  {
    var job := NewJob(ids, q);
    && pipes == job.pipes[..i + 1] && stderrs == job.stderrs[..i]
    && Entered(was, streams, ids, StreamsAt(me, job), i)
  }

  lemma ChainedNext(was: map<nat, Streams>, streams: map<nat, Streams>, me: nat, ids: seq<nat>, q: nat, i: nat,
                    pipes: seq<nat>, stderrs: seq<nat>)
    requires i < |ids| && Distinct(ids) && Chained(was, streams, me, ids, q, i, pipes, stderrs)
    ensures |pipes| == i + 1
    ensures Chained(was, streams[ids[i] := Streams(me, pipes[|pipes| - 1], q + 2 * i + 1, q + 2 * i + 2)],
                    me, ids, q, i + 1, pipes + [q + 2 * i + 1], stderrs + [q + 2 * i + 2])
  {
    var job := NewJob(ids, q);
    EnteredNext(was, streams, ids, StreamsAt(me, job), i);
    assert job.pipes[..i + 2] == job.pipes[..i + 1] + [job.pipes[i + 1]];
    assert job.stderrs[..i + 1] == job.stderrs[..i] + [job.stderrs[i]];
  }

  function Always(num: int): nat -> int {
    (k: nat) => num
  }

  function StreamsAt(me: nat, j: Job): nat -> Streams
    requires Shaped(j)
  {
    (k: nat) => if k < |j.taskIds| then StreamsOf(me, j, k) else Streams(me, 0, 0, 0)
  }

  lemma AlreadyGone(jobs: map<int, Job>, nums: set<int>, n: int)
    requires n in nums
    ensures nums + {n} == nums
  {
  }
}
