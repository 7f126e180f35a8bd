/** The job table of applications/shell/src/lib.rs and the stream map of kernel/app_io/src/lib.rs,
    as a state machine over key events and task exits.

    Stdio queues are named by numbers in order of creation; `eof` holds those whose EOF flag is set.
    The stream map is global, so each entry records the shell that inserted it. */
module ShellJobs {
  import opened Bytes

  datatype Status = Running | Stopped

  /** `pipes[0]` feeds the first task, `pipes[N]` carries the last task's output to the shell. */
  datatype Job = Job(taskIds: seq<nat>, status: Status, pipes: seq<nat>, stderrs: seq<nat>)

  /** The queues behind a task's stdin, stdout and stderr, and the shell that set them up. */
  datatype Streams = Streams(owner: nat, stdin: nat, stdout: nat, stderr: nat)

  datatype Shell = Shell(
    me: nat,
    jobs: map<int, Job>,
    taskToJob: map<nat, int>,
    fg: Option<int>,
    streams: map<nat, Streams>,
    eof: set<nat>,
    nextQueue: nat,
    seen: set<nat>,        // tasks of current jobs whose exit has been handled
    closed: set<int>)      // current jobs whose input the user has closed with Ctrl+D

  // ----- building a job

  /** Is `num` the smallest positive number not in `keys`? */
  predicate LeastUnused(keys: set<int>, num: int) {
    num >= 1 && num !in keys && forall m :: 1 <= m < num ==> m in keys
  }

  function NewJob(ids: seq<nat>, q: nat): (j: Job)
    ensures |j.pipes| == |ids| + 1 && |j.stderrs| == |ids|
  {
    Job(ids, Running,
        seq(|ids| + 1, k => if k == 0 then q else q + 2 * k - 1),
        seq(|ids|, k => q + 2 * k + 2))
  }

  function StreamsOf(me: nat, j: Job, k: nat): Streams
    requires k < |j.stderrs| && k + 1 < |j.pipes|
  {
    Streams(me, j.pipes[k], j.pipes[k + 1], j.stderrs[k])
  }

  predicate Distinct(ids: seq<nat>) {
    forall i, k :: 0 <= i < k < |ids| ==> ids[i] != ids[k]
  }

  function IndexOf(ids: seq<nat>, id: nat): (k: nat)
    requires id in ids
    ensures k < |ids| && ids[k] == id
  {
    if ids[0] == id then 0 else 1 + IndexOf(ids[1..], id)
  }

  /** `build_new_job`, once `eval_cmdline` has spawned tasks with these ids. */
  function BuildNewJob(s: Shell, ids: seq<nat>, num: int): Shell {
    var j := NewJob(ids, s.nextQueue);
    s.(jobs := s.jobs[num := j],
       taskToJob := map id | id in s.taskToJob.Keys + (set x | x in ids) :: if id in ids then num else s.taskToJob[id],
       streams := map id | id in s.streams.Keys + (set x | x in ids) ::
                    if id in ids then StreamsOf(s.me, j, IndexOf(ids, id)) else s.streams[id],
       nextQueue := s.nextQueue + 2 * |ids| + 1)
  }

  // ----- handling task exits and stops

  datatype TaskState = Exited | Blocked | Runnable

  type Observation = nat -> TaskState

  predicate Alive(j: Job, obs: Observation) {
    exists k :: 0 <= k < |j.taskIds| && obs(j.taskIds[k]) != Exited
  }

  predicate JustStopped(j: Job, obs: Observation) {
    j.status == Running && exists k :: 0 <= k < |j.taskIds| && obs(j.taskIds[k]) == Blocked
  }

  function Refresh(j: Job, obs: Observation): Job {
    if JustStopped(j, obs) then j.(status := Stopped) else j
  }

  /** The queues that get an EOF because task `k` of the job has exited. */
  function QueuesAround(j: Job, k: nat): set<nat>
    requires k < |j.stderrs| && k + 1 < |j.pipes|
  {
    {j.pipes[k], j.pipes[k + 1], j.stderrs[k]}
  }

  predicate Shaped(j: Job) {
    |j.taskIds| >= 1 && |j.pipes| == |j.taskIds| + 1 && |j.stderrs| == |j.taskIds|
  }

  predicate AllShaped(jobs: map<int, Job>) {
    forall n :: n in jobs ==> Shaped(jobs[n])
  }

  function Closing(j: Job, obs: Observation): set<nat>
    requires Shaped(j)
  {
    set k, q | 0 <= k < |j.taskIds| && obs(j.taskIds[k]) == Exited && q in QueuesAround(j, k) :: q
  }

  function TaskSet(j: Job): set<nat> {
    set x | x in j.taskIds
  }

  /** The jobs that still have a task that has not exited. */
  function Remaining(jobs: map<int, Job>, obs: Observation): map<int, Job> {
    map n | n in jobs && Alive(jobs[n], obs) :: Refresh(jobs[n], obs)
  }

  /** The tasks of finished jobs. */
  function Gone(jobs: map<int, Job>, obs: Observation): set<nat> {
    set n, id | n in jobs && !Alive(jobs[n], obs) && id in TaskSet(jobs[n]) :: id
  }

  function AllClosing(jobs: map<int, Job>, obs: Observation): set<nat>
    requires AllShaped(jobs)
  {
    set n, q | n in jobs && q in Closing(jobs[n], obs) :: q
  }

  function AllExited(jobs: map<int, Job>, obs: Observation): set<nat> {
    set n, id | n in jobs && id in TaskSet(jobs[n]) && obs(id) == Exited :: id
  }

  /** Does the foreground job leave the foreground? */
  predicate LeavesForeground(s: Shell, obs: Observation) {
    match s.fg
    case Some(n) => n in s.jobs && (JustStopped(s.jobs[n], obs) || !Alive(s.jobs[n], obs))
    case None => false
  }

  /** `task_handler` */
  function TaskHandler(s: Shell, obs: Observation): Shell
    requires AllShaped(s.jobs)
  {
    var gone := Gone(s.jobs, obs);
    s.(jobs := Remaining(s.jobs, obs),
       taskToJob := s.taskToJob - gone,
       streams := s.streams - gone,
       fg := if LeavesForeground(s, obs) then None else s.fg,
       eof := s.eof + AllClosing(s.jobs, obs),
       seen := s.seen + AllExited(s.jobs, obs) - gone,
       closed := s.closed * Remaining(s.jobs, obs).Keys)
  }

  // ----- keys

  function InputOf(jobs: map<int, Job>, n: int): nat
    requires AllShaped(jobs) && n in jobs
  {
    jobs[n].pipes[0]
  }

  /** Ctrl+D: EOF on the input of the foreground job. */
  function CtrlD(s: Shell): Shell
    requires AllShaped(s.jobs)
  {
    match s.fg
    case Some(n) =>
      if n in s.jobs then s.(eof := s.eof + {InputOf(s.jobs, n)}, closed := s.closed + {n}) else s
    case None => s
  }

  /** `fg %n` and `bg %n`; `unblocked` is whether the last `unblock` call succeeded. */
  function Resume(s: Shell, n: int, foreground: bool, unblocked: bool): Shell {
    if n in s.jobs
    then s.(jobs := s.jobs[n := s.jobs[n].(status := if unblocked then Running else Stopped)],
            fg := if foreground then Some(n) else s.fg)
    else s
  }

  datatype Event =
    | Launch(ids: seq<nat>, num: int, background: bool)    // Enter on a command whose tasks were spawned
    | ResumeJob(n: int, foreground: bool, unblocked: bool) // Enter on `fg %n` or `bg %n`
    | EndOfInput                                           // Ctrl+D
    | Tasks(obs: Observation)                              // one run of `task_handler`
    | Others(streams: map<nat, Streams>)                   // other shells change the stream map

  /** Enter starts something only without a foreground job. */
  function Step(s: Shell, e: Event): Shell
    requires AllShaped(s.jobs)
  {
    match e
    case Launch(ids, num, background) =>
      if s.fg.Some? then s
      else BuildNewJob(s, ids, num).(fg := if background then None else Some(num))
    case ResumeJob(n, foreground, unblocked) =>
      if s.fg.Some? then s else Resume(s, n, foreground, unblocked)
    case EndOfInput => CtrlD(s)
    case Tasks(obs) => TaskHandler(s, obs)
    case Others(streams) => s.(streams := streams)
  }

  /** The kernel gives new tasks ids that are not in use, and a shell changes only its own entries. */
  predicate Legal(s: Shell, e: Event) {
    match e
    case Launch(ids, num, _) =>
      && |ids| >= 1 && Distinct(ids) && LeastUnused(s.jobs.Keys, num)
      && forall id :: id in ids ==> id !in s.taskToJob && id !in s.streams
    case Others(streams) =>
      && (forall id :: id in s.streams && s.streams[id].owner == s.me ==> id in streams && streams[id] == s.streams[id])
      && (forall id :: id in streams && streams[id].owner == s.me ==> id in s.streams && streams[id] == s.streams[id])
    case _ => true
  }

  // ----- the invariant

  /** `taskToJob` is the inverse of the jobs' task lists. */
  predicate Inverse(jobs: map<int, Job>, taskToJob: map<nat, int>) {
    && (forall id :: id in taskToJob ==> taskToJob[id] in jobs && id in jobs[taskToJob[id]].taskIds)
    && (forall n, id :: n in jobs && id in jobs[n].taskIds ==> id in taskToJob && taskToJob[id] == n)
    && (forall n :: n in jobs ==> n >= 1 && Distinct(jobs[n].taskIds))
  }

  /** This shell's entries in the stream map are those of its tasks, and connect each task to the
      queues of its place in the pipeline. */
  predicate Wired(me: nat, jobs: map<int, Job>, taskToJob: map<nat, int>, streams: map<nat, Streams>)
    requires AllShaped(jobs)
  {
    && (forall id :: id in streams && streams[id].owner == me ==> id in taskToJob)
    && (forall id :: id in taskToJob ==> id in streams)
    && (forall n, k :: n in jobs && 0 <= k < |jobs[n].taskIds| && jobs[n].taskIds[k] in streams ==>
         streams[jobs[n].taskIds[k]] == StreamsOf(me, jobs[n], k))
  }

  predicate FgExists(s: Shell) {
    s.fg.Some? ==> s.fg.value in s.jobs
  }

  function Elements(qs: seq<nat>): set<nat> {
    set q | q in qs
  }

  function QueueSet(j: Job): set<nat> {
    Elements(j.pipes) + Elements(j.stderrs)
  }

  /** No queue serves two purposes, within a job or across jobs. */
  predicate QueuesApart(jobs: map<int, Job>, nextQueue: nat) {
    && (forall n :: n in jobs ==>
         && Distinct(jobs[n].pipes) && Distinct(jobs[n].stderrs)
         && Elements(jobs[n].pipes) !! Elements(jobs[n].stderrs)
         && forall q :: q in QueueSet(jobs[n]) ==> q < nextQueue)
    && (forall n, m :: n in jobs && m in jobs && n != m ==> QueueSet(jobs[n]) !! QueueSet(jobs[m]))
  }

  /** When pipe `k` of a job is at EOF: an exited task reads or writes it, or the user closed it. */
  predicate PipeEnded(j: Job, seen: set<nat>, closed: bool, k: nat) {
    || (k < |j.taskIds| && j.taskIds[k] in seen)
    || (0 < k <= |j.taskIds| && j.taskIds[k - 1] in seen)
    || (k == 0 && closed)
  }

  /** EOF is set on exactly the queues it should be set on. */
  predicate EofExact(j: Job, eof: set<nat>, seen: set<nat>, closed: bool) {
    && (forall k {:trigger j.pipes[k]} :: 0 <= k < |j.pipes| ==> (j.pipes[k] in eof <==> PipeEnded(j, seen, closed, k)))
    && (forall k {:trigger j.stderrs[k]} :: 0 <= k < |j.stderrs| && k < |j.taskIds| ==>
         (j.stderrs[k] in eof <==> j.taskIds[k] in seen))
  }

  predicate AllEofExact(s: Shell) {
    && (forall n :: n in s.jobs ==> EofExact(s.jobs[n], s.eof, s.seen, n in s.closed))
    && (forall q :: q in s.eof ==> q < s.nextQueue)
    && s.seen <= s.taskToJob.Keys && s.closed <= s.jobs.Keys
  }

  predicate Inv(s: Shell) {
    && AllShaped(s.jobs)
    && Inverse(s.jobs, s.taskToJob)
    && Wired(s.me, s.jobs, s.taskToJob, s.streams)
    && FgExists(s)
    && QueuesApart(s.jobs, s.nextQueue)
    && AllEofExact(s)
  }

  // ----- building a job keeps the invariant

  lemma BuildInverse(jobs: map<int, Job>, taskToJob: map<nat, int>, j: Job, num: int, taskToJob': map<nat, int>)
    requires Inverse(jobs, taskToJob) && num !in jobs && num >= 1 && Distinct(j.taskIds)
    requires forall id :: id in j.taskIds ==> id !in taskToJob
    requires taskToJob'.Keys == taskToJob.Keys + TaskSet(j)
    requires forall id :: id in taskToJob' ==> taskToJob'[id] == if id in j.taskIds then num else taskToJob[id]
    ensures Inverse(jobs[num := j], taskToJob')
  {
  }

  lemma BuildWired(s: Shell, ids: seq<nat>, num: int)
    requires AllShaped(s.jobs) && Inverse(s.jobs, s.taskToJob) && Wired(s.me, s.jobs, s.taskToJob, s.streams)
    requires Legal(s, Launch(ids, num, false))
    ensures var t := BuildNewJob(s, ids, num);
            AllShaped(t.jobs) && Wired(t.me, t.jobs, t.taskToJob, t.streams)
  {
    var t, j := BuildNewJob(s, ids, num), NewJob(ids, s.nextQueue);
    assert Shaped(j);
    forall n, k | n in t.jobs && 0 <= k < |t.jobs[n].taskIds| && t.jobs[n].taskIds[k] in t.streams
      ensures t.streams[t.jobs[n].taskIds[k]] == StreamsOf(t.me, t.jobs[n], k)
    {
      if n == num {
        NewWired(s.me, j, s.streams, t.streams, k);
      } else {
        OldWired(s.me, s.jobs, s.taskToJob, s.streams, j, t.streams, n, k);
      }
    }
  }

  /** The stream map after the tasks of `j` have been entered. */
  predicate StreamsEntered(me: nat, j: Job, streams: map<nat, Streams>, streams': map<nat, Streams>)
    requires Shaped(j)
  {
    forall id :: id in streams' ==>
      if id in j.taskIds then streams'[id] == StreamsOf(me, j, IndexOf(j.taskIds, id))
      else id in streams && streams'[id] == streams[id]
  }

  lemma NewWired(me: nat, j: Job, streams: map<nat, Streams>, streams': map<nat, Streams>, k: nat)
    requires Shaped(j) && Distinct(j.taskIds) && StreamsEntered(me, j, streams, streams')
    requires k < |j.taskIds| && j.taskIds[k] in streams'
    ensures streams'[j.taskIds[k]] == StreamsOf(me, j, k)
  {
    assert j.taskIds[k] in j.taskIds && j.taskIds[IndexOf(j.taskIds, j.taskIds[k])] == j.taskIds[k];
  }

  lemma OldWired(me: nat, jobs: map<int, Job>, taskToJob: map<nat, int>, streams: map<nat, Streams>, j: Job,
                 streams': map<nat, Streams>, n: int, k: nat)
    requires AllShaped(jobs) && Inverse(jobs, taskToJob) && Wired(me, jobs, taskToJob, streams)
    requires Shaped(j) && StreamsEntered(me, j, streams, streams') && forall id :: id in j.taskIds ==> id !in taskToJob
    requires n in jobs && k < |jobs[n].taskIds| && jobs[n].taskIds[k] in streams'
    ensures streams'[jobs[n].taskIds[k]] == StreamsOf(me, jobs[n], k)
  {
    assert jobs[n].taskIds[k] in jobs[n].taskIds;
  }

  lemma NewJobQueues(ids: seq<nat>, q: nat)
    ensures var j := NewJob(ids, q);
            && Distinct(j.pipes) && Distinct(j.stderrs)
            && Elements(j.pipes) !! Elements(j.stderrs)
            && forall x :: x in QueueSet(j) ==> q <= x < q + 2 * |ids| + 1
  {
  }

  lemma BuildQueues(s: Shell, ids: seq<nat>, num: int)
    requires QueuesApart(s.jobs, s.nextQueue)
    ensures var t := BuildNewJob(s, ids, num); QueuesApart(t.jobs, t.nextQueue)
  {
    NewJobQueues(ids, s.nextQueue);
    var t := BuildNewJob(s, ids, num);
    var j := NewJob(ids, s.nextQueue);
    forall n | n in s.jobs ensures QueueSet(s.jobs[n]) !! QueueSet(j) { }
  }

  lemma BuildEof(s: Shell, ids: seq<nat>, num: int)
    requires Inv(s) && Legal(s, Launch(ids, num, false))
    ensures AllEofExact(BuildNewJob(s, ids, num))
  {
    NewJobQueues(ids, s.nextQueue);
    var t := BuildNewJob(s, ids, num);
    FreshEof(NewJob(ids, s.nextQueue), s.nextQueue, s.eof, s.seen);
    forall n | n in t.jobs ensures EofExact(t.jobs[n], t.eof, t.seen, n in t.closed) {
      assert n != num ==> EofExact(s.jobs[n], s.eof, s.seen, n in s.closed);
    }
  }

  /** No queue of a job is at EOF while all of them are new and none of its tasks has been seen exited. */
  lemma FreshEof(j: Job, q: nat, eof: set<nat>, seen: set<nat>)
    requires (forall x :: x in QueueSet(j) ==> q <= x) && (forall x :: x in eof ==> x < q)
    requires forall id :: id in j.taskIds ==> id !in seen
    ensures EofExact(j, eof, seen, false)
  {
    forall k | 0 <= k < |j.pipes| ensures j.pipes[k] !in eof && !PipeEnded(j, seen, false, k) {
      assert j.pipes[k] in QueueSet(j);
    }
    forall k | 0 <= k < |j.stderrs| ensures j.stderrs[k] !in eof {
      assert j.stderrs[k] in QueueSet(j);
    }
  }

  lemma BuildPreserves(s: Shell, ids: seq<nat>, num: int)
    requires Inv(s) && Legal(s, Launch(ids, num, false))
    ensures Inv(BuildNewJob(s, ids, num)) && num in BuildNewJob(s, ids, num).jobs
  {
    var t := BuildNewJob(s, ids, num);
    BuildInverse(s.jobs, s.taskToJob, NewJob(ids, s.nextQueue), num, t.taskToJob);
    BuildWired(s, ids, num);
    BuildQueues(s, ids, num);
    BuildEof(s, ids, num);
  }

  // ----- task_handler keeps the invariant

  lemma HandlerInverse(jobs: map<int, Job>, taskToJob: map<nat, int>, obs: Observation)
    requires Inverse(jobs, taskToJob)
    ensures Inverse(Remaining(jobs, obs), taskToJob - Gone(jobs, obs))
  {
    var jobs', left := Remaining(jobs, obs), taskToJob - Gone(jobs, obs);
    forall id | id in left ensures left[id] in jobs' && id in jobs'[left[id]].taskIds {
      NotGone(jobs, taskToJob, obs, taskToJob[id], id);
    }
    forall n, id | n in jobs' && id in jobs'[n].taskIds ensures id in left && left[id] == n {
      NotGone(jobs, taskToJob, obs, n, id);
    }
    assert forall n :: n in jobs' ==> n in jobs && jobs'[n].taskIds == jobs[n].taskIds;
  }

  lemma NotGone(jobs: map<int, Job>, taskToJob: map<nat, int>, obs: Observation, n: int, id: nat)
    requires Inverse(jobs, taskToJob) && n in jobs && id in jobs[n].taskIds
    ensures id in Gone(jobs, obs) <==> !Alive(jobs[n], obs)
  {
    assert id in TaskSet(jobs[n]);
    if id in Gone(jobs, obs) {
      var m :| m in jobs && !Alive(jobs[m], obs) && id in TaskSet(jobs[m]);
      assert id in jobs[m].taskIds;
      assert taskToJob[id] == m == n;
    }
  }

  lemma HandlerWired(s: Shell, obs: Observation)
    requires AllShaped(s.jobs) && Inverse(s.jobs, s.taskToJob) && Wired(s.me, s.jobs, s.taskToJob, s.streams)
    ensures var t := TaskHandler(s, obs);
            AllShaped(t.jobs) && Wired(t.me, t.jobs, t.taskToJob, t.streams)
  {
    var t := TaskHandler(s, obs);
    forall n, k | n in t.jobs && 0 <= k < |t.jobs[n].taskIds| && t.jobs[n].taskIds[k] in t.streams
      ensures t.streams[t.jobs[n].taskIds[k]] == StreamsOf(t.me, t.jobs[n], k)
    {
      assert s.jobs[n].taskIds[k] in s.streams;
    }
  }

  lemma HandlerQueues(jobs: map<int, Job>, nextQueue: nat, obs: Observation)
    requires QueuesApart(jobs, nextQueue)
    ensures QueuesApart(Remaining(jobs, obs), nextQueue)
  {
  }

  /** The handler's EOFs reach a job's queues only through the job's own exited tasks. */
  lemma ClosingOwn(jobs: map<int, Job>, nextQueue: nat, obs: Observation, n: int, q: nat)
    requires AllShaped(jobs) && QueuesApart(jobs, nextQueue) && n in jobs && q in QueueSet(jobs[n])
    ensures q in AllClosing(jobs, obs) <==> q in Closing(jobs[n], obs)
  {
  }

  lemma ClosingInside(j: Job, obs: Observation, q: nat)
    requires Shaped(j) && q in Closing(j, obs)
    ensures q in QueueSet(j)
  {
  }

  predicate ExitedAt(j: Job, obs: Observation, k: int) {
    0 <= k < |j.taskIds| && obs(j.taskIds[k]) == Exited
  }

  lemma ClosingPipe(jobs: map<int, Job>, nextQueue: nat, obs: Observation, n: int, k: nat)
    requires AllShaped(jobs) && QueuesApart(jobs, nextQueue) && n in jobs && k < |jobs[n].pipes|
    ensures jobs[n].pipes[k] in AllClosing(jobs, obs)
       <==> ExitedAt(jobs[n], obs, k) || ExitedAt(jobs[n], obs, k - 1)
  {
    var j := jobs[n];
    var q := j.pipes[k];
    assert q in j.pipes;
    ClosingOwn(jobs, nextQueue, obs, n, q);
    if q in Closing(j, obs) {
      var i :| 0 <= i < |j.taskIds| && obs(j.taskIds[i]) == Exited && q in QueuesAround(j, i);
      assert q in Elements(j.pipes) && j.stderrs[i] in Elements(j.stderrs);
    }
    if ExitedAt(j, obs, k) { assert q in QueuesAround(j, k); }
    if ExitedAt(j, obs, k - 1) { assert q in QueuesAround(j, k - 1); }
  }

  lemma ClosingStderr(jobs: map<int, Job>, nextQueue: nat, obs: Observation, n: int, k: nat)
    requires AllShaped(jobs) && QueuesApart(jobs, nextQueue) && n in jobs && k < |jobs[n].stderrs|
    ensures jobs[n].stderrs[k] in AllClosing(jobs, obs) <==> ExitedAt(jobs[n], obs, k)
  {
    var j := jobs[n];
    var q := j.stderrs[k];
    assert q in j.stderrs;
    ClosingOwn(jobs, nextQueue, obs, n, q);
    if q in Closing(j, obs) {
      var i :| 0 <= i < |j.taskIds| && obs(j.taskIds[i]) == Exited && q in QueuesAround(j, i);
      assert q in Elements(j.stderrs) && j.pipes[i] in Elements(j.pipes) && j.pipes[i + 1] in Elements(j.pipes);
    }
    if ExitedAt(j, obs, k) { assert q in QueuesAround(j, k); }
  }

  lemma SeenAfter(s: Shell, obs: Observation, n: int, k: nat)
    requires AllShaped(s.jobs) && Inverse(s.jobs, s.taskToJob)
    requires n in s.jobs && Alive(s.jobs[n], obs) && k < |s.jobs[n].taskIds|
    ensures var id := s.jobs[n].taskIds[k];
            id in TaskHandler(s, obs).seen <==> id in s.seen || ExitedAt(s.jobs[n], obs, k)
  {
    var id := s.jobs[n].taskIds[k];
    assert id in TaskSet(s.jobs[n]);
    NotGone(s.jobs, s.taskToJob, obs, n, id);
  }

  lemma HandlerPipe(s: Shell, obs: Observation, n: int, k: nat)
    requires AllShaped(s.jobs) && Inverse(s.jobs, s.taskToJob) && QueuesApart(s.jobs, s.nextQueue)
    requires n in s.jobs && Alive(s.jobs[n], obs) && k < |s.jobs[n].pipes|
    requires s.jobs[n].pipes[k] in s.eof <==> PipeEnded(s.jobs[n], s.seen, n in s.closed, k)
    ensures var t := TaskHandler(s, obs);
            s.jobs[n].pipes[k] in t.eof <==> PipeEnded(s.jobs[n], t.seen, n in s.closed, k)
  {
    ClosingPipe(s.jobs, s.nextQueue, obs, n, k);
    if k < |s.jobs[n].taskIds| { SeenAfter(s, obs, n, k); }
    if k > 0 { SeenAfter(s, obs, n, k - 1); }
  }

  lemma HandlerStderr(s: Shell, obs: Observation, n: int, k: nat)
    requires AllShaped(s.jobs) && Inverse(s.jobs, s.taskToJob) && QueuesApart(s.jobs, s.nextQueue)
    requires n in s.jobs && Alive(s.jobs[n], obs) && k < |s.jobs[n].stderrs|
    requires s.jobs[n].stderrs[k] in s.eof <==> s.jobs[n].taskIds[k] in s.seen
    ensures var t := TaskHandler(s, obs);
            s.jobs[n].stderrs[k] in t.eof <==> s.jobs[n].taskIds[k] in t.seen
  {
    ClosingStderr(s.jobs, s.nextQueue, obs, n, k);
    SeenAfter(s, obs, n, k);
  }

  lemma HandlerEofOf(s: Shell, obs: Observation, n: int)
    requires AllShaped(s.jobs) && Inverse(s.jobs, s.taskToJob) && QueuesApart(s.jobs, s.nextQueue)
    requires n in s.jobs && Alive(s.jobs[n], obs) && EofExact(s.jobs[n], s.eof, s.seen, n in s.closed)
    ensures var t := TaskHandler(s, obs); EofExact(s.jobs[n], t.eof, t.seen, n in s.closed)
  {
    var t, j := TaskHandler(s, obs), s.jobs[n];
    forall k | 0 <= k < |j.pipes|
      ensures j.pipes[k] in t.eof <==> PipeEnded(j, t.seen, n in s.closed, k)
    {
      HandlerPipe(s, obs, n, k);
    }
    forall k | 0 <= k < |j.stderrs| && k < |j.taskIds|
      ensures j.stderrs[k] in t.eof <==> j.taskIds[k] in t.seen
    {
      HandlerStderr(s, obs, n, k);
    }
  }

  lemma HandlerEof(s: Shell, obs: Observation)
    requires Inv(s)
    ensures AllEofExact(TaskHandler(s, obs))
  {
    var t := TaskHandler(s, obs);
    forall n | n in t.jobs ensures EofExact(t.jobs[n], t.eof, t.seen, n in t.closed) {
      HandlerEofOf(s, obs, n);
      SameQueues(s.jobs[n], t.jobs[n], t.eof, t.seen, n in t.closed);
    }
    ClosingBelow(s.jobs, s.nextQueue, obs);
    ExitedMapped(s.jobs, s.taskToJob, obs);
  }

  lemma ClosingBelow(jobs: map<int, Job>, nextQueue: nat, obs: Observation)
    requires AllShaped(jobs) && QueuesApart(jobs, nextQueue)
    ensures forall q :: q in AllClosing(jobs, obs) ==> q < nextQueue
  {
    forall q | q in AllClosing(jobs, obs) ensures q < nextQueue {
      var n :| n in jobs && q in Closing(jobs[n], obs);
      ClosingInside(jobs[n], obs, q);
    }
  }

  lemma ExitedMapped(jobs: map<int, Job>, taskToJob: map<nat, int>, obs: Observation)
    requires Inverse(jobs, taskToJob)
    ensures AllExited(jobs, obs) <= taskToJob.Keys
  {
  }

  lemma HandlerPreserves(s: Shell, obs: Observation)
    requires Inv(s)
    ensures Inv(TaskHandler(s, obs))
  {
    HandlerInverse(s.jobs, s.taskToJob, obs);
    HandlerWired(s, obs);
    HandlerQueues(s.jobs, s.nextQueue, obs);
    HandlerEof(s, obs);
  }

  // ----- the other steps

  lemma CtrlDPreserves(s: Shell)
    requires Inv(s)
    ensures Inv(CtrlD(s))
  {
    var t := CtrlD(s);
    if s.fg.Some? && s.fg.value in s.jobs {
      var n := s.fg.value;
      var q := InputOf(s.jobs, n);
      assert q in Elements(s.jobs[n].pipes) && q in QueueSet(s.jobs[n]);
      forall m | m in s.jobs ensures EofExact(t.jobs[m], t.eof, t.seen, m in t.closed) {
        CloseOne(s.jobs, s.nextQueue, s.eof, s.seen, n, m, m in s.closed);
      }
    }
  }

  lemma CloseOne(jobs: map<int, Job>, nextQueue: nat, eof: set<nat>, seen: set<nat>, n: int, m: int, closed: bool)
    requires AllShaped(jobs) && QueuesApart(jobs, nextQueue) && n in jobs && m in jobs
    requires EofExact(jobs[m], eof, seen, closed)
    ensures EofExact(jobs[m], eof + {InputOf(jobs, n)}, seen, closed || n == m)
  {
    var j, q := jobs[m], InputOf(jobs, n);
    assert q in Elements(jobs[n].pipes) && q in QueueSet(jobs[n]);
    forall k | 0 <= k < |j.pipes| ensures j.pipes[k] == q <==> n == m && k == 0 {
      assert j.pipes[k] in QueueSet(j);
    }
    forall k | 0 <= k < |j.stderrs| ensures j.stderrs[k] != q {
      assert j.stderrs[k] in Elements(j.stderrs) && j.stderrs[k] in QueueSet(j);
    }
  }

  lemma ResumePreserves(s: Shell, n: int, foreground: bool, unblocked: bool)
    requires Inv(s)
    ensures Inv(Resume(s, n, foreground, unblocked))
  {
    var t := Resume(s, n, foreground, unblocked);
    if n in s.jobs {
      StatusTables(s, n, t.jobs[n].status);
      StatusQueues(s.jobs, s.nextQueue, n, t.jobs[n].status);
      forall m | m in t.jobs ensures EofExact(t.jobs[m], t.eof, t.seen, m in t.closed) {
        assert EofExact(s.jobs[m], s.eof, s.seen, m in s.closed);
        SameQueues(s.jobs[m], t.jobs[m], s.eof, s.seen, m in s.closed);
      }
    }
  }

  lemma StatusTables(s: Shell, n: int, status: Status)
    requires AllShaped(s.jobs) && Inverse(s.jobs, s.taskToJob) && n in s.jobs
    requires Wired(s.me, s.jobs, s.taskToJob, s.streams)
    ensures var jobs := s.jobs[n := s.jobs[n].(status := status)];
            AllShaped(jobs) && Inverse(jobs, s.taskToJob) && Wired(s.me, jobs, s.taskToJob, s.streams)
  {
  }

  lemma StatusQueues(jobs: map<int, Job>, nextQueue: nat, n: int, status: Status)
    requires QueuesApart(jobs, nextQueue) && n in jobs
    ensures QueuesApart(jobs[n := jobs[n].(status := status)], nextQueue)
  {
    var jobs' := jobs[n := jobs[n].(status := status)];
    forall m | m in jobs' ensures QueueSet(jobs'[m]) == QueueSet(jobs[m]) { }
  }

  lemma OthersPreserves(s: Shell, streams: map<nat, Streams>)
    requires AllShaped(s.jobs) && Inverse(s.jobs, s.taskToJob) && Wired(s.me, s.jobs, s.taskToJob, s.streams)
    requires Legal(s, Others(streams))
    ensures Wired(s.me, s.jobs, s.taskToJob, streams)
  {
    forall id | id in s.taskToJob ensures id in streams && streams[id] == s.streams[id] {
      var n := s.taskToJob[id];
      var k := IndexOf(s.jobs[n].taskIds, id);
      assert s.jobs[n].taskIds[k] in s.streams;
    }
    forall n, k | n in s.jobs && 0 <= k < |s.jobs[n].taskIds| && s.jobs[n].taskIds[k] in streams
      ensures streams[s.jobs[n].taskIds[k]] == StreamsOf(s.me, s.jobs[n], k)
    {
      assert s.jobs[n].taskIds[k] in s.jobs[n].taskIds;
      assert s.jobs[n].taskIds[k] in s.streams;
    }
  }

  lemma SameQueues(j: Job, j': Job, eof: set<nat>, seen: set<nat>, closed: bool)
    requires EofExact(j, eof, seen, closed) && j' == j.(status := j'.status)
    ensures EofExact(j', eof, seen, closed)
  {
  }

  /** Every step keeps the invariant. */
  lemma StepPreserves(s: Shell, e: Event)
    requires Inv(s) && Legal(s, e)
    ensures Inv(Step(s, e))
  {
    match e
    case Launch(ids, num, background) => if s.fg.None? { BuildPreserves(s, ids, num); }
    case ResumeJob(n, foreground, unblocked) => ResumePreserves(s, n, foreground, unblocked);
    case EndOfInput => CtrlDPreserves(s);
    case Tasks(obs) => HandlerPreserves(s, obs);
    case Others(streams) => OthersPreserves(s, streams);
  }

  // ----- whole runs

  datatype Run = Start(me: nat, streams: map<nat, Streams>) | Then(prefix: Run, event: Event)

  ghost predicate ValidRun(r: Run)
    decreases r, 0
  {
    match r
    case Start(me, streams) => forall id :: id in streams ==> streams[id].owner != me
    case Then(prefix, e) => ValidRun(prefix) && Legal(Last(prefix), e)
  }

  /** The state a valid run ends in; the invariant holds in all of them. */
  ghost function Last(r: Run): (s: Shell)
    requires ValidRun(r)
    ensures Inv(s)
    decreases r, 1
  {
    match r
    case Start(me, streams) => Shell(me, map[], map[], None, streams, {}, 0, {}, {})
    case Then(prefix, e) => StepPreserves(Last(prefix), e); Step(Last(prefix), e)
  }

  // ----- what the invariant means

  /** A task maps to a job exactly when the job lists it. */
  lemma TablesAgree(jobs: map<int, Job>, taskToJob: map<nat, int>, id: nat, n: int)
    requires Inverse(jobs, taskToJob)
    ensures id in taskToJob && taskToJob[id] == n <==> n in jobs && id in jobs[n].taskIds
  {
  }

  /** This shell's keys in the stream map are exactly its jobs' tasks. */
  lemma StreamsAgree(me: nat, jobs: map<int, Job>, taskToJob: map<nat, int>, streams: map<nat, Streams>, id: nat)
    requires AllShaped(jobs) && Inverse(jobs, taskToJob) && Wired(me, jobs, taskToJob, streams)
    ensures id in streams && streams[id].owner == me <==> id in taskToJob
  {
    if id in taskToJob {
      var n := taskToJob[id];
      var k := IndexOf(jobs[n].taskIds, id);
      assert streams[jobs[n].taskIds[k]] == StreamsOf(me, jobs[n], k);
    }
  }

  /** Task `k` of job `n` is connected to the queues of its place in the chain. */
  lemma ChainAgrees(me: nat, jobs: map<int, Job>, taskToJob: map<nat, int>, streams: map<nat, Streams>, n: int, k: nat)
    requires AllShaped(jobs) && Inverse(jobs, taskToJob) && Wired(me, jobs, taskToJob, streams)
    requires n in jobs && k < |jobs[n].taskIds|
    ensures jobs[n].taskIds[k] in streams && streams[jobs[n].taskIds[k]] == StreamsOf(me, jobs[n], k)
  {
    assert jobs[n].taskIds[k] in jobs[n].taskIds;
  }

  /** In every reachable state of every run: a task maps to a job exactly when the job lists it, this
      shell's keys in the stream map are exactly its jobs' tasks, and the foreground job exists. */
  lemma RunAgrees(r: Run, id: nat, n: int)
    requires ValidRun(r)
    ensures var s := Last(r);
            && (id in s.taskToJob && s.taskToJob[id] == n <==> n in s.jobs && id in s.jobs[n].taskIds)
            && (id in s.streams && s.streams[id].owner == s.me <==> id in s.taskToJob)
            && (s.fg == Some(n) ==> n in s.jobs)
  {
    var s := Last(r);
    TablesAgree(s.jobs, s.taskToJob, id, n);
    StreamsAgree(s.me, s.jobs, s.taskToJob, s.streams, id);
  }

  /** In every reachable state of every run and for each job: N tasks have N+1 pipes and N stderr queues,
      each task is connected to its place in the chain, and a queue is at EOF exactly when a task at one
      of its ends was seen exited, or it is the job's input and the user closed it. */
  lemma RunQueuesAgree(r: Run, n: int, k: nat)
    requires ValidRun(r) && n in Last(r).jobs
    ensures var s := Last(r);
            var j := s.jobs[n];
            && |j.pipes| == |j.taskIds| + 1 && |j.stderrs| == |j.taskIds|
            && (k < |j.pipes| ==>
                  (j.pipes[k] in s.eof <==> || (k < |j.taskIds| && j.taskIds[k] in s.seen)
                                            || (k > 0 && j.taskIds[k - 1] in s.seen)
                                            || (k == 0 && n in s.closed)))
            && (k < |j.taskIds| ==>
                  && (j.stderrs[k] in s.eof <==> j.taskIds[k] in s.seen)
                  && j.taskIds[k] in s.streams
                  && s.streams[j.taskIds[k]] == Streams(s.me, j.pipes[k], j.pipes[k + 1], j.stderrs[k]))
  {
    var s := Last(r);
    assert Shaped(s.jobs[n]) && EofExact(s.jobs[n], s.eof, s.seen, n in s.closed);
    if k < |s.jobs[n].taskIds| { ChainAgrees(s.me, s.jobs, s.taskToJob, s.streams, n, k); }
  }

  // ----- what each step does

  /** The step has started exactly this job: its tasks in this order, running, the others as they were, and
      in the foreground exactly when it is not in the background. */
  ghost predicate Launched(s: Shell, t: Shell, ids: seq<nat>, num: int, background: bool) {
    && num !in s.jobs && num in t.jobs && t.jobs[num].taskIds == ids && t.jobs[num].status == Running
    && t.jobs.Keys == s.jobs.Keys + {num} && (forall n :: n in s.jobs ==> t.jobs[n] == s.jobs[n])
    && t.fg == (if background then None else Some(num)) && t.eof == s.eof
  }

  lemma LaunchStep(s: Shell, ids: seq<nat>, num: int, background: bool)
    requires AllShaped(s.jobs) && s.fg.None? && num !in s.jobs
    ensures Launched(s, Step(s, Launch(ids, num, background)), ids, num, background)
  {
  }

  /** In every run: Enter on a command at a prompt starts that job. While there is a foreground job, Enter
      changes nothing. */
  lemma LaunchExact(r: Run, ids: seq<nat>, num: int, background: bool)
    requires ValidRun(r) && Legal(Last(r), Launch(ids, num, background))
    ensures var s := Last(r);
            var t := Step(s, Launch(ids, num, background));
            if s.fg.Some? then t == s else Launched(s, t, ids, num, background)
  {
    if Last(r).fg.None? { LaunchStep(Last(r), ids, num, background); }
  }

  /** The step has resumed job `n`: its status says whether its last task could be unblocked, it is in the
      foreground exactly when `fg` was used, and nothing else changed. */
  ghost predicate Resumed(s: Shell, t: Shell, n: int, foreground: bool, unblocked: bool)
    requires n in s.jobs
  {
    && t.jobs == s.jobs[n := Job(s.jobs[n].taskIds, if unblocked then Running else Stopped,
                                 s.jobs[n].pipes, s.jobs[n].stderrs)]
    && t.fg == (if foreground then Some(n) else None)
    && t.taskToJob == s.taskToJob && t.streams == s.streams && t.eof == s.eof
  }

  /** In every run: `fg` on an existing job puts it in the foreground whether or not its tasks could be
      unblocked, and `bg` does not. On any other number, or with a foreground job, they change nothing. */
  lemma ResumeMoves(r: Run, n: int, foreground: bool, unblocked: bool)
    requires ValidRun(r)
    ensures var s := Last(r);
            var t := Step(s, ResumeJob(n, foreground, unblocked));
            if s.fg.Some? || n !in s.jobs then t == s else Resumed(s, t, n, foreground, unblocked)
  {
  }

  /** Ctrl+D sets EOF on the input of the foreground job and on no other queue, and changes no job. */
  lemma CtrlDCloses(s: Shell, n: int)
    requires Inv(s)
    ensures s.fg == Some(n) ==> CtrlD(s).eof == s.eof + {s.jobs[n].pipes[0]}
    ensures s.fg == None ==> CtrlD(s) == s
    ensures CtrlD(s).jobs == s.jobs && CtrlD(s).fg == s.fg && CtrlD(s).streams == s.streams
  {
  }

  /** Task `k` of the job has exited and `q` is the pipe before it, the pipe after it or its stderr queue. */
  predicate ClosedBy(j: Job, obs: Observation, k: int, q: nat)
    requires Shaped(j)
  {
    ExitedAt(j, obs, k) && (q == j.pipes[k] || q == j.pipes[k + 1] || q == j.stderrs[k])
  }

  lemma ClosingExact(j: Job, obs: Observation, q: nat)
    requires Shaped(j)
    ensures q in Closing(j, obs) <==> exists k :: ClosedBy(j, obs, k, q)
  {
    if q in Closing(j, obs) {
      var k :| 0 <= k < |j.taskIds| && obs(j.taskIds[k]) == Exited && q in QueuesAround(j, k);
      assert ClosedBy(j, obs, k, q);
    }
    if k :| ClosedBy(j, obs, k, q) {
      assert q in QueuesAround(j, k);
    }
  }

  /** `task_handler` sets EOF on exactly the pipes on both sides and the stderr queues of exited tasks. */
  lemma HandlerCloses(s: Shell, obs: Observation, q: nat)
    requires AllShaped(s.jobs)
    ensures q in TaskHandler(s, obs).eof <==> q in s.eof || exists n, k :: n in s.jobs && ClosedBy(s.jobs[n], obs, k, q)
  {
    forall n | n in s.jobs ensures q in Closing(s.jobs[n], obs) <==> exists k :: ClosedBy(s.jobs[n], obs, k, q) {
      ClosingExact(s.jobs[n], obs, q);
    }
  }

  /** After `task_handler` the foreground is empty if it was, or if all tasks of the foreground job have
      exited, or if the job was running and one of its tasks is blocked; otherwise it is as it was. */
  lemma HandlerForeground(s: Shell, obs: Observation, n: int)
    requires Inv(s)
    ensures s.fg == None ==> TaskHandler(s, obs).fg == None
    ensures s.fg == Some(n) ==>
              TaskHandler(s, obs).fg
              == if !Alive(s.jobs[n], obs) || (s.jobs[n].status == Running && Has(s.jobs[n], obs, Blocked)) then None else Some(n)
  {
  }

  /** After `task_handler`, the queues around every task it saw exited are at EOF. */
  lemma ExitedAreClosed(s: Shell, obs: Observation, n: int, k: nat)
    requires AllShaped(s.jobs) && n in s.jobs && ExitedAt(s.jobs[n], obs, k)
    ensures QueuesAround(s.jobs[n], k) <= TaskHandler(s, obs).eof
  {
    forall q | q in QueuesAround(s.jobs[n], k) ensures q in AllClosing(s.jobs, obs) {
      assert q in Closing(s.jobs[n], obs);
    }
  }

  lemma FinishedCloses(j: Job, obs: Observation, q: nat)
    requires Shaped(j) && !Alive(j, obs) && q in QueueSet(j)
    ensures q in Closing(j, obs)
  {
    if q in Elements(j.pipes) {
      var k :| 0 <= k < |j.pipes| && j.pipes[k] == q;
      var i := if k < |j.taskIds| then k else k - 1;
      assert ExitedAt(j, obs, i) && q in QueuesAround(j, i);
    } else {
      var k :| 0 <= k < |j.stderrs| && j.stderrs[k] == q;
      assert ExitedAt(j, obs, k) && q in QueuesAround(j, k);
    }
  }

  /** A job leaves the table exactly when all its tasks have exited, and then all its queues are at
      EOF and none of its tasks is left in `taskToJob` or the stream map. */
  lemma RemovedJobs(s: Shell, obs: Observation, n: int)
    requires AllShaped(s.jobs) && n in s.jobs
    ensures var t := TaskHandler(s, obs);
            && (n !in t.jobs <==> forall k :: 0 <= k < |s.jobs[n].taskIds| ==> obs(s.jobs[n].taskIds[k]) == Exited)
            && (n !in t.jobs ==>
                  && QueueSet(s.jobs[n]) <= t.eof
                  && forall id :: id in s.jobs[n].taskIds ==> id !in t.taskToJob && id !in t.streams)
  {
    if !Alive(s.jobs[n], obs) {
      forall q | q in QueueSet(s.jobs[n]) ensures q in AllClosing(s.jobs, obs) {
        FinishedCloses(s.jobs[n], obs, q);
      }
      forall id | id in s.jobs[n].taskIds ensures id in Gone(s.jobs, obs) {
        assert id in TaskSet(s.jobs[n]);
      }
    }
  }

  /** `task_handler` leaves other shells' entries in the stream map alone. */
  lemma OthersUntouched(s: Shell, obs: Observation, id: nat)
    requires Inv(s) && id in s.streams && s.streams[id].owner != s.me
    ensures id in TaskHandler(s, obs).streams && TaskHandler(s, obs).streams[id] == s.streams[id]
  {
  }

  /** A job left marked as running has no blocked task, as its documentation says; and a job is newly
      marked as stopped only when one of its tasks is blocked, which also takes it out of the foreground. */
  lemma StatusTrue(s: Shell, obs: Observation, n: int, k: nat)
    requires AllShaped(s.jobs) && n in s.jobs && n in TaskHandler(s, obs).jobs && k < |s.jobs[n].taskIds|
    ensures var t := TaskHandler(s, obs);
            && (t.jobs[n].status == Running ==> obs(s.jobs[n].taskIds[k]) != Blocked)
            && (s.jobs[n].status == Running && t.jobs[n].status == Stopped ==> JustStopped(s.jobs[n], obs) && t.fg != Some(n))
            && (t.fg == Some(n) ==> s.fg == Some(n) && Alive(s.jobs[n], obs))
  {
  }

  predicate Has(j: Job, obs: Observation, state: TaskState) {
    exists k :: 0 <= k < |j.taskIds| && obs(j.taskIds[k]) == state
  }

  /** The other half of the documentation, that all tasks of a job marked as stopped are blocked or
      exited, holds after `task_handler` exactly when no task is runnable, or the job was marked as
      running and no task is blocked. */
  lemma StoppedExact(s: Shell, obs: Observation, n: int)
    requires AllShaped(s.jobs) && n in s.jobs && n in TaskHandler(s, obs).jobs
    ensures var j := s.jobs[n];
            (TaskHandler(s, obs).jobs[n].status == Stopped ==> !Has(j, obs, Runnable))
            <==> !Has(j, obs, Runnable) || (j.status == Running && !Has(j, obs, Blocked))
  {
    assert JustStopped(s.jobs[n], obs) <==> s.jobs[n].status == Running && Has(s.jobs[n], obs, Blocked);
  }

  function LastTask(j: Job): nat
    requires |j.taskIds| >= 1
  {
    j.taskIds[|j.taskIds| - 1]
  }

  /** `unblock` succeeds on a task that has not exited and makes it runnable. */
  predicate Unblocks(obs: Observation, id: nat) {
    obs(id) != Exited
  }

  function Unblocked(j: Job, obs: Observation): Observation {
    (id: nat) => if id in j.taskIds && Unblocks(obs, id) then Runnable else obs(id)
  }

  /** After `fg` or `bg` the documentation of `Running` holds: no task is blocked. That of `Stopped` holds
      exactly when the last task has not exited, or all have. */
  lemma ResumeExact(s: Shell, obs: Observation, n: int, foreground: bool)
    requires AllShaped(s.jobs) && n in s.jobs
    ensures var j := s.jobs[n];
            var t := Resume(s, n, foreground, Unblocks(obs, LastTask(j)));
            var after := Unblocked(j, obs);
            && !Has(j, after, Blocked)
            && ((t.jobs[n].status == Stopped ==> !Has(j, after, Runnable))
                <==> Unblocks(obs, LastTask(j)) || !Alive(j, obs))
  {
    var j := s.jobs[n];
    assert Has(j, Unblocked(j, obs), Runnable) <==> Alive(j, obs);
  }

  /** Does the job in the foreground count as running? */
  predicate ForegroundRuns(s: Shell) {
    s.fg.Some? && s.fg.value in s.jobs ==> s.jobs[s.fg.value].status == Running
  }

  /** `fg` on a job whose last task has exited. */
  predicate FailedFg(s: Shell, e: Event) {
    e.ResumeJob? && s.fg.None? && e.n in s.jobs && e.foreground && !e.unblocked
  }

  /** Only that step brings a job to the foreground that counts as stopped. */
  lemma ForegroundStep(s: Shell, e: Event)
    requires Inv(s) && Legal(s, e) && ForegroundRuns(s)
    ensures ForegroundRuns(Step(s, e)) <==> !FailedFg(s, e)
  {
  }

  /** A foreground job with a blocked task, as after Ctrl+Z, gives the prompt back in the next run of
      `task_handler` exactly when it counts as running. */
  lemma StopReturnsPrompt(s: Shell, obs: Observation, n: int)
    requires AllShaped(s.jobs) && s.fg == Some(n) && n in s.jobs && Has(s.jobs[n], obs, Blocked)
    ensures TaskHandler(s, obs).fg == None <==> s.jobs[n].status == Running
  {
    assert JustStopped(s.jobs[n], obs) <==> s.jobs[n].status == Running;
    assert Alive(s.jobs[n], obs);
  }

  /** A foreground job that counts as stopped stays there, and goes on counting as stopped, until all its
      tasks have exited. */
  lemma StuckForeground(s: Shell, e: Event, n: int)
    requires Inv(s) && Legal(s, e) && s.fg == Some(n) && s.jobs[n].status == Stopped
    ensures var t := Step(s, e);
            t.fg == Some(n) && n in t.jobs && t.jobs[n].status == Stopped
            <==> !(e.Tasks? && !Alive(s.jobs[n], e.obs))
  {
  }

  /** `task_handler` finds all tasks of the foreground job exited. */
  predicate ForegroundEnds(s: Shell, e: Event) {
    e.Tasks? && s.fg.Some? && s.fg.value in s.jobs && !Alive(s.jobs[s.fg.value], e.obs)
  }

  /** The run has used `fg` on a job whose last task had exited, and not all tasks of the foreground job
      have exited since. */
  ghost predicate Stuck(r: Run)
    requires ValidRun(r)
  {
    match r
    case Start(_, _) => false
    case Then(prefix, e) => FailedFg(Last(prefix), e) || (Stuck(prefix) && !ForegroundEnds(Last(prefix), e))
  }

  lemma {:induction false} StuckExact(r: Run)
    requires ValidRun(r)
    ensures ForegroundRuns(Last(r)) <==> !Stuck(r)
  {
    match r
    case Start(_, _) =>
    case Then(prefix, e) =>
      StuckExact(prefix);
      var s := Last(prefix);
      if ForegroundRuns(s) { ForegroundStep(s, e); } else { StuckForeground(s, e, s.fg.value); }
  }

  /** In every run: a blocked task of the foreground job returns the prompt exactly when the run is not
      stuck. */
  lemma RunReturns(r: Run, obs: Observation, n: int)
    requires ValidRun(r) && Last(r).fg == Some(n) && Has(Last(r).jobs[n], obs, Blocked)
    ensures TaskHandler(Last(r), obs).fg == None <==> !Stuck(r)
  {
    StuckExact(r);
    StopReturnsPrompt(Last(r), obs, n);
  }

  /** The run never uses `fg` on a job whose last task has exited. */
  ghost predicate CleanRun(r: Run)
    requires ValidRun(r)
  {
    match r
    case Start(_, _) => true
    case Then(prefix, e) => CleanRun(prefix) && !FailedFg(Last(prefix), e)
  }

  lemma {:induction false} CleanNotStuck(r: Run)
    requires ValidRun(r) && CleanRun(r)
    ensures !Stuck(r)
  {
    match r
    case Start(_, _) =>
    case Then(prefix, e) => CleanNotStuck(prefix);
  }

  /** In every such run a blocked task returns the prompt. */
  lemma CleanRunReturns(r: Run, obs: Observation, n: int)
    requires ValidRun(r) && CleanRun(r) && Last(r).fg == Some(n) && Has(Last(r).jobs[n], obs, Blocked)
    ensures TaskHandler(Last(r), obs).fg == None
  {
    CleanNotStuck(r);
    RunReturns(r, obs, n);
  }

  // ----- runs that reach these states

  /** A shell that has started tasks 1 and 2 as a pipeline in the background. */
  function Pipeline(): Run {
    Then(Start(0, map[]), Launch([1, 2], 1, true))
  }

  lemma PipelineState()
    ensures ValidRun(Pipeline())
    ensures var s := Last(Pipeline());
            && s.fg == None && 1 in s.jobs && s.jobs[1].taskIds == [1, 2] && s.jobs[1].status == Running
  {
    assert ValidRun(Start(0, map[]));
    assert Legal(Last(Start(0, map[])), Launch([1, 2], 1, true));
  }

  lemma PairHas(j: Job, obs: Observation)
    requires j.taskIds == [1, 2]
    ensures obs(1) == Blocked ==> Has(j, obs, Blocked) && Alive(j, obs)
    ensures obs(2) == Runnable ==> Has(j, obs, Runnable) && Alive(j, obs)
  {
    assert j.taskIds[0] == 1 && j.taskIds[1] == 2;
  }

  /** One task of a pipeline blocks: the job counts as stopped while the other task runs. */
  lemma StoppedMayRun(obs: Observation)
    requires obs(1) == Blocked && obs(2) == Runnable
    ensures var r := Then(Pipeline(), Tasks(obs));
            && ValidRun(r) && 1 in Last(r).jobs && Last(r).jobs[1].status == Stopped
            && Has(Last(r).jobs[1], obs, Runnable)
  {
    PipelineState();
    var s, r := Last(Pipeline()), Then(Pipeline(), Tasks(obs));
    PairHas(s.jobs[1], obs);
    assert JustStopped(s.jobs[1], obs);
    assert Last(r) == TaskHandler(s, obs);
    PairHas(Last(r).jobs[1], obs);
  }

  /** `fg` on that pipeline after its last task has exited. */
  function ResumedPipeline(): Run {
    Then(Pipeline(), ResumeJob(1, true, false))
  }

  lemma ResumedState()
    ensures ValidRun(ResumedPipeline())
    ensures var s := Last(ResumedPipeline());
            && s.fg == Some(1) && 1 in s.jobs && s.jobs[1].taskIds == [1, 2] && s.jobs[1].status == Stopped
  {
    PipelineState();
    assert Last(ResumedPipeline()) == Resume(Last(Pipeline()), 1, true, false);
  }

  lemma PairStays(s: Shell, obs: Observation)
    requires AllShaped(s.jobs) && s.fg == Some(1) && 1 in s.jobs
    requires s.jobs[1].taskIds == [1, 2] && s.jobs[1].status == Stopped && obs(1) == Blocked
    ensures TaskHandler(s, obs).fg == Some(1) && Has(s.jobs[1], Unblocked(s.jobs[1], obs), Runnable)
  {
    var j := s.jobs[1];
    PairHas(j, obs);
    assert j.taskIds[0] == 1 && Unblocked(j, obs)(1) == Runnable;
  }

  /** The job then counts as stopped while its other task runs, and if that task blocks the prompt does
      not come back. */
  lemma PromptLost(obs: Observation)
    requires obs(1) == Blocked && obs(2) == Exited
    ensures var r := ResumedPipeline();
            && ValidRun(r) && 1 in Last(r).jobs && LastTask(Last(r).jobs[1]) == 2 && !Unblocks(obs, 2)
            && Last(r).jobs[1].status == Stopped && Has(Last(r).jobs[1], Unblocked(Last(r).jobs[1], obs), Runnable)
            && ValidRun(Then(r, Tasks(obs))) && Last(Then(r, Tasks(obs))).fg == Some(1)
  {
    ResumedState();
    PairStays(Last(ResumedPipeline()), obs);
  }
}
