/**
 * The log accounting of the performance tool (`processTasks`). Jobs, threads and tasks
 * are the dictionaries `loadFiles` builds from the logs; times are integers (a
 * `datetime` as a count of its smallest unit) and a duration is a difference of two.
 * `datetime.now()` is the parameter `now`.
 *
 * A first pass times every task and, over all jobs, keeps for each task id the earliest
 * end time; a second pass classifies each finished task as successful (it ended at that
 * earliest time) or repeated, and sums durations per thread and per job.
 */
module PerfPits {
  import opened Wrappers

  datatype Status = Undefined | Unfinished | Success | Repeated

  /** A task: its number, "Start Time", optional "End Time", "Status" and "Duration". */
  datatype Task = Task(id: int, start: int, end: Option<int>, status: Status, duration: int)

  /** A thread's "Stats"/"Time" entry. */
  datatype Times = Times(successful: int, repeated: int, unfinished: int, total: int)

  /** A thread: its name, "Start Time", "Tasks" in dictionary order, and "Stats". */
  datatype Thread = Thread(name: string, start: int, tasks: seq<Task>, stats: Times)

  /** A job's "Stats"/"Time" entry. */
  datatype JobTimes = JobTimes(successful: int, repeated: int, unfinished: int, initOverhead: int, total: int)

  /** A job: its log file name, "Start Time", "End Init. Time", "Kill Time", "Threads" and "Stats". */
  datatype Job = Job(name: string, start: int, endInit: int, kill: int, threads: seq<Thread>, stats: JobTimes)

  function Min(a: int, b: int): int
  {
    if a <= b then a else b
  }

  // ---------------------------------------------------------------------------
  // First pass
  // ---------------------------------------------------------------------------

  /**
   * One task after the first pass: without an end it is unfinished and ran until the
   * job was killed; with one it is still undefined and ran until its end.
   */
  function Timed(t: Task, kill: int): Task
  {
    match t.end
    case None => t.(status := Unfinished, duration := kill - t.start)
    case Some(e) => t.(status := Undefined, duration := e - t.start)
  }

  function TimedTasks(ts: seq<Task>, kill: int): seq<Task>
  {
    seq(|ts|, i requires 0 <= i < |ts| => Timed(ts[i], kill))
  }

  function TimedThreads(ths: seq<Thread>, kill: int): seq<Thread>
  {
    seq(|ths|, h requires 0 <= h < |ths| => ths[h].(tasks := TimedTasks(ths[h].tasks, kill)))
  }

  /** `firstTaskTime` after the tasks ts, starting from acc. */
  function FirstStart(ts: seq<Task>, acc: int): int
  {
    if ts == [] then acc else Min(FirstStart(ts[..|ts| - 1], acc), ts[|ts| - 1].start)
  }

  /** `tasksGlobalendTime` after the tasks ts, starting from m: the earliest end per id. */
  function EndsAfter(ts: seq<Task>, m: map<int, int>, now: int): map<int, int>
  {
    if ts == [] then m
    else
      var before := EndsAfter(ts[..|ts| - 1], m, now);
      var t := ts[|ts| - 1];
      match t.end
      case None => before
      case Some(e) => before[t.id := Min(e, if t.id in before then before[t.id] else now)]
  }

  /** The tasks of the threads, thread after thread. */
  function TasksOf(ths: seq<Thread>): seq<Task>
  {
    if ths == [] then [] else TasksOf(ths[..|ths| - 1]) + ths[|ths| - 1].tasks
  }

  /** The tasks of the jobs, job after job. */
  function JobsTasks(jobs: seq<Job>): seq<Task>
  {
    if jobs == [] then [] else JobsTasks(jobs[..|jobs| - 1]) + TasksOf(jobs[|jobs| - 1].threads)
  }

  /** A job after the first pass: its tasks timed and "End Init. Time" set. */
  function FirstPassJob(job: Job, now: int): Job
  {
    job.(threads := TimedThreads(job.threads, job.kill), endInit := FirstStart(TasksOf(job.threads), now))
  }

  /** `tasksGlobalendTime` after the first pass. */
  function GlobalEnds(jobs: seq<Job>, now: int): map<int, int>
  {
    EndsAfter(JobsTasks(jobs), map[], now)
  }

  // ---------------------------------------------------------------------------
  // Second pass
  // ---------------------------------------------------------------------------

  /** A task the second pass can classify: timed, and with its id known when it finished. */
  predicate TaskReady(t: Task, ends: map<int, int>)
  {
    (t.status == Undefined || t.status == Unfinished) &&
    (t.status == Undefined ==> t.end.Some? && t.id in ends)
  }

  predicate ThreadReady(th: Thread, ends: map<int, int>)
  {
    forall i :: 0 <= i < |th.tasks| ==> TaskReady(th.tasks[i], ends)
  }

  predicate JobReady(job: Job, ends: map<int, int>)
  {
    forall h :: 0 <= h < |job.threads| ==> ThreadReady(job.threads[h], ends)
  }

  /** A finished task is a success when it ended at the earliest end of its id, else a repeat. */
  function Classified(t: Task, ends: map<int, int>): Task
    requires TaskReady(t, ends)
  {
    if t.status != Undefined then t
    else if t.end.value == ends[t.id] then t.(status := Success)
    else t.(status := Repeated)
  }

  function ClassifiedTasks(ts: seq<Task>, ends: map<int, int>): seq<Task>
    requires forall i :: 0 <= i < |ts| ==> TaskReady(ts[i], ends)
  {
    seq(|ts|, i requires 0 <= i < |ts| => Classified(ts[i], ends))
  }

  /** The durations of the tasks with status s, added up. */
  function Sum(ts: seq<Task>, s: Status): int
  {
    if ts == [] then 0
    else Sum(ts[..|ts| - 1], s) + (if ts[|ts| - 1].status == s then ts[|ts| - 1].duration else 0)
  }

  /** A thread after the second pass: its tasks classified and its times summed. */
  function TalliedThread(th: Thread, kill: int, ends: map<int, int>): Thread
    requires ThreadReady(th, ends)
  {
    var ts := ClassifiedTasks(th.tasks, ends);
    th.(tasks := ts, stats := Times(Sum(ts, Success), Sum(ts, Repeated), Sum(ts, Unfinished), kill - th.start))
  }

  function TalliedThreads(ths: seq<Thread>, kill: int, ends: map<int, int>): seq<Thread>
    requires forall h :: 0 <= h < |ths| ==> ThreadReady(ths[h], ends)
  {
    seq(|ths|, h requires 0 <= h < |ths| => TalliedThread(ths[h], kill, ends))
  }

  /** The threads' times added up field by field; the overhead is left at zero. */
  function ThreadsSum(ths: seq<Thread>): JobTimes
  {
    if ths == [] then JobTimes(0, 0, 0, 0, 0)
    else
      var s := ThreadsSum(ths[..|ths| - 1]);
      var t := ths[|ths| - 1].stats;
      JobTimes(s.successful + t.successful, s.repeated + t.repeated, s.unfinished + t.unfinished,
               0, s.total + t.total)
  }

  /** A job after the second pass: the overhead is set only when the job has threads. */
  function TalliedJob(job: Job, ends: map<int, int>): Job
    requires JobReady(job, ends)
  {
    var ths := TalliedThreads(job.threads, job.kill, ends);
    var sums := ThreadsSum(ths);
    job.(threads := ths,
         stats := sums.(initOverhead := if |job.threads| > 0 then job.endInit - job.start else 0))
  }

  // ---------------------------------------------------------------------------
  // Facts the passes rely on
  // ---------------------------------------------------------------------------

  lemma {:induction false} FirstStartAppend(a: seq<Task>, b: seq<Task>, acc: int)
    ensures FirstStart(a + b, acc) == FirstStart(b, FirstStart(a, acc))
    decreases |b|
  {
    if b != [] {
      assert (a + b)[..|a + b| - 1] == a + b[..|b| - 1];
      FirstStartAppend(a, b[..|b| - 1], acc);
    } else {
      assert a + b == a;
    }
  }

  lemma {:induction false} EndsAfterAppend(a: seq<Task>, b: seq<Task>, m: map<int, int>, now: int)
    ensures EndsAfter(a + b, m, now) == EndsAfter(b, EndsAfter(a, m, now), now)
    decreases |b|
  {
    if b != [] {
      assert (a + b)[..|a + b| - 1] == a + b[..|b| - 1];
      EndsAfterAppend(a, b[..|b| - 1], m, now);
    } else {
      assert a + b == a;
    }
  }

  lemma TasksOfStep(ths: seq<Thread>, h: nat)
    requires h < |ths|
    ensures TasksOf(ths[..h + 1]) == TasksOf(ths[..h]) + ths[h].tasks
  {
    assert ths[..h + 1][..h] == ths[..h];
  }

  lemma JobsTasksStep(jobs: seq<Job>, k: nat)
    requires k < |jobs|
    ensures JobsTasks(jobs[..k + 1]) == JobsTasks(jobs[..k]) + TasksOf(jobs[k].threads)
  {
    assert jobs[..k + 1][..k] == jobs[..k];
  }

  lemma {:induction false} SumSnoc(ts: seq<Task>, t: Task, s: Status)
    ensures Sum(ts + [t], s) == Sum(ts, s) + (if t.status == s then t.duration else 0)
  {
    assert (ts + [t])[..|ts|] == ts;
  }

  lemma ThreadsSumSnoc(ths: seq<Thread>, th: Thread)
    ensures var s := ThreadsSum(ths);
      ThreadsSum(ths + [th]) ==
        JobTimes(s.successful + th.stats.successful, s.repeated + th.stats.repeated,
                 s.unfinished + th.stats.unfinished, 0, s.total + th.stats.total)
  {
    assert (ths + [th])[..|ths|] == ths;
  }

  // ---------------------------------------------------------------------------
  // The passes
  // ---------------------------------------------------------------------------

  /** The innermost loop of the first pass, over one thread's tasks. */
  method TimeTasks(ts: seq<Task>, kill: int, now: int, first0: int, ends0: map<int, int>)
    returns (out: seq<Task>, first: int, ends: map<int, int>)
    ensures out == TimedTasks(ts, kill)
    ensures first == FirstStart(ts, first0)
    ensures ends == EndsAfter(ts, ends0, now)
  {
    out, first, ends := ts, first0, ends0;
    var i := 0;
    while i < |ts|
      invariant 0 <= i <= |ts| && |out| == |ts|
      invariant forall k :: 0 <= k < i ==> out[k] == Timed(ts[k], kill)
      invariant forall k :: i <= k < |ts| ==> out[k] == ts[k]
      invariant first == FirstStart(ts[..i], first0)
      invariant ends == EndsAfter(ts[..i], ends0, now)
    {
      var t := ts[i];
      first := Min(first, t.start);
      if t.end.None? {
        out := out[i := t.(status := Unfinished, duration := kill - t.start)];
      } else {
        var e := t.end.value;
        ends := ends[t.id := Min(e, if t.id in ends then ends[t.id] else now)];
        out := out[i := t.(status := Undefined, duration := e - t.start)];
      }
      assert ts[..i + 1][..i] == ts[..i];
      i := i + 1;
    }
    assert ts[..i] == ts;
  }

  /** The middle loop of the first pass, over one job's threads. */
  method TimeThreads(ths: seq<Thread>, kill: int, now: int, first0: int, ends0: map<int, int>)
    returns (out: seq<Thread>, first: int, ends: map<int, int>)
    ensures out == TimedThreads(ths, kill)
    ensures first == FirstStart(TasksOf(ths), first0)
    ensures ends == EndsAfter(TasksOf(ths), ends0, now)
  {
    out, first, ends := ths, first0, ends0;
    var h := 0;
    while h < |ths|
      invariant 0 <= h <= |ths| && |out| == |ths|
      invariant forall k :: 0 <= k < h ==> out[k] == ths[k].(tasks := TimedTasks(ths[k].tasks, kill))
      invariant forall k :: h <= k < |ths| ==> out[k] == ths[k]
      invariant first == FirstStart(TasksOf(ths[..h]), first0)
      invariant ends == EndsAfter(TasksOf(ths[..h]), ends0, now)
    {
      var timed;
      TasksOfStep(ths, h);
      FirstStartAppend(TasksOf(ths[..h]), ths[h].tasks, first0);
      EndsAfterAppend(TasksOf(ths[..h]), ths[h].tasks, ends0, now);
      timed, first, ends := TimeTasks(ths[h].tasks, kill, now, first, ends);
      out := out[h := ths[h].(tasks := timed)];
      h := h + 1;
    }
    assert ths[..h] == ths;
  }

  /** The first pass over one job. */
  method TimeJob(job: Job, now: int, ends0: map<int, int>) returns (out: Job, ends: map<int, int>)
    ensures out == FirstPassJob(job, now)
    ensures ends == EndsAfter(TasksOf(job.threads), ends0, now)
  {
    var ths, first;
    ths, first, ends := TimeThreads(job.threads, job.kill, now, now, ends0);
    out := job.(threads := ths, endInit := first);
  }

  /** The first pass over all jobs, in place; it returns `tasksGlobalendTime`. */
  method FirstPass(jobs: array<Job>, now: int) returns (ends: map<int, int>)
    modifies jobs
    ensures forall k :: 0 <= k < jobs.Length ==> jobs[k] == FirstPassJob(old(jobs[k]), now)
    ensures ends == GlobalEnds(old(jobs[..]), now)
  {
    ghost var js := jobs[..];
    ends := map[];
    var k := 0;
    while k < jobs.Length
      invariant 0 <= k <= jobs.Length
      invariant forall q :: 0 <= q < k ==> jobs[q] == FirstPassJob(js[q], now)
      invariant forall q :: k <= q < jobs.Length ==> jobs[q] == js[q]
      invariant ends == EndsAfter(JobsTasks(js[..k]), map[], now)
    {
      var job, ends' := TimeJob(jobs[k], now, ends);
      GlobalEndsStep(js, k, ends, ends', now);
      assert job == FirstPassJob(js[k], now);
      jobs[k] := job;
      ends := ends';
      k := k + 1;
    }
    assert js[..k] == js;
  }

  /** The end times after one more job of the first pass. */
  lemma GlobalEndsStep(js: seq<Job>, k: nat, ends: map<int, int>, ends': map<int, int>, now: int)
    requires k < |js| && ends == EndsAfter(JobsTasks(js[..k]), map[], now)
    requires ends' == EndsAfter(TasksOf(js[k].threads), ends, now)
    ensures ends' == EndsAfter(JobsTasks(js[..k + 1]), map[], now)
  {
    JobsTasksStep(js, k);
    EndsAfterAppend(JobsTasks(js[..k]), TasksOf(js[k].threads), map[], now);
  }

  /** The innermost loop of the second pass: classify one thread's tasks and add up durations. */
  method TallyTasks(ts: seq<Task>, ends: map<int, int>)
    returns (out: seq<Task>, successful: int, repeated: int, unfinished: int)
    requires forall i :: 0 <= i < |ts| ==> TaskReady(ts[i], ends)
    ensures out == ClassifiedTasks(ts, ends)
    ensures successful == Sum(out, Success) && repeated == Sum(out, Repeated)
    ensures unfinished == Sum(out, Unfinished)
  {
    out := [];
    successful, repeated, unfinished := 0, 0, 0;
    var i := 0;
    while i < |ts|
      invariant 0 <= i <= |ts| && |out| == i
      invariant forall k :: 0 <= k < i ==> out[k] == Classified(ts[k], ends)
      invariant successful == Sum(out, Success) && repeated == Sum(out, Repeated)
      invariant unfinished == Sum(out, Unfinished)
    {
      var t := ts[i];
      var c;
      if t.status != Undefined {
        unfinished := unfinished + t.duration;
        c := t;
      } else if t.end.value == ends[t.id] {
        c := t.(status := Success);
        successful := successful + t.duration;
      } else {
        c := t.(status := Repeated);
        repeated := repeated + t.duration;
      }
      SumSnoc(out, c, Success);
      SumSnoc(out, c, Repeated);
      SumSnoc(out, c, Unfinished);
      out := out + [c];
      i := i + 1;
    }
  }

  /** The second pass over one thread. */
  method TallyThread(th: Thread, kill: int, ends: map<int, int>) returns (out: Thread)
    requires ThreadReady(th, ends)
    ensures out == TalliedThread(th, kill, ends)
  {
    var ts, s, r, u := TallyTasks(th.tasks, ends);
    out := th.(tasks := ts, stats := Times(s, r, u, kill - th.start));
  }

  /** The middle loop of the second pass, over one job's threads. */
  method TallyThreads(ths: seq<Thread>, kill: int, ends: map<int, int>) returns (out: seq<Thread>, sums: JobTimes)
    requires forall h :: 0 <= h < |ths| ==> ThreadReady(ths[h], ends)
    ensures out == TalliedThreads(ths, kill, ends)
    ensures sums == ThreadsSum(out)
  {
    out := [];
    sums := JobTimes(0, 0, 0, 0, 0);
    var h := 0;
    while h < |ths|
      invariant 0 <= h <= |ths| && |out| == h
      invariant forall k :: 0 <= k < h ==> out[k] == TalliedThread(ths[k], kill, ends)
      invariant sums == ThreadsSum(out)
    {
      var out', sums' := TallyNext(out, sums, ths[h], kill, ends);
      TalliedPrefixSnoc(ths, kill, ends, out, h, out'[h]);
      out, sums := out', sums';
      h := h + 1;
    }
  }

  /** One iteration of the middle loop: the thread is tallied and its times added to the job's. */
  method TallyNext(out: seq<Thread>, sums: JobTimes, th: Thread, kill: int, ends: map<int, int>)
    returns (out': seq<Thread>, sums': JobTimes)
    requires ThreadReady(th, ends) && sums == ThreadsSum(out)
    ensures out' == out + [TalliedThread(th, kill, ends)] && sums' == ThreadsSum(out')
  {
    var done := TallyThread(th, kill, ends);
    ThreadsSumSnoc(out, done);
    sums' := JobTimes(sums.successful + done.stats.successful, sums.repeated + done.stats.repeated,
                      sums.unfinished + done.stats.unfinished, 0, sums.total + done.stats.total);
    out' := out + [done];
  }

  /** One more tallied thread extends the tallied prefix. */
  lemma TalliedPrefixSnoc(ths: seq<Thread>, kill: int, ends: map<int, int>, out: seq<Thread>, h: nat, done: Thread)
    requires h < |ths| && |out| == h
    requires forall k :: 0 <= k < |ths| ==> ThreadReady(ths[k], ends)
    requires forall k :: 0 <= k < h ==> out[k] == TalliedThread(ths[k], kill, ends)
    requires done == TalliedThread(ths[h], kill, ends)
    ensures forall k :: 0 <= k < h + 1 ==> (out + [done])[k] == TalliedThread(ths[k], kill, ends)
  {
  }

  /** The second pass over one job. */
  method TallyJob(job: Job, ends: map<int, int>) returns (out: Job)
    requires JobReady(job, ends)
    ensures out == TalliedJob(job, ends)
  {
    var ths, sums := TallyThreads(job.threads, job.kill, ends);
    var overhead := 0;
    if |job.threads| > 0 {
      overhead := job.endInit - job.start;
    }
    out := job.(threads := ths, stats := sums.(initOverhead := overhead));
  }

  /** The second pass over all jobs, in place. */
  method SecondPass(jobs: array<Job>, ends: map<int, int>)
    requires forall k :: 0 <= k < jobs.Length ==> JobReady(jobs[k], ends)
    modifies jobs
    ensures forall k :: 0 <= k < jobs.Length ==> jobs[k] == TalliedJob(old(jobs[k]), ends)
  {
    ghost var js := jobs[..];
    var k := 0;
    while k < jobs.Length
      invariant 0 <= k <= jobs.Length
      invariant forall q :: 0 <= q < k ==> jobs[q] == TalliedJob(js[q], ends)
      invariant forall q :: k <= q < jobs.Length ==> jobs[q] == js[q]
    {
      var job := TallyJob(jobs[k], ends);
      jobs[k] := job;
      k := k + 1;
    }
  }

  /** `processTasks`: both passes over the jobs, in place. */
  method ProcessTasks(jobs: array<Job>, now: int)
    modifies jobs
    ensures jobs[..] == Processed(old(jobs[..]), now)
  {
    ghost var js := jobs[..];
    var ends := FirstPass(jobs, now);
    FirstPassReady(js, now);
    SecondPass(jobs, ends);
    assert forall k :: 0 <= k < jobs.Length ==> jobs[k] == Processed(js, now)[k];
  }

  // ---------------------------------------------------------------------------
  // The jobs after both passes
  // ---------------------------------------------------------------------------

  /** The jobs after `processTasks`. */
  function Processed(js: seq<Job>, now: int): seq<Job>
  {
    FirstPassReady(js, now);
    var ends := GlobalEnds(js, now);
    seq(|js|, k requires 0 <= k < |js| => TalliedJob(FirstPassJob(js[k], now), ends))
  }

  lemma {:induction false} TaskInTasksOf(ths: seq<Thread>, h: nat, i: nat)
    requires h < |ths| && i < |ths[h].tasks|
    ensures ths[h].tasks[i] in TasksOf(ths)
  {
    var n := |ths| - 1;
    if h < n {
      assert ths[..n][h] == ths[h];
      TaskInTasksOf(ths[..n], h, i);
    } else {
      assert TasksOf(ths) == TasksOf(ths[..n]) + ths[n].tasks;
    }
  }

  lemma {:induction false} TaskInJobsTasks(js: seq<Job>, k: nat, h: nat, i: nat)
    requires k < |js| && h < |js[k].threads| && i < |js[k].threads[h].tasks|
    ensures js[k].threads[h].tasks[i] in JobsTasks(js)
  {
    var n := |js| - 1;
    if k < n {
      assert js[..n][k] == js[k];
      TaskInJobsTasks(js[..n], k, h, i);
    } else {
      TaskInTasksOf(js[k].threads, h, i);
    }
  }

  /** What `tasksGlobalendTime.get(id, now)` would give. */
  function EndOr(m: map<int, int>, id: int, now: int): int
  {
    if id in m then m[id] else now
  }

  /** Whether one of ts finished with this id. */
  predicate FinishedWith(ts: seq<Task>, id: int)
  {
    exists i :: 0 <= i < |ts| && ts[i].end.Some? && ts[i].id == id
  }

  /** An id has an earliest end exactly when it had one before or some task with it finished. */
  lemma {:induction false} EndsKeys(ts: seq<Task>, m: map<int, int>, now: int, id: int)
    ensures id in EndsAfter(ts, m, now) <==> id in m || FinishedWith(ts, id)
  {
    if ts != [] {
      var init := ts[..|ts| - 1];
      EndsKeys(init, m, now, id);
      if FinishedWith(init, id) {
        var i :| 0 <= i < |init| && init[i].end.Some? && init[i].id == id;
        assert ts[i] == init[i];
      }
      if FinishedWith(ts, id) && !(ts[|ts| - 1].end.Some? && ts[|ts| - 1].id == id) {
        var i :| 0 <= i < |ts| && ts[i].end.Some? && ts[i].id == id;
        assert init[i] == ts[i];
      }
    }
  }

  /** The earliest end of an id is no later than `get(id, now)` before, nor any end with that id. */
  lemma {:induction false} EndsBelow(ts: seq<Task>, m: map<int, int>, now: int, id: int)
    requires id in EndsAfter(ts, m, now)
    ensures EndsAfter(ts, m, now)[id] <= EndOr(m, id, now)
    ensures forall i :: 0 <= i < |ts| && ts[i].end.Some? && ts[i].id == id ==>
      EndsAfter(ts, m, now)[id] <= ts[i].end.value
  {
    if ts != [] {
      var init := ts[..|ts| - 1];
      var before := EndsAfter(init, m, now);
      var t := ts[|ts| - 1];
      if id in before {
        EndsBelow(init, m, now, id);
      } else {
        EndsKeys(init, m, now, id);
        assert forall i :: 0 <= i < |init| ==> !(init[i].end.Some? && init[i].id == id);
      }
      forall i | 0 <= i < |ts| - 1 && ts[i].end.Some? && ts[i].id == id
        ensures EndsAfter(ts, m, now)[id] <= ts[i].end.value
      {
        assert init[i] == ts[i];
      }
    }
  }

  /** The earliest end of an id is `get(id, now)` from before, or the end of a task with that id. */
  lemma {:induction false} EndsAttained(ts: seq<Task>, m: map<int, int>, now: int, id: int)
    requires id in EndsAfter(ts, m, now)
    ensures var r := EndsAfter(ts, m, now)[id];
      r == EndOr(m, id, now) || exists i :: 0 <= i < |ts| && ts[i].end == Some(r) && ts[i].id == id
  {
    if ts != [] {
      var init := ts[..|ts| - 1];
      var before := EndsAfter(init, m, now);
      var t := ts[|ts| - 1];
      var r := EndsAfter(ts, m, now)[id];
      if t.end.Some? && t.id == id && r == t.end.value {
        assert ts[|ts| - 1].end == Some(r);
      } else if id in before {
        EndsAttained(init, m, now, id);
        assert r == before[id];
        if r != EndOr(m, id, now) {
          var i :| 0 <= i < |init| && init[i].end == Some(r) && init[i].id == id;
          assert ts[i] == init[i];
        }
      } else {
        EndsKeys(init, m, now, id);
      }
    }
  }

  /** A finished task's id has an earliest end. */
  lemma FinishedInEnds(ts: seq<Task>, m: map<int, int>, now: int, t: Task)
    requires t in ts && t.end.Some?
    ensures t.id in EndsAfter(ts, m, now)
  {
    var i :| 0 <= i < |ts| && ts[i] == t;
    EndsKeys(ts, m, now, t.id);
  }

  /** After the first pass every task can be classified. */
  lemma FirstPassReady(js: seq<Job>, now: int)
    ensures forall k :: 0 <= k < |js| ==> JobReady(FirstPassJob(js[k], now), GlobalEnds(js, now))
  {
    forall k, h, i | 0 <= k < |js| && 0 <= h < |js[k].threads| && 0 <= i < |js[k].threads[h].tasks|
      ensures TaskReady(FirstPassJob(js[k], now).threads[h].tasks[i], GlobalEnds(js, now))
    {
      var t := js[k].threads[h].tasks[i];
      TaskInJobsTasks(js, k, h, i);
      if t.end.Some? {
        FinishedInEnds(JobsTasks(js), map[], now, t);
      }
    }
  }

  /** The time a task took: until its end, or until the kill when it never ended. */
  function Spent(t: Task, kill: int): int
  {
    (if t.end.Some? then t.end.value else kill) - t.start
  }

  function SpentAll(ts: seq<Task>, kill: int): int
  {
    if ts == [] then 0 else SpentAll(ts[..|ts| - 1], kill) + Spent(ts[|ts| - 1], kill)
  }

  /** The durations of all the tasks, added up. */
  function Durations(ts: seq<Task>): int
  {
    if ts == [] then 0 else Durations(ts[..|ts| - 1]) + ts[|ts| - 1].duration
  }

  /** The time from each thread's start to the kill, added up. */
  function ThreadsTotal(ths: seq<Thread>, kill: int): int
  {
    if ths == [] then 0 else ThreadsTotal(ths[..|ths| - 1], kill) + (kill - ths[|ths| - 1].start)
  }

  lemma {:induction false} SpentAllAppend(a: seq<Task>, b: seq<Task>, kill: int)
    ensures SpentAll(a + b, kill) == SpentAll(a, kill) + SpentAll(b, kill)
    decreases |b|
  {
    if b != [] {
      assert (a + b)[..|a + b| - 1] == a + b[..|b| - 1];
      SpentAllAppend(a, b[..|b| - 1], kill);
    } else {
      assert a + b == a;
    }
  }

  /** Every classified task is counted once: as a success, a repeat or unfinished. */
  lemma {:induction false} SumPartition(ts: seq<Task>)
    requires forall i :: 0 <= i < |ts| ==> ts[i].status != Undefined
    ensures Sum(ts, Success) + Sum(ts, Repeated) + Sum(ts, Unfinished) == Durations(ts)
  {
    if ts != [] {
      SumPartition(ts[..|ts| - 1]);
    }
  }

  lemma {:induction false} DurationsSpent(ts: seq<Task>, done: seq<Task>, kill: int)
    requires |done| == |ts| && forall i :: 0 <= i < |ts| ==> done[i].duration == Spent(ts[i], kill)
    ensures Durations(done) == SpentAll(ts, kill)
  {
    if ts != [] {
      DurationsSpent(ts[..|ts| - 1], done[..|done| - 1], kill);
    }
  }

  /**
   * "End Init. Time" is the earliest start among the tasks, or acc (`now`) when that is
   * earlier or there are none.
   */
  lemma {:induction false} FirstStartBounds(ts: seq<Task>, acc: int)
    ensures FirstStart(ts, acc) <= acc
    ensures forall i :: 0 <= i < |ts| ==> FirstStart(ts, acc) <= ts[i].start
    ensures FirstStart(ts, acc) == acc || exists i :: 0 <= i < |ts| && ts[i].start == FirstStart(ts, acc)
  {
    if ts != [] {
      var init := ts[..|ts| - 1];
      FirstStartBounds(init, acc);
      assert forall i :: 0 <= i < |init| ==> init[i] == ts[i];
      if FirstStart(ts, acc) != acc && FirstStart(ts, acc) != ts[|ts| - 1].start {
        var i :| 0 <= i < |init| && init[i].start == FirstStart(init, acc);
        assert ts[i].start == FirstStart(ts, acc);
      }
    }
  }

  /**
   * `tasksGlobalendTime`: an id is present exactly when a task with it finished, in any
   * job; its time is no later than `now` nor than any end of a task with that id, and it is
   * `now` or one of those ends.
   */
  lemma GlobalEndIsEarliest(js: seq<Job>, now: int, id: int)
    ensures var ts := JobsTasks(js);
      id in GlobalEnds(js, now) <==> FinishedWith(ts, id)
    ensures var ts := JobsTasks(js); var g := GlobalEnds(js, now);
      id in g ==>
        g[id] <= now &&
        (forall i :: 0 <= i < |ts| && ts[i].end.Some? && ts[i].id == id ==> g[id] <= ts[i].end.value) &&
        (g[id] == now || exists i :: 0 <= i < |ts| && ts[i].end == Some(g[id]) && ts[i].id == id)
  {
    EndsKeys(JobsTasks(js), map[], now, id);
    if id in GlobalEnds(js, now) {
      EndsBelow(JobsTasks(js), map[], now, id);
      EndsAttained(JobsTasks(js), map[], now, id);
    }
  }

  /**
   * One task after `processTasks`: a task that never ended is unfinished and ran until the
   * kill; one that ended ran until its end and is a success exactly when no task with its
   * id ended earlier (in any job), a repeat otherwise.
   */
  lemma TaskOutcome(js: seq<Job>, now: int, k: nat, h: nat, i: nat)
    requires k < |js| && h < |js[k].threads| && i < |js[k].threads[h].tasks|
    ensures var t := js[k].threads[h].tasks[i];
      var p := Processed(js, now)[k].threads[h].tasks[i];
      p.id == t.id && p.start == t.start && p.end == t.end &&
      (t.end.None? ==> p.status == Unfinished && p.duration == js[k].kill - t.start)
    ensures var t := js[k].threads[h].tasks[i];
      var p := Processed(js, now)[k].threads[h].tasks[i];
      var g := GlobalEnds(js, now);
      t.end.Some? ==>
        t.id in g && p.duration == t.end.value - t.start &&
        (p.status == Success <==> t.end.value == g[t.id]) &&
        (p.status == Repeated <==> t.end.value != g[t.id])
  {
    var t := js[k].threads[h].tasks[i];
    var g := GlobalEnds(js, now);
    var f := FirstPassJob(js[k], now);
    FirstPassReady(js, now);
    assert Processed(js, now)[k] == TalliedJob(f, g);
    assert f.threads[h].tasks[i] == Timed(t, js[k].kill);
    assert Processed(js, now)[k].threads[h].tasks[i] == Classified(f.threads[h].tasks[i], g);
  }

  /**
   * One thread after `processTasks`: its total is the time from its start to the kill, and
   * its successful, repeated and unfinished times add up to the time all its tasks took.
   */
  lemma ThreadOutcome(js: seq<Job>, now: int, k: nat, h: nat)
    requires k < |js| && h < |js[k].threads|
    ensures var th := Processed(js, now)[k].threads[h];
      th.stats.total == js[k].kill - js[k].threads[h].start &&
      th.stats.successful + th.stats.repeated + th.stats.unfinished == SpentAll(js[k].threads[h].tasks, js[k].kill)
  {
    var kill := js[k].kill;
    var orig := js[k].threads[h];
    var g := GlobalEnds(js, now);
    var f := FirstPassJob(js[k], now);
    FirstPassReady(js, now);
    assert Processed(js, now)[k] == TalliedJob(f, g);
    var th := Processed(js, now)[k].threads[h];
    assert th == TalliedThread(f.threads[h], kill, g);
    var ts := th.tasks;
    forall i | 0 <= i < |ts|
      ensures ts[i].status != Undefined && ts[i].duration == Spent(orig.tasks[i], kill)
    {
      assert f.threads[h].tasks[i] == Timed(orig.tasks[i], kill);
      assert ts[i] == Classified(f.threads[h].tasks[i], g);
    }
    SumPartition(ts);
    DurationsSpent(orig.tasks, ts, kill);
  }

  /** Thread times added up, from per-thread facts. */
  lemma {:induction false} ThreadsSumOf(out: seq<Thread>, ths: seq<Thread>, kill: int)
    requires |out| == |ths|
    requires forall h :: 0 <= h < |ths| ==>
      out[h].stats.total == kill - ths[h].start &&
      out[h].stats.successful + out[h].stats.repeated + out[h].stats.unfinished == SpentAll(ths[h].tasks, kill)
    ensures ThreadsSum(out).total == ThreadsTotal(ths, kill)
    ensures var s := ThreadsSum(out); s.successful + s.repeated + s.unfinished == SpentAll(TasksOf(ths), kill)
  {
    if ths != [] {
      var n := |ths| - 1;
      ThreadsSumOf(out[..n], ths[..n], kill);
      SpentAllAppend(TasksOf(ths[..n]), ths[n].tasks, kill);
    }
  }

  /**
   * One job after `processTasks`: "End Init. Time" is the earliest start of its tasks (or
   * `now`); its total is the sum of its threads' totals; its successful, repeated and
   * unfinished times add up to the time all its tasks took; the overhead is set only when
   * it has threads.
   */
  lemma JobOutcome(js: seq<Job>, now: int, k: nat)
    requires k < |js|
    ensures Processed(js, now)[k].endInit == FirstStart(TasksOf(js[k].threads), now)
    ensures var j := Processed(js, now)[k];
      j.stats.total == ThreadsTotal(js[k].threads, js[k].kill) &&
      j.stats.successful + j.stats.repeated + j.stats.unfinished == SpentAll(TasksOf(js[k].threads), js[k].kill)
    ensures var j := Processed(js, now)[k];
      j.stats.initOverhead == if |js[k].threads| > 0 then j.endInit - js[k].start else 0
  {
    var g := GlobalEnds(js, now);
    var f := FirstPassJob(js[k], now);
    FirstPassReady(js, now);
    var j := Processed(js, now)[k];
    assert j == TalliedJob(f, g);
    forall h | 0 <= h < |js[k].threads|
      ensures j.threads[h].stats.total == js[k].kill - js[k].threads[h].start
      ensures j.threads[h].stats.successful + j.threads[h].stats.repeated + j.threads[h].stats.unfinished ==
        SpentAll(js[k].threads[h].tasks, js[k].kill)
    {
      ThreadOutcome(js, now, k, h);
    }
    ThreadsSumOf(j.threads, js[k].threads, js[k].kill);
  }
}
