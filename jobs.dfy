/** The job table: a fixed array of 256 slots holding the process groups
    the shell tracks, filled from the front, compacted on removal, numbered
    from a counter that only ever grows. */
module Jobs {
  import opened Text

  const Capacity: nat := 256
  /** `command_name` is a 256-byte buffer: 255 characters and the NUL. */
  const NameLimit: nat := 255

  datatype JobState = Running | Stopped

  /** One tracked pipeline: its job number, process group, display name and state. */
  datatype Job = Job(number: int, pgid: int, name: string, state: JobState)

  function NameOf(j: Job): string {
    j.name
  }

  /** `get_job_state_string`: the word `activities` prints for a state. */
  function StateName(s: JobState): (r: string)
    ensures s.Running? <==> r == "Running"
    ensures s.Stopped? <==> r == "Stopped"
  {
    match s
    case Running => "Running"
    case Stopped => "Stopped"
  }

  /** The name `add_background_job` stores: the first at most 255
      characters of the given name, or "" when it is NULL. */
  function StoredName(name: Option<string>): (r: string)
    ensures |r| <= NameLimit
    ensures name.None? ==> r == ""
    ensures name.Some? ==> r <= name.value && |r| == Min(|name.value|, NameLimit)
  {
    match name
    case None => ""
    case Some(s) => Prefix(s, NameLimit)
  }

  /** Job numbers strictly increase along the table. */
  predicate Increasing(jobs: seq<Job>) {
    forall i, j :: 0 <= i < j < |jobs| ==> jobs[i].number < jobs[j].number
  }

  /** The table's invariant, given the number the next insertion will use:
      within capacity, numbers increasing, every number already handed out
      and below `next`, every name within the buffer. */
  predicate WellFormed(jobs: seq<Job>, next: int) {
    && next >= 1
    && |jobs| <= Capacity
    && Increasing(jobs)
    && InRange(jobs, next)
  }

  function Numbers(jobs: seq<Job>): set<int> {
    set j <- jobs :: j.number
  }

  // ---------------------------------------------------------------------
  // The table operations as functions of the sequence of live entries.

  /** The entries after `add_background_job`. */
  function Added(jobs: seq<Job>, next: int, pgid: int, name: Option<string>, state: JobState): seq<Job> {
    if |jobs| >= Capacity then jobs else jobs + [Job(next, pgid, StoredName(name), state)]
  }

  /** `next_job_number` after `add_background_job`. */
  function NextAfterAdd(jobs: seq<Job>, next: int): int {
    if |jobs| >= Capacity then next else next + 1
  }

  /** The `[n] pgid` notice `add_background_job` prints for a job that runs
      on in the background of an interactive shell. */
  function AddNotice(jobs: seq<Job>, next: int, pgid: int, state: JobState, interactive: bool): seq<Line> {
    if |jobs| < Capacity && interactive && state.Running? then [Err("[" + Decimal(next) + "] " + Decimal(pgid) + "\n")] else []
  }

  /** Adding keeps the invariant; a full table is left alone and keeps its
      counter; otherwise the new entry comes last, carries the counter's
      value, which no live entry has, and the counter moves past it. */
  lemma AddedWellFormed(jobs: seq<Job>, next: int, pgid: int, name: Option<string>, state: JobState)
    requires WellFormed(jobs, next)
    ensures WellFormed(Added(jobs, next, pgid, name, state), NextAfterAdd(jobs, next))
    ensures |jobs| >= Capacity ==> Added(jobs, next, pgid, name, state) == jobs && NextAfterAdd(jobs, next) == next
    ensures |jobs| < Capacity ==>
      && next !in Numbers(jobs)
      && Added(jobs, next, pgid, name, state)[|jobs|].number == next
      && NextAfterAdd(jobs, next) == next + 1
  {
    if |jobs| < Capacity {
      var added := Job(next, pgid, StoredName(name), state);
      var r := jobs + [added];
      assert r == Added(jobs, next, pgid, name, state);
      forall j | j in r ensures 1 <= j.number < next + 1 && |j.name| <= NameLimit {
        if j != added { assert j in jobs; }
      }
      forall a, b | 0 <= a < b < |r| ensures r[a].number < r[b].number {
        assert r[a] in jobs;
      }
    }
  }

  /** `remove_background_job_index`: the entries at `index` and after move
      down one place; an index outside the table changes nothing. */
  function RemovedAt(jobs: seq<Job>, index: int): (r: seq<Job>)
    ensures !(0 <= index < |jobs|) ==> r == jobs
    ensures 0 <= index < |jobs| ==>
      && |r| == |jobs| - 1
      && (forall k :: 0 <= k < index ==> r[k] == jobs[k])
      && (forall k :: index <= k < |r| ==> r[k] == jobs[k + 1])
  {
    if 0 <= index < |jobs| then jobs[..index] + jobs[index + 1..] else jobs
  }

  lemma RemovedAtMiddle(a: seq<Job>, x: Job, b: seq<Job>)
    ensures RemovedAt(a + [x] + b, |a|) == a + b
  {
    var s := a + [x] + b;
    assert s[..|a|] == a && s[|a| + 1..] == b;
  }

  lemma RemovedAtWellFormed(jobs: seq<Job>, next: int, index: int)
    requires WellFormed(jobs, next)
    ensures WellFormed(RemovedAt(jobs, index), next)
  {
    var r := RemovedAt(jobs, index);
    if 0 <= index < |jobs| {
      forall j | j in r ensures 1 <= j.number < next && |j.name| <= NameLimit {
        var k :| 0 <= k < |r| && r[k] == j;
        if k >= index { assert r[k] == jobs[k + 1]; } else { assert r[k] == jobs[k]; }
      }
      forall a, b | 0 <= a < b < |r| ensures r[a].number < r[b].number {
        var a' := if a < index then a else a + 1;
        var b' := if b < index then b else b + 1;
        assert r[a] == jobs[a'] && r[b] == jobs[b'];
      }
    }
  }

  /** The first slot holding process group `pgid`. */
  function FirstWithPgid(jobs: seq<Job>, pgid: int): (r: Option<nat>)
    ensures r.Some? ==> r.value < |jobs| && jobs[r.value].pgid == pgid
    ensures r.Some? ==> forall k :: 0 <= k < r.value ==> jobs[k].pgid != pgid
    ensures r.None? ==> forall k :: 0 <= k < |jobs| ==> jobs[k].pgid != pgid
  {
    if jobs == [] then None
    else if jobs[0].pgid == pgid then Some(0)
    else match FirstWithPgid(jobs[1..], pgid)
      case None => None
      case Some(i) => Some(i + 1)
  }

  /** The entries after `remove_job_by_pid`. */
  function WithoutPgid(jobs: seq<Job>, pgid: int): seq<Job> {
    match FirstWithPgid(jobs, pgid)
    case None => jobs
    case Some(i) => RemovedAt(jobs, i)
  }

  /** `remove_job_by_pid` drops exactly the first entry with that process
      group, keeping the others in order; an absent group changes nothing. */
  lemma WithoutPgidRemovesFirst(jobs: seq<Job>, pgid: int)
    ensures (forall k :: 0 <= k < |jobs| ==> jobs[k].pgid != pgid) ==> WithoutPgid(jobs, pgid) == jobs
    ensures (exists k :: 0 <= k < |jobs| && jobs[k].pgid == pgid) ==>
      exists i :: && 0 <= i < |jobs|
                  && jobs[i].pgid == pgid
                  && (forall k :: 0 <= k < i ==> jobs[k].pgid != pgid)
                  && WithoutPgid(jobs, pgid) == jobs[..i] + jobs[i + 1..]
  {
    match FirstWithPgid(jobs, pgid)
    case None =>
    case Some(i) =>
      assert WithoutPgid(jobs, pgid) == jobs[..i] + jobs[i + 1..];
  }

  /** `remove_job_by_pid` keeps the invariant. */
  lemma WithoutPgidWellFormed(jobs: seq<Job>, next: int, pgid: int)
    requires WellFormed(jobs, next)
    ensures WellFormed(WithoutPgid(jobs, pgid), next)
  {
    match FirstWithPgid(jobs, pgid)
    case None =>
    case Some(f) => RemovedAtWellFormed(jobs, next, f);
  }

  /** Re-marking an entry's state keeps the invariant. */
  lemma RemarkedWellFormed(jobs: seq<Job>, next: int, i: nat, st: JobState)
    requires WellFormed(jobs, next) && i < |jobs|
    ensures WellFormed(jobs[i := jobs[i].(state := st)], next)
  {
    var r := jobs[i := jobs[i].(state := st)];
    forall j | j in r ensures 1 <= j.number < next && |j.name| <= NameLimit {
      var k :| 0 <= k < |r| && r[k] == j;
      assert jobs[k] in jobs;
    }
    forall a, b | 0 <= a < b < |r| ensures r[a].number < r[b].number {
      assert r[a].number == jobs[a].number && r[b].number == jobs[b].number;
    }
  }

  /** The first slot holding job number `n`. */
  function FirstWithNumber(jobs: seq<Job>, n: int): (r: Option<nat>)
    ensures r.Some? ==> r.value < |jobs| && jobs[r.value].number == n
    ensures r.None? ==> forall k :: 0 <= k < |jobs| ==> jobs[k].number != n
  {
    if jobs == [] then None
    else if jobs[0].number == n then Some(0)
    else match FirstWithNumber(jobs[1..], n)
      case None => None
      case Some(i) => Some(i + 1)
  }

  /** `find_job_by_number`: no job for a number at or below zero, else the
      slot with that number if there is one. */
  function IndexOfNumber(jobs: seq<Job>, n: int): (r: Option<nat>)
    ensures n <= 0 ==> r.None?
    ensures r.Some? ==> r.value < |jobs| && jobs[r.value].number == n
    ensures r.None? && n > 0 ==> forall k :: 0 <= k < |jobs| ==> jobs[k].number != n
  {
    if n <= 0 then None else FirstWithNumber(jobs, n)
  }

  /** `find_most_recent_job`: the last slot, none in an empty table. */
  function MostRecent(jobs: seq<Job>): (r: Option<nat>)
    ensures r.None? <==> jobs == []
    ensures r.Some? ==> r.value == |jobs| - 1
  {
    if |jobs| > 0 then Some(|jobs| - 1) else None
  }

  /** In a well-formed table the job with number n is the only one with it. */
  lemma IndexOfNumberUnique(jobs: seq<Job>, next: int, n: int, k: nat)
    requires WellFormed(jobs, next)
    requires k < |jobs| && jobs[k].number == n
    ensures IndexOfNumber(jobs, n) == Some(k)
  {
  }

  // ---------------------------------------------------------------------
  // The polling pass.

  /** How the process group was last reported to change, as seen by
      `waitpid(..., WUNTRACED | WCONTINUED)`. */
  datatype Status = Exited(code: int) | Signaled | StoppedBySignal | Continued

  /** What one non-blocking `waitpid` on a job's group returned: nothing
      new (0), a status change, or -1 with `echild` telling whether errno was
      ECHILD and `gone` whether the `kill(pid, 0)` probe then failed with ESRCH. */
  datatype WaitResult = NoChange | Changed(status: Status) | WaitFailed(echild: bool, gone: bool)

  /** What one wait result does to its entry: None when it is removed. */
  function PollStep(job: Job, w: WaitResult): (r: Option<Job>)
    ensures r.Some? ==> r.value.number == job.number && r.value.pgid == job.pgid && r.value.name == job.name
  {
    match w
    case NoChange => Some(job)
    case WaitFailed(echild, gone) => if echild && gone then None else Some(job)
    case Changed(st) =>
      match st
      case Exited(_) => None
      case Signaled => None
      case StoppedBySignal => Some(job.(state := Stopped))
      case Continued => Some(job.(state := Running))
  }

  /** The notice an interactive shell prints for one wait result. */
  function PollNotice(job: Job, w: WaitResult, interactive: bool): seq<Line> {
    if !interactive then []
    else match w
      case Changed(Exited(code)) =>
        [Err(job.name + " with pid " + Decimal(job.pgid) +
             (if code == 0 then " exited normally\n" else " exited abnormally\n"))]
      case Changed(Signaled) =>
        [Out("[" + Decimal(job.number) + "] Terminated " + job.name + "\n")]
      case _ => []
  }

  function StepEntries(job: Job, w: WaitResult): seq<Job> {
    match PollStep(job, w)
    case None => []
    case Some(j) => [j]
  }

  /** The entries `check_background_jobs` leaves of the first `k`, given
      one wait result per entry in table order; the whole pass is `k ==
      |jobs|`. */
  function Polled(jobs: seq<Job>, ws: seq<WaitResult>, k: nat): (r: seq<Job>)
    requires |ws| == |jobs| && k <= |jobs|
    ensures |r| <= k
  {
    if k == 0 then [] else Polled(jobs, ws, k - 1) + StepEntries(jobs[k - 1], ws[k - 1])
  }

  /** The notices `check_background_jobs` prints for the first `k` entries. */
  function PollNotices(jobs: seq<Job>, ws: seq<WaitResult>, interactive: bool, k: nat): seq<Line>
    requires |ws| == |jobs| && k <= |jobs|
  {
    if k == 0 then [] else PollNotices(jobs, ws, interactive, k - 1) + PollNotice(jobs[k - 1], ws[k - 1], interactive)
  }

  /** Polling only drops and re-marks entries: every job number left was
      there before. */
  lemma {:induction false} PolledNumbers(jobs: seq<Job>, ws: seq<WaitResult>, k: nat)
    requires |ws| == |jobs| && k <= |jobs|
    ensures Numbers(Polled(jobs, ws, k)) <= Numbers(jobs[..k])
  {
    if k > 0 {
      PolledNumbers(jobs, ws, k - 1);
      assert jobs[..k] == jobs[..k - 1] + [jobs[k - 1]];
      forall x | x in Numbers(Polled(jobs, ws, k)) ensures x in Numbers(jobs[..k]) {
        var j :| j in Polled(jobs, ws, k) && j.number == x;
        if j in Polled(jobs, ws, k - 1) {
          assert x in Numbers(jobs[..k - 1]);
        } else {
          assert j in StepEntries(jobs[k - 1], ws[k - 1]);
        }
      }
    }
  }

  /** Polling keeps the table's invariant (and never touches the counter). */
  lemma PolledWellFormed(jobs: seq<Job>, ws: seq<WaitResult>, next: int, k: nat)
    requires |ws| == |jobs| && k <= |jobs|
    requires WellFormed(jobs, next)
    ensures WellFormed(Polled(jobs, ws, k), next)
  {
    PolledIncreasing(jobs, ws, k);
    PolledInRange(jobs, ws, next, k);
  }

  lemma {:induction false} PolledIncreasing(jobs: seq<Job>, ws: seq<WaitResult>, k: nat)
    requires |ws| == |jobs| && k <= |jobs| && Increasing(jobs)
    ensures Increasing(Polled(jobs, ws, k))
  {
    if k > 0 {
      var last := jobs[k - 1];
      PolledIncreasing(jobs, ws, k - 1);
      PolledBelow(jobs, ws, k - 1, last.number);
      StepKeeps(last, ws[k - 1]);
      AppendIncreasing(Polled(jobs, ws, k - 1), StepEntries(last, ws[k - 1]), last);
    }
  }

  /** Entries whose numbers lie in `1..next-1` and whose names fit the buffer. */
  predicate InRange(jobs: seq<Job>, next: int) {
    forall j <- jobs :: 1 <= j.number < next && |j.name| <= NameLimit
  }

  lemma {:induction false} PolledInRange(jobs: seq<Job>, ws: seq<WaitResult>, next: int, k: nat)
    requires |ws| == |jobs| && k <= |jobs| && InRange(jobs, next)
    ensures InRange(Polled(jobs, ws, k), next)
  {
    if k > 0 {
      var last := jobs[k - 1];
      PolledInRange(jobs, ws, next, k - 1);
      StepKeeps(last, ws[k - 1]);
      assert last in jobs;
      var p, e := Polled(jobs, ws, k - 1), StepEntries(last, ws[k - 1]);
      forall j: Job | j in p + e ensures 1 <= j.number < next && |j.name| <= NameLimit {
        if j !in p {
          assert j in e;
        }
      }
    }
  }

  /** Polling only keeps or re-marks entries, so a bound on the numbers of
      the first `k` entries bounds those left. */
  lemma {:induction false} PolledBelow(jobs: seq<Job>, ws: seq<WaitResult>, k: nat, b: int)
    requires |ws| == |jobs| && k <= |jobs|
    requires forall m :: 0 <= m < k ==> jobs[m].number < b
    ensures NumbersBelow(Polled(jobs, ws, k), b)
  {
    if k > 0 {
      PolledBelow(jobs, ws, k - 1, b);
      assert forall j <- Polled(jobs, ws, k) :: j in Polled(jobs, ws, k - 1) || j in StepEntries(jobs[k - 1], ws[k - 1]);
    }
  }

  /** Every entry numbered below `b`. */
  predicate NumbersBelow(jobs: seq<Job>, b: int) {
    forall j <- jobs :: j.number < b
  }

  /** At most one entry, with the number and name of `job`. */
  predicate Copies(e: seq<Job>, job: Job) {
    |e| <= 1 && forall j <- e :: j.number == job.number && j.name == job.name
  }

  /** A poll step keeps at most the entry itself, perhaps re-marked. */
  lemma StepKeeps(job: Job, w: WaitResult)
    ensures Copies(StepEntries(job, w), job)
  {
  }

  /** Appending at most one entry numbered above all the others keeps
      the numbers increasing. */
  lemma AppendIncreasing(p: seq<Job>, e: seq<Job>, last: Job)
    requires Increasing(p) && NumbersBelow(p, last.number) && Copies(e, last)
    ensures Increasing(p + e)
  {
    var r := p + e;
    forall x, y | 0 <= x < y < |r| ensures r[x].number < r[y].number {
      if y >= |p| {
        assert r[x] == p[x] && r[y] in e;
      } else {
        assert r[x] == p[x] && r[y] == p[y];
      }
    }
  }

  /** Idempotence: a pass in which no group changed state leaves the table
      exactly as it was. */
  lemma {:induction false} PollIdle(jobs: seq<Job>, ws: seq<WaitResult>, k: nat)
    requires |ws| == |jobs| && k <= |jobs|
    requires forall m :: 0 <= m < |ws| ==> ws[m] == NoChange
    ensures Polled(jobs, ws, k) == jobs[..k]
  {
    if k > 0 {
      PollIdle(jobs, ws, k - 1);
      assert jobs[..k] == jobs[..k - 1] + [jobs[k - 1]];
    }
  }

  /** An entry whose group exited or was killed by a signal is gone after
      the pass: no remaining entry carries its job number. */
  lemma {:induction false} PollRemovesFinished(jobs: seq<Job>, ws: seq<WaitResult>, k: nat, m: nat)
    requires |ws| == |jobs| && k <= |jobs| && Increasing(jobs)
    requires m < k && ws[m].Changed? && (ws[m].status.Exited? || ws[m].status.Signaled?)
    ensures jobs[m].number !in Numbers(Polled(jobs, ws, k))
  {
    var p := Polled(jobs, ws, k - 1);
    var e := StepEntries(jobs[k - 1], ws[k - 1]);
    assert Polled(jobs, ws, k) == p + e;
    if m == k - 1 {
      PolledBelow(jobs, ws, k - 1, jobs[m].number);
      assert e == [];
    } else {
      PollRemovesFinished(jobs, ws, k - 1, m);
      assert jobs[m].number < jobs[k - 1].number;
    }
    forall j: Job | j in p + e
      ensures j.number != jobs[m].number
    {
      if j in p {
        assert j.number in Numbers(p);
      }
    }
  }

  /** An entry whose group stopped is still there, marked Stopped; one whose
      group continued is still there, marked Running. */
  lemma {:induction false} PollKeepsStoppedAndContinued(jobs: seq<Job>, ws: seq<WaitResult>, k: nat, m: nat)
    requires |ws| == |jobs| && k <= |jobs| && m < k
    ensures ws[m] == Changed(StoppedBySignal) ==> jobs[m].(state := Stopped) in Polled(jobs, ws, k)
    ensures ws[m] == Changed(Continued) ==> jobs[m].(state := Running) in Polled(jobs, ws, k)
  {
    if m < k - 1 {
      PollKeepsStoppedAndContinued(jobs, ws, k - 1, m);
    }
  }

  /** One line of `activities`: `[pgid] : name - State`. */
  function ActivityLine(j: Job): Line {
    Out("[" + Decimal(j.pgid) + "] : " + j.name + " - " + StateName(j.state) + "\n")
  }

  /** What `activities` prints for the entries in the order given. */
  function ActivityLines(jobs: seq<Job>): seq<Line> {
    seq(|jobs|, k requires 0 <= k < |jobs| => ActivityLine(jobs[k]))
  }

  // ---------------------------------------------------------------------
  // The table itself, updated in place.

  class JobTable {
    /** `background_jobs`. */
    var slots: array<Job>
    /** `background_job_count`. */
    var count: nat
    /** `next_job_number`. */
    var nextNumber: int

    ghost predicate Allocated()
      reads this
    {
      slots.Length == Capacity && count <= Capacity
    }

    ghost predicate Valid()
      reads this, slots
    {
      Allocated() && WellFormed(slots[..count], nextNumber)
    }

    /** The live entries, oldest first. */
    function Jobs(): seq<Job>
      reads this, slots
      requires count <= slots.Length
    {
      slots[..count]
    }

    constructor ()
      ensures Valid() && fresh(slots)
      ensures Jobs() == [] && nextNumber == 1
    {
      slots := new Job[Capacity](_ => Job(0, 0, "", Running));
      count := 0;
      nextNumber := 1;
    }

    /** `add_background_job`. */
    method Add(pgid: int, name: Option<string>, state: JobState, interactive: bool) returns (out: seq<Line>)
      requires Valid()
      modifies this, slots
      ensures Valid() && slots == old(slots)
      ensures Jobs() == Added(old(Jobs()), old(nextNumber), pgid, name, state)
      ensures nextNumber == NextAfterAdd(old(Jobs()), old(nextNumber))
      ensures out == AddNotice(old(Jobs()), old(nextNumber), pgid, state, interactive)
    {
      AddedWellFormed(Jobs(), nextNumber, pgid, name, state);
      if count >= slots.Length {
        return [];
      }
      ghost var before := Jobs();
      var number := nextNumber;
      slots[count] := Job(number, pgid, StoredName(name), state);
      count := count + 1;
      nextNumber := nextNumber + 1;
      assert Jobs() == before + [Job(number, pgid, StoredName(name), state)];
      out := [];
      if interactive && state.Running? {
        out := [Err("[" + Decimal(number) + "] " + Decimal(pgid) + "\n")];
      }
    }

    /** `remove_background_job_index`: shift the later entries down one. */
    method RemoveIndex(index: int)
      requires Allocated()
      modifies this, slots
      ensures Allocated() && slots == old(slots) && nextNumber == old(nextNumber)
      ensures Jobs() == RemovedAt(old(Jobs()), index)
    {
      if index < 0 || index >= count {
        return;
      }
      ghost var before := slots[..];
      var i := index;
      while i < count - 1
        invariant count == old(count) && slots == old(slots) && nextNumber == old(nextNumber)
        invariant i <= count - 1 && ShiftedUpTo(before, slots[..], index, i)
      {
        ShiftStep(before, slots[..], index, i);
        slots[i] := slots[i + 1];
        i := i + 1;
      }
      ShiftedDown(before, slots[..], index, count);
      count := count - 1;
    }

    /** The shift loop has moved the entries from `index + 1` up to `i` down
        one place and left the rest alone. */
    static predicate ShiftedUpTo(before: seq<Job>, after: seq<Job>, index: nat, i: nat) {
      && |after| == |before| && index <= i < |before|
      && (forall k :: 0 <= k < index ==> after[k] == before[k])
      && (forall k :: index <= k < i ==> after[k] == before[k + 1])
      && (forall k :: i <= k < |after| ==> after[k] == before[k])
    }

    /** One pass of the shift loop: `slots[i] = slots[i + 1]`. */
    static lemma ShiftStep(before: seq<Job>, after: seq<Job>, index: nat, i: nat)
      requires ShiftedUpTo(before, after, index, i) && i + 1 < |after|
      ensures ShiftedUpTo(before, after[i := after[i + 1]], index, i + 1)
    {
    }

    /** The entries after `index` moved down one place, pointwise, is the
        table with that entry removed. */
    static lemma ShiftedDown(before: seq<Job>, after: seq<Job>, index: nat, n: nat)
      requires index < n <= |before| == |after|
      requires forall k :: 0 <= k < index ==> after[k] == before[k]
      requires forall k :: index <= k < n - 1 ==> after[k] == before[k + 1]
      ensures after[..n - 1] == RemovedAt(before[..n], index)
    {
    }

    /** `remove_job_by_pid`. */
    method RemoveByPgid(pgid: int)
      requires Valid()
      modifies this, slots
      ensures Valid() && slots == old(slots) && nextNumber == old(nextNumber)
      ensures Jobs() == WithoutPgid(old(Jobs()), pgid)
    {
      var i := 0;
      while i < count
        invariant 0 <= i <= count
        invariant forall k :: 0 <= k < i ==> slots[k].pgid != pgid
      {
        if slots[i].pgid == pgid {
          assert FirstWithPgid(Jobs(), pgid) == Some(i) by {
            match FirstWithPgid(Jobs(), pgid)
            case None =>
            case Some(f) => assert Jobs()[i].pgid == pgid;
          }
          RemovedAtWellFormed(Jobs(), nextNumber, i);
          RemoveIndex(i);
          return;
        }
        i := i + 1;
      }
      assert FirstWithPgid(Jobs(), pgid).None?;
    }

    /** `find_job_by_number`: the slot of job `n`, if any. */
    method FindByNumber(n: int) returns (r: Option<nat>)
      requires Valid()
      ensures r == IndexOfNumber(Jobs(), n)
      ensures r.Some? ==> r.value < count && slots[r.value].number == n
    {
      if n <= 0 {
        return None;
      }
      var i := 0;
      while i < count
        invariant 0 <= i <= count
        invariant forall k :: 0 <= k < i ==> slots[k].number != n
      {
        if slots[i].number == n {
          IndexOfNumberUnique(Jobs(), nextNumber, n, i);
          return Some(i);
        }
        i := i + 1;
      }
      return None;
    }

    /** `find_most_recent_job`. */
    method FindMostRecent() returns (r: Option<nat>)
      requires Valid()
      ensures r == MostRecent(Jobs())
    {
      if count > 0 {
        return Some(count - 1);
      }
      return None;
    }

    /** `job->state = ...` through a pointer into the table. */
    method SetState(i: nat, st: JobState)
      requires Valid() && i < count
      modifies slots
      ensures Valid()
      ensures Jobs() == old(Jobs())[i := old(Jobs())[i].(state := st)]
    {
      RemarkedWellFormed(Jobs(), nextNumber, i, st);
      Put(i, slots[i].(state := st));
    }

    /** What `check_background_jobs` does to the entry at `i`, the first
        entry of `after`: re-mark it in place, or remove it and compact the
        table. */
    method ApplyResult(i: nat, w: WaitResult, ghost before: seq<Job>, ghost after: seq<Job>) returns (kept: bool)
      requires Allocated() && Jobs() == before + after && i == |before| && after != []
      modifies this, slots
      ensures Allocated() && slots == old(slots) && nextNumber == old(nextNumber)
      ensures Jobs() == before + StepEntries(after[0], w) + after[1..]
      ensures kept <==> PollStep(after[0], w).Some?
    {
      SplitAt(before, after);
      var step := PollStep(slots[i], w);
      if step.None? {
        RemovedAtMiddle(before, after[0], after[1..]);
        RemoveIndex(i);
        return false;
      }
      Put(i, step.value);
      ReplacedMiddle(before, after[0], after[1..], step.value);
      return true;
    }

    /** Overwrite one live slot. */
    method Put(i: nat, j: Job)
      requires Allocated() && i < count
      modifies slots
      ensures Jobs() == old(Jobs())[i := j]
    {
      slots[i] := j;
    }

    static lemma SplitAt(before: seq<Job>, after: seq<Job>)
      requires after != []
      ensures before + after == before + [after[0]] + after[1..]
      ensures (before + after)[|before|] == after[0]
    {
      assert after == [after[0]] + after[1..];
    }

    static lemma ReplacedMiddle(before: seq<Job>, x: Job, rest: seq<Job>, y: Job)
      ensures (before + [x] + rest)[|before| := y] == before + [y] + rest
    {
    }

    /** Where the loop of `check_background_jobs` stands after the first
        `k` of the entries it started from: the table holds what those left
        followed by the rest untouched, `i` indexes the first of the rest,
        and `out` holds their notices. */
    static ghost predicate Swept(orig: seq<Job>, results: seq<WaitResult>, interactive: bool, k: nat,
                                 jobs: seq<Job>, i: nat, out: seq<Line>)
    {
      && |results| == |orig| && k <= |orig|
      && i == |Polled(orig, results, k)|
      && out == PollNotices(orig, results, interactive, k)
      && jobs == Polled(orig, results, k) + orig[k..]
    }

    /** The loop of `check_background_jobs`: one wait result per entry, in
        table order; removed entries are compacted away as the pass goes. */
    method Sweep(results: seq<WaitResult>, interactive: bool) returns (out: seq<Line>)
      requires Allocated() && |results| == count
      modifies this, slots
      ensures Allocated() && slots == old(slots) && nextNumber == old(nextNumber)
      ensures Jobs() == Polled(old(Jobs()), results, |results|)
      ensures out == PollNotices(old(Jobs()), results, interactive, |results|)
    {
      ghost var orig := Jobs();
      var i := 0;
      var k := 0;
      out := [];
      SweepStart(orig, results, interactive);
      while k < |results|
        invariant Allocated() && slots == old(slots) && nextNumber == old(nextNumber)
        invariant Swept(orig, results, interactive, k, Jobs(), i, out)
        decreases |results| - k
      {
        i, k, out := SweepStep(i, k, results, interactive, orig, out);
      }
      SweepDone(orig, results, interactive, k, Jobs(), i, out);
    }

    /** The loop starts with nothing swept. */
    static lemma SweepStart(orig: seq<Job>, results: seq<WaitResult>, interactive: bool)
      requires |results| == |orig|
      ensures Swept(orig, results, interactive, 0, orig, 0, [])
    {
      assert orig[0..] == orig;
    }

    /** Once every entry has been swept, the table and the notices are
        those of the whole pass. */
    static lemma SweepDone(orig: seq<Job>, results: seq<WaitResult>, interactive: bool, k: nat,
                           jobs: seq<Job>, i: nat, out: seq<Line>)
      requires Swept(orig, results, interactive, k, jobs, i, out) && k >= |results|
      ensures jobs == Polled(orig, results, |results|)
      ensures out == PollNotices(orig, results, interactive, |results|)
    {
      assert orig[k..] == [];
    }

    /** One pass of that loop, over the `k`-th of the entries it started
        from, which sits at `i`. */
    method SweepStep(i: nat, k: nat, results: seq<WaitResult>, interactive: bool, ghost orig: seq<Job>,
                     before: seq<Line>)
      returns (next: nat, k': nat, out: seq<Line>)
      requires Allocated() && Swept(orig, results, interactive, k, Jobs(), i, before) && k < |orig|
      modifies this, slots
      ensures Allocated() && slots == old(slots) && nextNumber == old(nextNumber)
      ensures k' == k + 1 && Swept(orig, results, interactive, k', Jobs(), next, out)
    {
      ghost var done := Polled(orig, results, k);
      var w := results[k];
      var job := slots[i];
      assert job == Jobs()[i];
      JoinAt(done, orig[k..]);
      assert job == orig[k];
      out := before + PollNotice(job, w, interactive);
      var kept := ApplyResult(i, w, done, orig[k..]);
      next := if kept then i + 1 else i;
      k' := k + 1;
      assert orig[k..][1..] == orig[k + 1..];
      assert Polled(orig, results, k + 1) == done + StepEntries(job, w);
    }

    static lemma JoinAt(done: seq<Job>, rest: seq<Job>)
      requires rest != []
      ensures (done + rest)[|done|] == rest[0]
    {
    }

    /** `check_background_jobs`, which keeps the table well formed. */
    method Poll(results: seq<WaitResult>, interactive: bool) returns (out: seq<Line>)
      requires Valid() && |results| == count
      modifies this, slots
      ensures Valid() && slots == old(slots) && nextNumber == old(nextNumber)
      ensures Jobs() == Polled(old(Jobs()), results, |results|)
      ensures out == PollNotices(old(Jobs()), results, interactive, |results|)
    {
      PolledWellFormed(Jobs(), results, nextNumber, |results|);
      out := Sweep(results, interactive);
    }

    /** `list_activities`: poll, then list the entries sorted by name. The
        listing is returned as `listed`; the table keeps its own order. */
    method ListActivities(results: seq<WaitResult>, interactive: bool) returns (out: seq<Line>, listed: seq<Job>)
      requires Valid() && |results| == count
      modifies this, slots
      ensures Valid() && slots == old(slots) && nextNumber == old(nextNumber)
      ensures Jobs() == Polled(old(Jobs()), results, |results|)
      ensures multiset(listed) == multiset(Jobs())
      ensures SortedBy(listed, NameOf)
      ensures out == PollNotices(old(Jobs()), results, interactive, |results|) + ActivityLines(listed)
    {
      out := Poll(results, interactive);
      listed := SortBy(Jobs(), NameOf);
      out := out + ActivityLines(listed);
    }
  }
}
