/**
 * The progress tracker of crates/rg_core/src/progress.rs.
 *
 * World generation runs in stages, each a series of tasks, each a number of
 * subtasks.  The tracker keeps the current stage, a 64-bit counter packing
 * the task index (high 32 bits) with the number of completed subtasks of
 * the current task (low 32 bits), the number of subtasks of the current
 * task, and the last reported progress as a 32-bit fraction of
 * `u32::MAX`.  Progress is read off timing ranges baked by an earlier run.
 *
 * The atomics are plain fields here; recording the timing samples
 * (clocks and files) is not part of this model, and f32 arithmetic is
 * modelled on reals.
 */
module Progress {
  import opened Wrappers

  /** 2^32: the range of a u32, and the weight of the counter's task half. */
  const U32Limit: nat := 0x1_0000_0000
  /** 2^64: the range of the u64 counter. */
  const U64Limit: nat := 0x1_0000_0000_0000_0000
  /** `u32::MAX`. */
  const U32Max: nat := 0xFFFF_FFFF

  /** A counter value with the given task and subtask halves. */
  function Pack(task: nat, subtask: nat): nat {
    task * 0x1_0000_0000 + subtask
  }

  /**
   * Unpacking a counter (`get_task_subtask`): the task is the high half and
   * the subtask count the low half, and packing them gives the counter back.
   */
  function Unpack(counter: nat): (r: (nat, nat))
    requires counter < U64Limit
    ensures r.0 < U32Limit && r.1 < U32Limit && Pack(r.0, r.1) == counter
  {
    (counter / 0x1_0000_0000, counter % 0x1_0000_0000)
  }

  /** Packing two u32 halves gives a u64 that unpacks to them. */
  lemma UnpackPack(task: nat, subtask: nat)
    requires task < U32Limit && subtask < U32Limit
    ensures Pack(task, subtask) < U64Limit && Unpack(Pack(task, subtask)) == (task, subtask)
  {
    var c := Pack(task, subtask);
    assert c < U64Limit by {
      assert task * 0x1_0000_0000 <= (U32Limit - 1) * 0x1_0000_0000;
    }
    DivModUnique(c, task, subtask);
  }

  /** Division by 2^32 is determined by any quotient and remainder in range. */
  lemma DivModUnique(c: nat, q: nat, r: nat)
    requires r < 0x1_0000_0000 && c == q * 0x1_0000_0000 + r
    ensures c / 0x1_0000_0000 == q && c % 0x1_0000_0000 == r
  {
  }

  /** Reducing a value already below the modulus leaves it alone. */
  lemma ModBelow(x: nat, m: nat)
    requires x < m
    ensures x % m == x
  {
  }

  /** Adding one modulo 2^64 to a reduced value is reducing the sum. */
  lemma ModAddOne(x: nat)
    ensures (x % U64Limit + 1) % U64Limit == (x + 1) % U64Limit
  {
  }

  /** A baked time range, in fractions of the whole. */
  datatype Range = Range(start: real, end: real)

  /** The point a fraction t of the way through a range. */
  function Lerp(r: Range, t: real): real {
    r.start + t * (r.end - r.start)
  }

  /** The interpolation starts at the range's start, ends at its end and lies between them. */
  lemma LerpBounds(r: Range, t: real)
    requires r.start <= r.end && 0.0 <= t <= 1.0
    ensures Lerp(r, 0.0) == r.start && Lerp(r, 1.0) == r.end
    ensures r.start <= Lerp(r, t) <= r.end
  {
    assert 0.0 <= t * (r.end - r.start) <= r.end - r.start by {
      ProductBounds(t, r.end - r.start);
    }
  }

  lemma ProductBounds(t: real, w: real)
    requires 0.0 <= t <= 1.0 && 0.0 <= w
    ensures 0.0 <= t * w <= w
  {
    assert t * w <= 1.0 * w;
  }

  /**
   * A float cast to u32 (`as u32`): truncated toward zero, negative values
   * giving 0 and values past `u32::MAX` giving `u32::MAX`.
   */
  function ToU32(x: real): (r: nat)
    ensures r <= U32Max
    ensures 0.0 <= x ==> r as real <= x
    ensures x < U32Max as real ==> x < r as real + 1.0
  {
    if x <= 0.0 then 0 else if x >= U32Max as real then U32Max else x.Floor
  }

  /** The cast never reverses an order, and it keeps whole numbers in range. */
  lemma ToU32Monotone(x: real, y: real)
    requires x <= y
    ensures ToU32(x) <= ToU32(y)
  {
    if 0.0 < x && y < U32Max as real {
      assert x.Floor as real <= x <= y;
    }
  }

  lemma ToU32Whole(n: nat)
    requires n <= U32Max
    ensures ToU32(n as real) == n
  {
  }

  /** The larger of two floats (`f32::max`). */
  function Max(a: real, b: real): (m: real)
    ensures a <= m && b <= m && (m == a || m == b)
  {
    if a < b then b else a
  }

  /** The worldgen stages of crates/rg_worldgen_api/src/progress.rs, in declaration order. */
  datatype WorldgenStage = Init | Island | Height | Rivers | Shores | Biomes | Topography | Saving

  const Stages: seq<WorldgenStage> := [Init, Island, Height, Rivers, Shores, Biomes, Topography, Saving]

  /** `From<Stage> for u32`: the variant's declaration index. */
  function StageToU32(s: WorldgenStage): (v: nat)
    ensures v < |Stages| && Stages[v] == s
  {
    match s
    case Init => 0 case Island => 1 case Height => 2 case Rivers => 3
    case Shores => 4 case Biomes => 5 case Topography => 6 case Saving => 7
  }

  datatype StageResult = Ok(stage: WorldgenStage) | Err(message: string)

  /**
   * `TryFrom<u32> for Stage`: the variants are compared in declaration order
   * from the k-th on, and the first whose index is v is returned.
   */
  function StageFrom(v: nat, k: nat): StageResult
    requires k <= |Stages|
    decreases |Stages| - k
  {
    if k == |Stages| then Err("invalid stage")
    else if StageToU32(Stages[k]) == v then Ok(Stages[k])
    else StageFrom(v, k + 1)
  }

  /** `TryFrom<u32>`: the variant with index v, or the error "invalid stage". */
  function StageFromU32(v: nat): (r: StageResult)
    ensures r.Ok? <==> v < |Stages|
    ensures r.Ok? ==> r.stage == Stages[v]
  {
    StageFromFinds(v, 0);
    StageFrom(v, 0)
  }

  /** The search from k finds v's variant when v is a later index, and fails past the end. */
  lemma {:induction false} StageFromFinds(v: nat, k: nat)
    requires k <= |Stages|
    ensures k <= v < |Stages| ==> StageFrom(v, k) == Ok(Stages[v])
    ensures v >= |Stages| ==> StageFrom(v, k) == Err("invalid stage")
    decreases |Stages| - k
  {
    if k < |Stages| {
      assert StageToU32(Stages[k]) == k;
      StageFromFinds(v, k + 1);
    }
  }

  /** Converting a stage to u32 and back yields the same stage. */
  lemma StageRoundTrip(s: WorldgenStage)
    ensures StageFromU32(StageToU32(s)) == Ok(s)
  {
    StageFromFinds(StageToU32(s), 0);
  }

  /** A u32 converts to a stage iff it is a variant's index, and then back to itself. */
  lemma StageFromU32Spec(v: nat)
    ensures StageFromU32(v).Ok? <==> v < |Stages|
    ensures StageFromU32(v).Ok? ==> StageToU32(StageFromU32(v).stage) == v
    ensures StageFromU32(v).Err? ==> StageFromU32(v).message == "invalid stage"
  {
    StageFromFinds(v, 0);
  }

  /** The tracker shared by a progress reader and writer. */
  class ProgressTracker {
    var stage: nat
    var counter: nat
    var numSubtasks: nat
    var progress: nat
    /** Baked ranges: per stage, and per (stage, task) within its stage. */
    const stages: map<nat, Range>
    const tasks: map<(nat, nat), Range>

    /** Every field fits its atomic's width. */
    predicate Valid()
      reads this
    {
      stage < U32Limit && counter < U64Limit && numSubtasks < U32Limit && progress <= U32Max
    }

    /** `ProgressTracker::new`: every atomic starts at 0; the baked ranges are given. */
    constructor(stages: map<nat, Range>, tasks: map<(nat, nat), Range>)
      ensures Valid() && stage == 0 && counter == 0 && numSubtasks == 0 && progress == 0
      ensures this.stages == stages && this.tasks == tasks
    {
      stage, counter, numSubtasks, progress := 0, 0, 0, 0;
      this.stages, this.tasks := stages, tasks;
    }

    /** `get_task_subtask`: the two halves of the counter. */
    function TaskSubtask(): (r: (nat, nat))
      reads this
      requires Valid()
      ensures r.0 < U32Limit && r.1 < U32Limit && Pack(r.0, r.1) == counter
    {
      Unpack(counter)
    }

    /** `set_stage`. */
    method SetStage(s: nat)
      requires s < U32Limit
      modifies this
      ensures stage == s && counter == old(counter) && numSubtasks == old(numSubtasks) && progress == old(progress)
    {
      stage := s;
    }

    /** `begin_task`: the subtask half is cleared, the task half kept, and the subtask count recorded. */
    method BeginTask(n: nat)
      requires Valid() && n < U32Limit
      modifies this
      ensures Valid() && stage == old(stage) && progress == old(progress)
      ensures counter == old(counter) - old(counter) % U32Limit && numSubtasks == n
      ensures TaskSubtask() == (old(TaskSubtask()).0, 0)
    {
      counter := counter - counter % 0x1_0000_0000;
      numSubtasks := n;
      UnpackPack(old(TaskSubtask()).0, 0);
    }

    /** `subtask_completed`: the counter grows by one, wrapping at 2^64. */
    method SubtaskCompleted()
      requires Valid()
      modifies this
      ensures Valid() && stage == old(stage) && numSubtasks == old(numSubtasks) && progress == old(progress)
      ensures counter == (old(counter) + 1) % U64Limit
      ensures old(TaskSubtask()).1 + 1 < U32Limit ==>
        TaskSubtask() == (old(TaskSubtask()).0, old(TaskSubtask()).1 + 1)
    {
      ghost var (t, s) := TaskSubtask();
      ghost var next := counter + 1;
      if s + 1 < U32Limit {
        UnpackPack(t, s + 1);
        assert next == Pack(t, s + 1);
        ModBelow(next, U64Limit);
      }
      counter := (counter + 1) % 0x1_0000_0000_0000_0000;
    }

    /** `end_task`: the task half grows by one, wrapping at 2^64; the subtask half stays. */
    method EndTask()
      requires Valid()
      modifies this
      ensures Valid() && stage == old(stage) && numSubtasks == old(numSubtasks) && progress == old(progress)
      ensures counter == (old(counter) + U32Limit) % U64Limit
      ensures old(TaskSubtask()).0 + 1 < U32Limit ==>
        TaskSubtask() == (old(TaskSubtask()).0 + 1, old(TaskSubtask()).1)
    {
      ghost var (t, s) := TaskSubtask();
      counter := (counter + 0x1_0000_0000) % 0x1_0000_0000_0000_0000;
      if t + 1 < U32Limit {
        UnpackPack(t + 1, s);
      }
    }

    /** `get_old_progress`: the stored fraction of `u32::MAX`. */
    function OldProgress(): (r: real)
      reads this
      requires Valid()
      ensures 0.0 <= r <= 1.0
    {
      progress as real / U32Max as real
    }

    /**
     * `get_progress`.  Without a baked range for the current stage and
     * task it returns the stored progress.  Otherwise the new progress is
     * the subtask fraction placed in the task's range, placed in the
     * stage's range; the larger of it and the stored progress is stored
     * back and the new progress returned.  With no subtasks the fraction is
     * not a number (None): it is returned and the stored value kept.  The
     * stored progress never goes down.
     */
    method GetProgress() returns (p: Option<real>)
      requires Valid()
      modifies this
      ensures Valid() && stage == old(stage) && counter == old(counter) && numSubtasks == old(numSubtasks)
      ensures progress >= old(progress)
      ensures var key := (stage, TaskSubtask().0);
        stage !in stages || key !in tasks ==> p == Some(old(OldProgress())) && progress == old(progress)
      ensures var key := (stage, TaskSubtask().0);
        stage in stages && key in tasks && numSubtasks == 0 ==> p.None? && progress == old(progress)
      ensures var key := (stage, TaskSubtask().0);
        stage in stages && key in tasks && numSubtasks > 0 ==>
        var fraction := TaskSubtask().1 as real / numSubtasks as real;
        p == Some(Lerp(stages[stage], Lerp(tasks[key], fraction))) &&
        progress == ToU32(Max(p.value, old(OldProgress())) * U32Max as real)
    {
      var oldProgress := OldProgress();
      var (task, subtask) := TaskSubtask();
      if stage !in stages || (stage, task) !in tasks {
        return Some(oldProgress);
      }
      var stageRange := stages[stage];
      var taskRange := tasks[(stage, task)];
      if numSubtasks == 0 {
        assert oldProgress * U32Max as real == progress as real;
        ToU32Whole(progress);
        return None;
      }
      var taskProgress := subtask as real / numSubtasks as real;
      var stageProgress := Lerp(taskRange, taskProgress);
      var newProgress := Lerp(stageRange, stageProgress);
      assert oldProgress * U32Max as real == progress as real;
      ToU32Monotone(progress as real, Max(newProgress, oldProgress) * U32Max as real);
      ToU32Whole(progress);
      progress := ToU32(Max(newProgress, oldProgress) * U32Max as real);
      p := Some(newProgress);
    }
  }

  /** The writer half: it sets stages and brackets tasks. */
  class ProgressWriter {
    const tracker: ProgressTracker

    constructor(tracker: ProgressTracker)
      ensures this.tracker == tracker
    {
      this.tracker := tracker;
    }

    /** `ProgressWriter::set_stage`: the stage's u32 is stored, and reading it back gives the stage. */
    method SetStage(s: WorldgenStage)
      modifies tracker
      ensures tracker.stage == StageToU32(s) && StageFromU32(tracker.stage) == Ok(s)
      ensures tracker.counter == old(tracker.counter) && tracker.numSubtasks == old(tracker.numSubtasks)
      ensures tracker.progress == old(tracker.progress)
    {
      tracker.SetStage(StageToU32(s));
      StageRoundTrip(s);
    }

    /**
     * `task`: the callback, whose result is `result`, runs as one task of
     * one subtask; afterwards the task index has advanced by one and the
     * callback's result is returned.
     */
    method Task<R>(result: R) returns (r: R)
      requires tracker.Valid()
      modifies tracker
      ensures r == result && tracker.Valid() && tracker.numSubtasks == 1 && tracker.stage == old(tracker.stage)
      ensures tracker.counter == (old(tracker.counter) - old(tracker.counter) % U32Limit + U32Limit) % U64Limit
      ensures old(tracker.TaskSubtask()).0 + 1 < U32Limit ==>
        tracker.TaskSubtask() == (old(tracker.TaskSubtask()).0 + 1, 0)
    {
      tracker.BeginTask(1);
      r := result;
      tracker.EndTask();
    }

    /**
     * `multi_task`: the count must fit in a u32 (the source panics
     * otherwise).  The callback, whose result is `result`, completes
     * `completed` subtasks through the task handle; afterwards the task
     * index has advanced by one, the subtask half holds the completions and
     * the callback's result is returned.
     */
    method MultiTask<R>(numSubtasks: nat, completed: nat, result: R) returns (r: R)
      requires tracker.Valid() && numSubtasks < U32Limit
      modifies tracker
      ensures r == result && tracker.Valid() && tracker.numSubtasks == numSubtasks
      ensures tracker.stage == old(tracker.stage)
      ensures old(tracker.TaskSubtask()).0 + 1 < U32Limit && completed < U32Limit ==>
        tracker.TaskSubtask() == (old(tracker.TaskSubtask()).0 + 1, completed)
    {
      ghost var task := tracker.TaskSubtask().0;
      tracker.BeginTask(numSubtasks);
      ghost var base := tracker.counter;
      var i := 0;
      while i < completed
        invariant i <= completed && tracker.Valid() && tracker.numSubtasks == numSubtasks
        invariant tracker.stage == old(tracker.stage)
        invariant tracker.counter == (base + i) % U64Limit
      {
        tracker.SubtaskCompleted();
        ModAddOne(base + i);
        i := i + 1;
      }
      r := result;
      if completed < U32Limit {
        assert base == Pack(task, 0);
        UnpackPack(task, completed);
        assert base + completed == Pack(task, completed);
        ModBelow(base + completed, U64Limit);
        assert tracker.TaskSubtask() == (task, completed);
      }
      tracker.EndTask();
    }
  }

  /** The reader half: it reports the stage and the percentage. */
  class ProgressReader {
    const tracker: ProgressTracker

    constructor(tracker: ProgressTracker)
      ensures this.tracker == tracker
    {
      this.tracker := tracker;
    }

    /** `ProgressReader::stage`: the stored u32 must name a stage (the source treats any other as unreachable). */
    method Stage() returns (s: WorldgenStage)
      requires StageFromU32(tracker.stage).Ok?
      ensures StageToU32(s) == tracker.stage
    {
      StageFromU32Spec(tracker.stage);
      s := StageFromU32(tracker.stage).stage;
    }
  }
}
