/** The loop that starts a process for each command received (oar/modules/bipbip_commander.py).
    Whether a process still runs is up to the outside: it is asked for again and again, and a
    process that has ended stays so.
 */
module Bipbip {
  import opened Options

  datatype Command = Command(jobId: int, what: string)

  /** The commander with the processes it started (`launched`, by number) and how often it has
      asked whether a process runs (`tick`). */
  datatype Commander = Commander(toRun: seq<Command>, toRequeue: seq<Command>, executors: map<int, nat>,
                                 launched: seq<Command>, tick: nat)

  /** Whether a process still runs when asked for the n-th time. */
  type Alive = (nat, nat) -> bool

  ghost predicate EndsOnce(alive: Alive) {
    forall p, s, t :: s <= t && !alive(s, p) ==> !alive(t, p)
  }

  function Requeued(c: Commander, command: Command): Commander {
    c.(toRequeue := c.toRequeue + [command])
  }

  function Started(c: Commander, command: Command): Commander {
    c.(launched := c.launched + [command], executors := c.executors[command.jobId := |c.launched|])
  }

  /** One command of the queue: a job whose process still runs has to wait. */
  function DispatchOne(c: Commander, alive: Alive): Commander
    requires c.toRun != []
  {
    var command := c.toRun[0];
    var c' := c.(toRun := c.toRun[1..]);
    if command.jobId in c.executors then
      if alive(c.tick, c.executors[command.jobId]) then Requeued(c'.(tick := c.tick + 1), command)
      else Started(c'.(tick := c.tick + 1, executors := c.executors - {command.jobId}), command)
    else Started(c', command)
  }

  /** Commands are taken as long as there are any and the table is not full. */
  function Dispatch(c: Commander, alive: Alive, max: nat): Commander
    decreases |c.toRun|
  {
    if c.toRun == [] || |c.executors| > max then c else Dispatch(DispatchOne(c, alive), alive, max)
  }

  /** The executors of the jobs listed that have ended are dropped. */
  function Cleaned(c: Commander, jobs: seq<int>, alive: Alive): Commander
    decreases |jobs|
  {
    if jobs == [] then c
    else
      var c' := c.(tick := c.tick + 1);
      var ended := jobs[0] in c.executors && !alive(c.tick, c.executors[jobs[0]]);
      Cleaned(if ended then c'.(executors := c.executors - {jobs[0]}) else c', jobs[1..], alive)
  }

  // --------------------------------------------------------------------- what always holds

  /** Every process that runs is the one the table has for its job. */
  ghost predicate OneExecutorEach(c: Commander, alive: Alive) {
    && (forall p: nat :: p < |c.launched| && alive(c.tick, p) ==> HasExecutor(c, c.launched[p].jobId, p))
    && (forall j :: j in c.executors ==> c.executors[j] < |c.launched| && c.launched[c.executors[j]].jobId == j)
  }

  predicate HasExecutor(c: Commander, job: int, p: nat) {
    job in c.executors && c.executors[job] == p
  }

  /** Two processes of one job never run at the same time. */
  lemma NoTwoExecutors(c: Commander, alive: Alive, p: nat, q: nat)
    requires OneExecutorEach(c, alive) && p < |c.launched| && q < |c.launched|
    requires alive(c.tick, p) && alive(c.tick, q) && c.launched[p].jobId == c.launched[q].jobId
    ensures p == q
  {
    assert HasExecutor(c, c.launched[p].jobId, p) && HasExecutor(c, c.launched[q].jobId, q);
  }

  /** The commands that are queued or have been launched. */
  function Accounted(c: Commander): multiset<Command> {
    multiset(c.toRun) + multiset(c.toRequeue) + multiset(c.launched)
  }

  lemma StartedKeeps(c: Commander, command: Command, alive: Alive)
    requires OneExecutorEach(c, alive) && command.jobId !in c.executors
    ensures OneExecutorEach(Started(c, command), alive) && |Started(c, command).executors| == |c.executors| + 1
  {
    var d := Started(c, command);
    forall p: nat | p < |d.launched| && alive(d.tick, p) ensures HasExecutor(d, d.launched[p].jobId, p) {
      if p < |c.launched| {
        assert HasExecutor(c, c.launched[p].jobId, p);
      }
    }
    assert d.executors.Keys == c.executors.Keys + {command.jobId};
  }

  /** A process that is found to have ended leaves the table. */
  lemma EndedKeeps(c: Commander, job: int, alive: Alive)
    requires EndsOnce(alive) && OneExecutorEach(c, alive) && job in c.executors && !alive(c.tick, c.executors[job])
    ensures var d := c.(tick := c.tick + 1, executors := c.executors - {job});
            OneExecutorEach(d, alive) && |d.executors| == |c.executors| - 1
  {
    var d := c.(tick := c.tick + 1, executors := c.executors - {job});
    forall p: nat | p < |d.launched| && alive(d.tick, p) ensures HasExecutor(d, d.launched[p].jobId, p) {
      assert alive(c.tick, p);
      assert HasExecutor(c, c.launched[p].jobId, p);
    }
    assert c.executors.Keys == d.executors.Keys + {job};
  }

  lemma AskingKeeps(c: Commander, alive: Alive)
    requires EndsOnce(alive) && OneExecutorEach(c, alive)
    ensures OneExecutorEach(c.(tick := c.tick + 1), alive)
  {
    forall p: nat | p < |c.launched| && alive(c.tick + 1, p) ensures HasExecutor(c, c.launched[p].jobId, p) {
      assert alive(c.tick, p);
    }
  }

  lemma DispatchOneKeeps(c: Commander, alive: Alive)
    requires c.toRun != [] && EndsOnce(alive) && OneExecutorEach(c, alive)
    ensures var d := DispatchOne(c, alive);
            OneExecutorEach(d, alive) && |d.executors| <= |c.executors| + 1
  {
    hide OneExecutorEach, EndsOnce;
    var command := c.toRun[0];
    var c' := c.(toRun := c.toRun[1..]);
    QueuesDoNotMatter(c, c'.toRun, c.toRequeue, alive);
    if command.jobId in c.executors {
      if alive(c.tick, c.executors[command.jobId]) {
        AskingKeeps(c', alive);
        QueuesDoNotMatter(c'.(tick := c.tick + 1), c'.toRun, c.toRequeue + [command], alive);
      } else {
        EndedKeeps(c', command.jobId, alive);
        StartedKeeps(c'.(tick := c.tick + 1, executors := c.executors - {command.jobId}), command, alive);
      }
    } else {
      StartedKeeps(c', command, alive);
    }
  }

  predicate RunsFor(c: Commander, alive: Alive, p: nat, job: int) {
    p < |c.launched| && c.launched[p].jobId == job && alive(c.tick, p)
  }

  /** A command has to wait exactly if a process of its job, of all those ever started, still
      runs; otherwise a process is started for it. */
  lemma DispatchOneExact(c: Commander, alive: Alive)
    requires c.toRun != [] && OneExecutorEach(c, alive)
    ensures var d, waits := DispatchOne(c, alive), exists p: nat :: RunsFor(c, alive, p, c.toRun[0].jobId);
            && d.toRun == c.toRun[1..]
            && d.toRequeue == (if waits then c.toRequeue + [c.toRun[0]] else c.toRequeue)
            && d.launched == (if waits then c.launched else c.launched + [c.toRun[0]])
  {
    var job := c.toRun[0].jobId;
    if p: nat :| RunsFor(c, alive, p, job) {
      assert HasExecutor(c, job, p);
    } else if job in c.executors {
      assert !RunsFor(c, alive, c.executors[job], job);
    }
  }

  /** No command is lost or doubled, and none that was launched is taken back. */
  lemma DispatchOneConserves(c: Commander, alive: Alive)
    requires c.toRun != []
    ensures var d := DispatchOne(c, alive);
            Accounted(d) == Accounted(c) && c.launched <= d.launched && |d.toRun| < |c.toRun|
  {
    assert c.toRun == [c.toRun[0]] + c.toRun[1..];
  }

  /** Dispatching keeps every command, never starts a second process for a job, fills the
      table to one more than the maximum at most, and stops with nothing to run or a full table. */
  lemma {:induction false} DispatchKeeps(c: Commander, alive: Alive, max: nat)
    requires EndsOnce(alive) && OneExecutorEach(c, alive) && |c.executors| <= max + 1
    ensures var d := Dispatch(c, alive, max);
            && OneExecutorEach(d, alive) && Accounted(d) == Accounted(c) && c.launched <= d.launched
            && |d.executors| <= max + 1 && (d.toRun == [] || |d.executors| == max + 1)
    decreases |c.toRun|
  {
    hide OneExecutorEach, Accounted, DispatchOne, EndsOnce;
    if c.toRun != [] && |c.executors| <= max {
      DispatchOneKeeps(c, alive);
      DispatchOneConserves(c, alive);
      DispatchKeeps(DispatchOne(c, alive), alive, max);
    }
  }

  lemma {:induction false} CleanedKeeps(c: Commander, jobs: seq<int>, alive: Alive)
    requires EndsOnce(alive) && OneExecutorEach(c, alive)
    ensures var d := Cleaned(c, jobs, alive);
            && OneExecutorEach(d, alive) && d.toRun == c.toRun && d.toRequeue == c.toRequeue && d.launched == c.launched
            && d.executors.Keys <= c.executors.Keys && |d.executors| <= |c.executors|
    decreases |jobs|
  {
    if jobs != [] {
      AskingKeeps(c, alive);
      var ended := jobs[0] in c.executors && !alive(c.tick, c.executors[jobs[0]]);
      if ended {
        EndedKeeps(c, jobs[0], alive);
      }
      hide OneExecutorEach;
      var executors := if ended then c.executors - {jobs[0]} else c.executors;
      CleanedKeeps(c.(tick := c.tick + 1, executors := executors), jobs[1..], alive);
    }
  }

  /** No executor that had ended before the table was gone through is left in it. */
  lemma {:induction false} CleanedDropsEnded(c: Commander, jobs: seq<int>, alive: Alive, job: int)
    requires EndsOnce(alive) && job in jobs && job in Cleaned(c, jobs, alive).executors
    ensures job in c.executors && alive(c.tick, c.executors[job])
    decreases |jobs|
  {
    var ended := jobs[0] in c.executors && !alive(c.tick, c.executors[jobs[0]]);
    var c' := c.(tick := c.tick + 1, executors := if ended then c.executors - {jobs[0]} else c.executors);
    CleanedShrinks(c', jobs[1..], alive);
    if job != jobs[0] {
      CleanedDropsEnded(c', jobs[1..], alive, job);
    }
  }

  lemma {:induction false} CleanedShrinks(c: Commander, jobs: seq<int>, alive: Alive)
    ensures forall j :: j in Cleaned(c, jobs, alive).executors ==>
      j in c.executors && Cleaned(c, jobs, alive).executors[j] == c.executors[j]
    decreases |jobs|
  {
    if jobs != [] {
      var ended := jobs[0] in c.executors && !alive(c.tick, c.executors[jobs[0]]);
      var executors := if ended then c.executors - {jobs[0]} else c.executors;
      CleanedShrinks(c.(tick := c.tick + 1, executors := executors), jobs[1..], alive);
    }
  }

  // ------------------------------------------------------------------------- whole runs

  /** What one turn of the loop meets: a command or a timeout, and the order in which the
      table is gone through at the end. */
  datatype Input = Input(received: Option<Command>, order: seq<int>)

  function Turn(c: Commander, i: Input, alive: Alive, max: nat): Commander {
    var c1 := if i.received.Some? then c.(toRun := c.toRun + [i.received.value]) else c;
    var c2 := Dispatch(c1, alive, max);
    Cleaned(c2.(toRun := c2.toRun + c2.toRequeue, toRequeue := []), i.order, alive)
  }

  function After(c: Commander, inputs: seq<Input>, alive: Alive, max: nat): Commander
    decreases |inputs|
  {
    if inputs == [] then c else Turn(After(c, inputs[..|inputs|-1], alive, max), inputs[|inputs|-1], alive, max)
  }

  function Received(inputs: seq<Input>): multiset<Command>
    decreases |inputs|
  {
    if inputs == [] then multiset{}
    else
      Received(inputs[..|inputs|-1]) + NewlyReceived(inputs[|inputs|-1])
  }

  const NEW := Commander([], [], map[], [], 0)

  lemma QueuesDoNotMatter(c: Commander, toRun: seq<Command>, toRequeue: seq<Command>, alive: Alive)
    requires OneExecutorEach(c, alive)
    ensures OneExecutorEach(c.(toRun := toRun, toRequeue := toRequeue), alive)
  {
    var d := c.(toRun := toRun, toRequeue := toRequeue);
    forall p: nat | p < |d.launched| && alive(d.tick, p) ensures HasExecutor(d, d.launched[p].jobId, p) {
      assert HasExecutor(c, c.launched[p].jobId, p);
    }
  }

  /** What holds between turns. */
  ghost predicate Safe(c: Commander, alive: Alive, max: nat) {
    OneExecutorEach(c, alive) && |c.executors| <= max + 1 && c.toRequeue == []
  }

  function NewlyReceived(i: Input): multiset<Command> {
    if i.received.Some? then multiset{i.received.value} else multiset{}
  }

  lemma TurnIsSafe(c: Commander, i: Input, alive: Alive, max: nat)
    requires EndsOnce(alive) && Safe(c, alive, max)
    ensures var d := Turn(c, i, alive, max);
            Safe(d, alive, max) && c.launched <= d.launched && Accounted(d) == Accounted(c) + NewlyReceived(i)
  {
    hide Dispatch, Cleaned, OneExecutorEach, EndsOnce;
    var c1 := if i.received.Some? then c.(toRun := c.toRun + [i.received.value]) else c;
    QueuesDoNotMatter(c, c1.toRun, [], alive);
    DispatchKeeps(c1, alive, max);
    var c2 := Dispatch(c1, alive, max);
    QueuesDoNotMatter(c2, c2.toRun + c2.toRequeue, [], alive);
    CleanedKeeps(c2.(toRun := c2.toRun + c2.toRequeue, toRequeue := []), i.order, alive);
  }

  /** In every run, whenever the processes end: each command received is queued once or has
      been launched once, no job has two processes running, and the table never has more than
      one entry above the maximum. */
  lemma {:induction false} RunIsSafe(inputs: seq<Input>, alive: Alive, max: nat)
    requires EndsOnce(alive)
    ensures var c := After(NEW, inputs, alive, max);
            Safe(c, alive, max) && multiset(c.toRun) + multiset(c.launched) == Received(inputs)
    decreases |inputs|
  {
    if inputs != [] {
      hide Turn, Safe, EndsOnce;
      var c := After(NEW, inputs[..|inputs|-1], alive, max);
      RunIsSafe(inputs[..|inputs|-1], alive, max);
      TurnIsSafe(c, inputs[|inputs|-1], alive, max);
      SafeMeans(c, alive, max);
      SafeMeans(Turn(c, inputs[|inputs|-1], alive, max), alive, max);
    }
  }

  lemma SafeMeans(c: Commander, alive: Alive, max: nat)
    requires Safe(c, alive, max)
    ensures c.toRequeue == [] && Accounted(c) == multiset(c.toRun) + multiset(c.launched)
  {
  }

  // --------------------------------------------------------------------- the object itself

  class BipbipCommander {
    const max: nat
    var toRun: seq<Command>
    var toRequeue: seq<Command>
    var executors: map<int, nat>
    var timeout: int
    var started: nat
    var tick: nat
    ghost var launched: seq<Command>

    constructor (max: nat)
      ensures this.max == max && Value() == NEW && started == 0
    {
      this.max := max;
      toRun, toRequeue, executors, timeout, started, tick, launched := [], [], map[], -1, 0, 0, [];
    }

    ghost function Value(): Commander
      reads this
    {
      Commander(toRun, toRequeue, executors, launched, tick)
    }

    ghost predicate Valid()
      reads this
    {
      started == |launched|
    }

    method IsAlive(p: nat, alive: Alive) returns (r: bool)
      modifies this`tick
      ensures r == alive(old(tick), p) && tick == old(tick) + 1
    {
      r := alive(tick, p);
      tick := tick + 1;
    }

    method Start(command: Command)
      requires Valid()
      modifies this`executors, this`started, this`launched
      ensures Valid() && Value() == Started(old(Value()), command)
    {
      executors := executors[command.jobId := started];
      started := started + 1;
      launched := launched + [command];
    }

    /** Takes the first command and starts a process for it, unless one still runs for the job. */
    method LaunchNext(alive: Alive)
      requires Valid() && toRun != []
      modifies this
      ensures Valid() && Value() == DispatchOne(old(Value()), alive) && timeout == old(timeout)
    {
      var command := toRun[0];
      toRun := toRun[1..];
      var flagExec := true;
      if command.jobId in executors {
        var running := IsAlive(executors[command.jobId], alive);
        if !running {
          executors := executors - {command.jobId};
        } else {
          flagExec := false;
          toRequeue := toRequeue + [command];
        }
      }
      if flagExec {
        Start(command);
      }
    }

    method RemoveFinished(order: seq<int>, alive: Alive)
      requires Valid()
      modifies this`executors, this`tick
      ensures Valid() && Value() == Cleaned(old(Value()), order, alive)
    {
      var k := 0;
      while k < |order|
        invariant k <= |order| && Valid()
        invariant Cleaned(Value(), order[k..], alive) == Cleaned(old(Value()), order, alive)
      {
        assert order[k..][0] == order[k] && order[k..][1..] == order[k+1..];
        if order[k] in executors {
          var running := IsAlive(executors[order[k]], alive);
          if !running {
            executors := executors - {order[k]};
          }
        } else {
          tick := tick + 1;
        }
        k := k + 1;
      }
    }

    /** One turn of the loop. Afterwards the commander waits without limit for the next command
        only if none is queued. */
    method Iterate(i: Input, alive: Alive)
      requires Valid()
      modifies this
      ensures Valid() && Value() == Turn(old(Value()), i, alive, max)
      ensures timeout == -1 <==> toRun == []
    {
      match i.received {
        case Some(command) => toRun := toRun + [command];
        case None =>
      }
      ghost var c := Value();
      while |toRun| > 0 && |executors| <= max
        invariant Valid() && Dispatch(Value(), alive, max) == Dispatch(c, alive, max)
        decreases |toRun|
      {
        LaunchNext(alive);
      }
      toRun := toRun + toRequeue;
      toRequeue := [];
      RemoveFinished(i.order, alive);
      timeout := if toRun == [] then -1 else 500;
    }
  }

  // ------------------------------------------------------- the order of the commands

  /** What one pass over the queue does with a command: a process is started for it, it is put
      at the end of the queue, or it is not reached. */
  datatype Fate = Launched | PutBack | Left

  function FateOfFirst(c: Commander, alive: Alive): Fate
    requires c.toRun != []
  {
    var job := c.toRun[0].jobId;
    if job in c.executors && alive(c.tick, c.executors[job]) then PutBack else Launched
  }

  /** What the pass does with each command of the queue. */
  function Fates(c: Commander, alive: Alive, max: nat): (f: seq<Fate>)
    ensures |f| == |c.toRun|
    decreases |c.toRun|
  {
    if c.toRun == [] || |c.executors| > max then seq(|c.toRun|, _ => Left)
    else [FateOfFirst(c, alive)] + Fates(DispatchOne(c, alive), alive, max)
  }

  /** The commands with one fate, in their order. */
  function Chosen(q: seq<Command>, f: seq<Fate>, which: Fate): seq<Command>
    requires |q| == |f|
    decreases |q|
  {
    if q == [] then [] else (if f[0] == which then [q[0]] else []) + Chosen(q[1..], f[1..], which)
  }

  lemma {:induction false} AllLeft(q: seq<Command>, f: seq<Fate>)
    requires |q| == |f| && forall k :: 0 <= k < |f| ==> f[k] == Left
    ensures Chosen(q, f, Launched) == [] && Chosen(q, f, PutBack) == [] && Chosen(q, f, Left) == q
    decreases |q|
  {
    if q != [] {
      AllLeft(q[1..], f[1..]);
    }
  }

  lemma FirstByFate(c: Commander, alive: Alive)
    requires c.toRun != []
    ensures var (d, w) := (DispatchOne(c, alive), FateOfFirst(c, alive));
            && d.launched == c.launched + (if w == Launched then [c.toRun[0]] else [])
            && d.toRequeue == c.toRequeue + (if w == PutBack then [c.toRun[0]] else [])
            && d.toRun == c.toRun[1..] && w != Left
  {
  }

  lemma FatesStep(c: Commander, alive: Alive, max: nat)
    requires c.toRun != [] && |c.executors| <= max
    ensures var (d, f) := (DispatchOne(c, alive), Fates(c, alive, max));
            && f[0] == FateOfFirst(c, alive) && f[1..] == Fates(d, alive, max)
            && Dispatch(c, alive, max) == Dispatch(d, alive, max)
  {
  }

  lemma ChosenStep(q: seq<Command>, f: seq<Fate>, which: Fate, before: seq<Command>)
    requires |q| == |f| > 0
    ensures before + Chosen(q, f, which)
         == before + (if f[0] == which then [q[0]] else []) + Chosen(q[1..], f[1..], which)
  {
  }

  lemma LeftStays(f: seq<Fate>)
    requires f != [] && f[0] != Left && forall i, j :: 0 <= i < j < |f[1..]| && f[1..][i] == Left ==> f[1..][j] == Left
    ensures forall i, j :: 0 <= i < j < |f| && f[i] == Left ==> f[j] == Left
  {
    forall i, j | 0 <= i < j < |f| && f[i] == Left ensures f[j] == Left {
      assert f[1..][i-1] == f[i] && f[1..][j-1] == f[j];
    }
  }

  /** A pass starts, requeues and leaves the commands by their fates, each in their order, and
      leaves only what comes last. */
  lemma {:induction false} DispatchByFate(c: Commander, alive: Alive, max: nat)
    ensures var (d, f) := (Dispatch(c, alive, max), Fates(c, alive, max));
            && d.launched == c.launched + Chosen(c.toRun, f, Launched)
            && d.toRequeue == c.toRequeue + Chosen(c.toRun, f, PutBack)
            && d.toRun == Chosen(c.toRun, f, Left)
            && forall i, j :: 0 <= i < j < |f| && f[i] == Left ==> f[j] == Left
    decreases |c.toRun|
  {
    var f := Fates(c, alive, max);
    if c.toRun == [] || |c.executors| > max {
      AllLeft(c.toRun, f);
    } else {
      hide *;
      var c' := DispatchOne(c, alive);
      FirstByFate(c, alive);
      FatesStep(c, alive, max);
      DispatchByFate(c', alive, max);
      ChosenStep(c.toRun, f, Launched, c.launched);
      ChosenStep(c.toRun, f, PutBack, c.toRequeue);
      ChosenStep(c.toRun, f, Left, []);
      assert forall s: seq<Command> :: [] + s == s;
      LeftStays(f);
    }
  }

  lemma {:induction false} CleanedLeavesQueues(c: Commander, jobs: seq<int>, alive: Alive)
    ensures var d := Cleaned(c, jobs, alive);
            d.toRun == c.toRun && d.toRequeue == c.toRequeue && d.launched == c.launched
    decreases |jobs|
  {
    if jobs != [] {
      var c' := c.(tick := c.tick + 1);
      var ended := jobs[0] in c.executors && !alive(c.tick, c.executors[jobs[0]]);
      CleanedLeavesQueues(if ended then c'.(executors := c.executors - {jobs[0]}) else c', jobs[1..], alive);
    }
  }

  /** A whole turn: a command received stands behind the queue when the pass begins; after the turn
      the queue holds what the pass has left and then what it has put back. */
  lemma TurnByFate(c: Commander, i: Input, alive: Alive, max: nat)
    requires c.toRequeue == []
    ensures var q := c.toRun + (if i.received.Some? then [i.received.value] else []);
            var d, f := Turn(c, i, alive, max), Fates(c.(toRun := q), alive, max);
            && d.launched == c.launched + Chosen(q, f, Launched)
            && d.toRun == Chosen(q, f, Left) + Chosen(q, f, PutBack) && d.toRequeue == []
  {
    hide Dispatch, Cleaned, Fates, Chosen;
    var q := c.toRun + (if i.received.Some? then [i.received.value] else []);
    var c1 := c.(toRun := q);
    DispatchByFate(c1, alive, max);
    var c2 := Dispatch(c1, alive, max);
    CleanedLeavesQueues(c2.(toRun := c2.toRun + c2.toRequeue, toRequeue := []), i.order, alive);
    assert i.received.None? ==> c1 == c;
  }

  /** How many of the first `k` commands have the fate. */
  function Count(f: seq<Fate>, which: Fate, k: nat): nat
    requires k <= |f|
  {
    if k == 0 then 0 else Count(f, which, k - 1) + (if f[k-1] == which then 1 else 0)
  }

  lemma {:induction false} CountStep(f: seq<Fate>, which: Fate, k: nat)
    requires 0 < k <= |f|
    ensures Count(f, which, k) == (if f[0] == which then 1 else 0) + Count(f[1..], which, k - 1)
    decreases k
  {
    if k > 1 {
      CountStep(f, which, k - 1);
      assert f[1..][k-2] == f[k-1];
    }
  }

  lemma {:induction false} CountGrows(f: seq<Fate>, which: Fate, i: nat, j: nat)
    requires i < j <= |f|
    ensures Count(f, which, i) + (if f[i] == which then 1 else 0) <= Count(f, which, j)
    decreases j
  {
    if i < j - 1 {
      CountGrows(f, which, i, j - 1);
    }
  }

  /** Command `i` stands among those of its fate behind as many as have it before. */
  lemma {:induction false} ChosenAt(q: seq<Command>, f: seq<Fate>, i: nat)
    requires |q| == |f| && i < |q|
    ensures forall w :: |Chosen(q, f, w)| == Count(f, w, |f|)
    ensures Count(f, f[i], i) < |Chosen(q, f, f[i])| && Chosen(q, f, f[i])[Count(f, f[i], i)] == q[i]
    decreases |q|
  {
    forall w ensures |Chosen(q, f, w)| == Count(f, w, |f|) {
      ChosenLength(q, f, w);
    }
    if i > 0 {
      ChosenAt(q[1..], f[1..], i - 1);
      CountStep(f, f[i], i);
    }
  }

  lemma {:induction false} ChosenLength(q: seq<Command>, f: seq<Fate>, which: Fate)
    requires |q| == |f|
    ensures |Chosen(q, f, which)| == Count(f, which, |f|)
    decreases |q|
  {
    if q != [] {
      ChosenLength(q[1..], f[1..], which);
      CountStep(f, which, |f|);
    }
  }

  /** The commands of the queue in the order in which they are served: those started in the
      pass, then those left, then those requeued. */
  function Line(q: seq<Command>, f: seq<Fate>): seq<Command>
    requires |q| == |f|
  {
    Chosen(q, f, Launched) + Chosen(q, f, Left) + Chosen(q, f, PutBack)
  }

  /** Where command `i` of the queue stands in the line. */
  function Spot(f: seq<Fate>, i: nat): nat
    requires i < |f|
  {
    match f[i]
    case Launched => Count(f, Launched, i)
    case Left => Count(f, Launched, |f|) + Count(f, Left, i)
    case PutBack => Count(f, Launched, |f|) + Count(f, Left, |f|) + Count(f, PutBack, i)
  }

  lemma SpotInLine(q: seq<Command>, f: seq<Fate>, i: nat)
    requires |q| == |f| && i < |q|
    ensures Spot(f, i) < |Line(q, f)| && Line(q, f)[Spot(f, i)] == q[i]
  {
    ChosenAt(q, f, i);
    assert |Chosen(q, f, Launched)| == Count(f, Launched, |f|) && |Chosen(q, f, Left)| == Count(f, Left, |f|);
  }

  /** After a pass the line starts with what was launched, goes on with the queue and ends with
      what was requeued. Two commands keep their order in it exactly unless the first is
      requeued in a pass that launches or leaves the second. */
  lemma OrderIsKept(c: Commander, alive: Alive, max: nat, i: nat, j: nat)
    requires i < j < |c.toRun| && c.toRequeue == []
    ensures var (d, f) := (Dispatch(c, alive, max), Fates(c, alive, max));
            && c.launched + Line(c.toRun, f) == d.launched + d.toRun + d.toRequeue
            && Spot(f, i) < |Line(c.toRun, f)| && Line(c.toRun, f)[Spot(f, i)] == c.toRun[i]
            && Spot(f, j) < |Line(c.toRun, f)| && Line(c.toRun, f)[Spot(f, j)] == c.toRun[j]
            && Spot(f, i) != Spot(f, j)
            && (Spot(f, i) < Spot(f, j) <==> f[i] == PutBack ==> f[j] == PutBack)
  {
    hide Dispatch, Fates, Chosen;
    var f := Fates(c, alive, max);
    DispatchByFate(c, alive, max);
    SpotInLine(c.toRun, f, i);
    SpotInLine(c.toRun, f, j);
    SpotOrder(f, i, j);
  }

  lemma SpotOrder(f: seq<Fate>, i: nat, j: nat)
    requires i < j < |f| && (f[i] == Left ==> f[j] == Left)
    ensures Spot(f, i) != Spot(f, j)
    ensures Spot(f, i) < Spot(f, j) <==> f[i] == PutBack ==> f[j] == PutBack
  {
    CountGrows(f, f[i], i, j);
    CountGrows(f, f[i], i, |f|);
    CountGrows(f, f[j], j, |f|);
  }

  /** No process ends from now on. */
  ghost predicate Steady(alive: Alive, tick: nat) {
    forall p, t :: tick <= t ==> alive(t, p) == alive(tick, p)
  }

  lemma {:induction false} WaitingStaysRequeued(c: Commander, alive: Alive, max: nat, job: int, j: nat)
    requires Steady(alive, c.tick) && job in c.executors && alive(c.tick, c.executors[job])
    requires j < |c.toRun| && c.toRun[j].jobId == job && Dispatch(c, alive, max).toRun == []
    ensures Fates(c, alive, max)[j] == PutBack
    decreases |c.toRun|
  {
    if j > 0 {
      var d := DispatchOne(c, alive);
      FatesStep(c, alive, max);
      WaitingStaysRequeued(d, alive, max, job, j - 1);
    }
  }

  /** When no process ends during a pass that reaches the whole queue, the commands of one job
      keep their order: the second is put back if the first is. */
  lemma {:induction false} SteadyKeepsOrder(c: Commander, alive: Alive, max: nat, i: nat, j: nat)
    requires Steady(alive, c.tick) && Dispatch(c, alive, max).toRun == []
    requires i < j < |c.toRun| && c.toRun[i].jobId == c.toRun[j].jobId
    ensures Fates(c, alive, max)[i] == PutBack ==> Fates(c, alive, max)[j] == PutBack
    decreases |c.toRun|
  {
    if i == 0 {
      if FateOfFirst(c, alive) == PutBack {
        WaitingStaysRequeued(c, alive, max, c.toRun[0].jobId, j);
      }
    } else {
      var d := DispatchOne(c, alive);
      FatesStep(c, alive, max);
      FirstByFate(c, alive);
      hide Dispatch, Fates, DispatchOne;
      SteadyKeepsOrder(d, alive, max, i - 1, j - 1);
    }
  }

  /** From the start, three commands of one job received in turn may be launched first, third,
      second: the second is requeued while the process of the first still runs, and when the
      third is looked at that process has ended. */
  lemma OrderMayChange(a: Command, b: Command, c: Command, max: nat) returns (inputs: seq<Input>, alive: Alive)
    requires a.jobId == b.jobId == c.jobId && max >= 1
    ensures EndsOnce(alive) && |inputs| == 3
    ensures inputs[0].received == Some(a) && inputs[1].received == Some(b) && inputs[2].received == Some(c)
    ensures var s := After(NEW, inputs, alive, max); s.launched == [a, c] && s.toRun == [b]
  {
    alive := (t, p) => p != 0 || t < 4;
    var job := a.jobId;
    var i1, i2, i3 := Input(Some(a), [job]), Input(Some(b), [job]), Input(Some(c), [job]);
    inputs := [i1, i2, i3];
    var c1 := FirstTurn(a, i1, alive, max);
    var c2 := SecondTurn(a, b, i2, c1, alive, max);
    ThirdTurn(a, b, c, i3, c2, alive, max);
    hide Turn;
    assert inputs[..2] == [i1, i2] && [i1, i2][..1] == [i1] && [i1][..0] == [];
    assert After(NEW, [], alive, max) == NEW;
    assert After(NEW, [i1], alive, max) == c1;
    assert After(NEW, [i1, i2], alive, max) == c2;
  }

  lemma FirstTurn(a: Command, i: Input, alive: Alive, max: nat) returns (c1: Commander)
    requires i == Input(Some(a), [a.jobId]) && max >= 1 && alive(0, 0)
    ensures c1 == Turn(NEW, i, alive, max) == Commander([], [], map[a.jobId := 0], [a], 1)
  {
    var c := NEW.(toRun := [a]);
    var d := Commander([], [], map[a.jobId := 0], [a], 0);
    assert NEW.toRun + [a] == [a];
    assert DispatchOne(c, alive) == d && Dispatch(c, alive, max) == Dispatch(d, alive, max) == d;
    c1 := Commander([], [], map[a.jobId := 0], [a], 1);
    assert [a.jobId][1..] == [] && Cleaned(d, [a.jobId], alive) == Cleaned(c1, [], alive) == c1;
    assert d.(toRun := d.toRun + d.toRequeue, toRequeue := []) == d;
  }

  lemma SecondTurn(a: Command, b: Command, i: Input, c1: Commander, alive: Alive, max: nat) returns (c2: Commander)
    requires a.jobId == b.jobId && i == Input(Some(b), [a.jobId]) && max >= 1 && alive(1, 0) && alive(2, 0)
    requires c1 == Commander([], [], map[a.jobId := 0], [a], 1)
    ensures c2 == Turn(c1, i, alive, max) == Commander([b], [], map[a.jobId := 0], [a], 3)
  {
    var c := c1.(toRun := [b]);
    var d := Commander([], [b], map[a.jobId := 0], [a], 2);
    var e := Commander([b], [], map[a.jobId := 0], [a], 2);
    assert c1.toRun + [b] == [b] && |c.executors| == 1;
    assert DispatchOne(c, alive) == d && Dispatch(c, alive, max) == Dispatch(d, alive, max) == d;
    assert d.(toRun := d.toRun + d.toRequeue, toRequeue := []) == e;
    c2 := Commander([b], [], map[a.jobId := 0], [a], 3);
    assert [a.jobId][1..] == [] && Cleaned(e, [a.jobId], alive) == Cleaned(c2, [], alive) == c2;
  }

  lemma ThirdTurn(a: Command, b: Command, c: Command, i: Input, c2: Commander, alive: Alive, max: nat)
    requires a.jobId == b.jobId == c.jobId && i == Input(Some(c), [a.jobId]) && max >= 1
    requires alive(3, 0) && !alive(4, 0) && alive(5, 1)
    requires c2 == Commander([b], [], map[a.jobId := 0], [a], 3)
    ensures var s := Turn(c2, i, alive, max); s.launched == [a, c] && s.toRun == [b]
  {
    var q := c2.(toRun := [b, c]);
    var d := Commander([c], [b], map[a.jobId := 0], [a], 4);
    var e := Commander([], [b], map[a.jobId := 1], [a, c], 5);
    var f := Commander([b], [], map[a.jobId := 1], [a, c], 5);
    assert c2.toRun + [c] == [b, c] && |q.executors| == 1;
    assert DispatchOne(q, alive) == d && DispatchOne(d, alive) == e;
    assert Dispatch(q, alive, max) == Dispatch(d, alive, max) == Dispatch(e, alive, max) == e;
    assert e.(toRun := e.toRun + e.toRequeue, toRequeue := []) == f;
    assert [a.jobId][1..] == [] && Cleaned(f, [a.jobId], alive) == Cleaned(f.(tick := 6), [], alive) == f.(tick := 6);
  }
}
