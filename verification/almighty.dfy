/** The command automaton of the server (oar/modules/almighty.py). What it reads from the
    outside - messages, the clock, the results of other modules, the stop signal - is the
    input of each turn of its loop.
 */
module Almighty {

  datatype Command =
    | Qsub | QsubI | Term | BipBip | Scheduling | Qresume | Walltime
    | Qdel | Villains | Finaud | Time | ChState | Unknown(text: string)

  /** Commands that make the scheduler run. */
  predicate AsksScheduling(c: Command) {
    c.Qsub? || c.QsubI? || c.Term? || c.BipBip? || c.Scheduling? || c.Qresume? || c.Walltime?
  }

  datatype State = Qget | Scheduler | TimeUpdate | CheckForVillains | CheckNodeStates | Leon | ChangeNodeState

  datatype Config = Config(schedulerTimeout: int, minBetweenCalls: int, villainsTimeout: int, checkNodesTimeout: int,
                           maxRead: nat)

  /** What one turn of the loop meets: whether the daemon was told to stop, whether the energy
      module has died, the messages read, the clock before and after the work of the turn, and
      the results of the module called and of the scheduler. */
  datatype Input = Input(stop: bool, hulotDied: bool, messages: seq<Command>, now: int, later: int, checked: int,
                         scheduled: int)

  datatype Automaton = Automaton(state: State, queue: seq<Command>, wanted: bool, lastScheduler: int, lastVillains: int,
                                 lastCheckNodes: int, finish: bool, stopped: bool)

  function AddTo(queue: seq<Command>, c: Command): seq<Command> {
    if c in queue then queue else queue + [c]
  }

  function ReadInto(queue: seq<Command>, messages: seq<Command>): (q: seq<Command>)
    ensures messages != [] ==> q != []
    ensures queue <= q
    decreases |messages|
  {
    if messages == [] then queue
    else
      var q := ReadInto(queue, messages[..|messages|-1]);
      AddTo(q, messages[|messages|-1])
  }

  /** The command taken from the queue, and what is left of it: a Time command is passed over
      when another one waits. */
  function Popped(queue: seq<Command>): (p: (Command, seq<Command>))
    requires queue != []
  {
    if queue[0] == Time && |queue| > 1 then (queue[1], queue[2..]) else (queue[0], queue[1..])
  }

  function StateFor(c: Command): State {
    if AsksScheduling(c) then Scheduler
    else if c == Qdel then Leon
    else if c == Villains then CheckForVillains
    else if c == Finaud then CheckNodeStates
    else if c == Time then TimeUpdate
    else if c == ChState then ChangeNodeState
    else Qget
  }

  /** A run of the scheduler is due: the last run is too long ago, or it was wanted and the
      distance to the last run is kept. */
  predicate Due(a: Automaton, now: int, cfg: Config) {
    || now >= a.lastScheduler + cfg.schedulerTimeout
    || (a.wanted && now >= a.lastScheduler + cfg.minBetweenCalls)
  }

  /** The commands that timeouts add to the queue. */
  function TimedOut(a: Automaton, now: int, cfg: Config): seq<Command> {
    var q0 := if Due(a, now, cfg) then AddTo(a.queue, Scheduling) else a.queue;
    var q1 := if now >= a.lastVillains + cfg.villainsTimeout then AddTo(q0, Villains) else q0;
    if now >= a.lastCheckNodes + cfg.checkNodesTimeout && cfg.checkNodesTimeout > 0 then AddTo(q1, Finaud) else q1
  }

  predicate RunsScheduler(a: Automaton, i: Input, cfg: Config) {
    && !a.stopped && !(a.finish || i.stop) && !i.hulotDied && a.state == Scheduler
    && i.now >= a.lastScheduler + cfg.minBetweenCalls && i.checked == 0
  }

  function InScheduler(a: Automaton, i: Input, cfg: Config): Automaton {
    if i.now < a.lastScheduler + cfg.minBetweenCalls then a.(wanted := true, state := TimeUpdate)
    else if i.checked == 2 then a.(wanted := false, state := Leon, queue := AddTo(a.queue, Term))
    else if i.checked == 1 then a.(wanted := false)
    else if i.checked == 0 then
      var b := a.(wanted := false, lastScheduler := i.later);
      if i.scheduled == 0 then b.(state := TimeUpdate)
      else if i.scheduled == 1 then b
      else if i.scheduled == 2 then b.(state := Leon)
      else b.(finish := true)
    else a.(wanted := false, finish := true)
  }

  /** One turn of the loop. When the energy module has died the program tries to start it again
      with a call that cannot be made, and ends with an error. */
  function Turn(a: Automaton, i: Input, cfg: Config): Automaton
    requires |i.messages| == cfg.maxRead > 0
  {
    if a.stopped then a
    else if a.finish || i.stop then a.(finish := true, stopped := true)
    else if i.hulotDied then a.(stopped := true)
    else
      match a.state
      case Qget =>
        var p := Popped(ReadInto(a.queue, i.messages));
        a.(queue := p.1, state := StateFor(p.0))
      case Scheduler => InScheduler(a, i, cfg)
      case TimeUpdate => a.(queue := TimedOut(a, i.now, cfg), state := Qget)
      case CheckForVillains =>
        var b := a.(lastVillains := i.later);
        if i.checked == 1 then b.(state := Leon)
        else if i.checked == 0 then b.(state := TimeUpdate)
        else b.(finish := true)
      case CheckNodeStates =>
        var b := a.(lastCheckNodes := i.later);
        if i.checked == 1 then b.(state := ChangeNodeState)
        else if i.checked == 0 then b.(state := TimeUpdate)
        else b.(finish := true)
      case Leon => a.(state := TimeUpdate, queue := if i.checked == 1 then AddTo(a.queue, Term) else a.queue)
      case ChangeNodeState =>
        if i.checked == 2 then a.(state := Leon, queue := AddTo(a.queue, Term))
        else if i.checked == 1 then a.(state := Scheduler)
        else if i.checked == 0 then a.(state := TimeUpdate)
        else a.(finish := true)
  }

  // --------------------------------------------------------------------- the object itself

  class Server {
    const cfg: Config
    var state: State
    var commandQueue: seq<Command>
    var schedulerWanted: bool
    var lastScheduler: int
    var lastVillains: int
    var lastCheckNodes: int
    var finishTag: bool
    ghost var stopped: bool

    constructor (cfg: Config)
      ensures this.cfg == cfg && Value() == Automaton(Qget, [], false, 0, 0, 0, false, false)
    {
      this.cfg := cfg;
      state, commandQueue, schedulerWanted := Qget, [], false;
      lastScheduler, lastVillains, lastCheckNodes := 0, 0, 0;
      finishTag, stopped := false, false;
    }

    ghost function Value(): Automaton
      reads this
    {
      Automaton(state, commandQueue, schedulerWanted, lastScheduler, lastVillains, lastCheckNodes, finishTag, stopped)
    }

    /** Adds a command that is not in the queue yet. */
    method AddCommand(command: Command)
      modifies this`commandQueue
      ensures commandQueue == AddTo(old(commandQueue), command)
    {
      var flag := true;
      var k := 0;
      while k < |commandQueue|
        invariant k <= |commandQueue| && flag && commandQueue == old(commandQueue)
        invariant command !in commandQueue[..k]
      {
        if commandQueue[k] == command {
          flag := false;
          break;
        }
        k := k + 1;
      }
      if flag {
        commandQueue := commandQueue + [command];
      }
    }

    /** Reads as many messages as may be read in a row. */
    method ReadCommands(messages: seq<Command>)
      modifies this`commandQueue
      ensures commandQueue == ReadInto(old(commandQueue), messages)
    {
      var remaining := |messages|;
      while remaining > 0
        invariant 0 <= remaining <= |messages|
        invariant commandQueue == ReadInto(old(commandQueue), messages[..|messages|-remaining])
      {
        ghost var read := messages[..|messages|-remaining+1];
        assert read[..|read|-1] == messages[..|messages|-remaining];
        AddCommand(messages[|messages|-remaining]);
        remaining := remaining - 1;
      }
      assert messages[..|messages|] == messages;
    }

    method UpdateTime(current: int)
      modifies this`commandQueue
      ensures commandQueue == TimedOut(old(Value()), current, cfg)
    {
      if current >= lastScheduler + cfg.schedulerTimeout
        || (schedulerWanted && current >= lastScheduler + cfg.minBetweenCalls)
      {
        AddCommand(Scheduling);
      }
      if current >= lastVillains + cfg.villainsTimeout {
        AddCommand(Villains);
      }
      if current >= lastCheckNodes + cfg.checkNodesTimeout && cfg.checkNodesTimeout > 0 {
        AddCommand(Finaud);
      }
    }

    method TakeCommand(messages: seq<Command>)
      requires messages != []
      modifies this`commandQueue, this`state
      ensures var p := Popped(ReadInto(old(commandQueue), messages)); commandQueue == p.1 && state == StateFor(p.0)
    {
      ReadCommands(messages);
      var command := commandQueue[0];
      commandQueue := commandQueue[1..];
      if command == Time && commandQueue != [] {
        command := commandQueue[0];
        commandQueue := commandQueue[1..];
      }
      state := StateFor(command);
    }

    method Schedule(i: Input)
      modifies this
      ensures Value() == InScheduler(old(Value()), i, cfg)
    {
      if i.now >= lastScheduler + cfg.minBetweenCalls {
        schedulerWanted := false;
        if i.checked == 2 {
          state := Leon;
          AddCommand(Term);
        } else if i.checked == 1 {
        } else if i.checked == 0 {
          lastScheduler := i.later;
          if i.scheduled == 0 {
            state := TimeUpdate;
          } else if i.scheduled == 1 {
          } else if i.scheduled == 2 {
            state := Leon;
          } else {
            finishTag := true;
          }
        } else {
          finishTag := true;
        }
      } else {
        schedulerWanted := true;
        state := TimeUpdate;
      }
    }

    /** One turn of the loop; tells whether the daemon has stopped. */
    method Iterate(i: Input) returns (exit: bool)
      requires |i.messages| == cfg.maxRead > 0 && !stopped
      modifies this
      ensures Value() == Turn(old(Value()), i, cfg) && exit == stopped
    {
      exit := false;
      if finishTag || i.stop {
        finishTag, stopped := true, true;
        return true;
      }
      if i.hulotDied {
        stopped := true;
        return true;
      }
      match state {
        case Qget => TakeCommand(i.messages);
        case Scheduler => Schedule(i);
        case TimeUpdate =>
          UpdateTime(i.now);
          state := Qget;
        case CheckForVillains =>
          lastVillains := i.later;
          if i.checked == 1 {
            state := Leon;
          } else if i.checked == 0 {
            state := TimeUpdate;
          } else {
            finishTag := true;
          }
        case CheckNodeStates =>
          lastCheckNodes := i.later;
          if i.checked == 1 {
            state := ChangeNodeState;
          } else if i.checked == 0 {
            state := TimeUpdate;
          } else {
            finishTag := true;
          }
        case Leon =>
          state := TimeUpdate;
          if i.checked == 1 {
            AddCommand(Term);
          }
        case ChangeNodeState =>
          if i.checked == 2 {
            state := Leon;
            AddCommand(Term);
          } else if i.checked == 1 {
            state := Scheduler;
          } else if i.checked == 0 {
            state := TimeUpdate;
          } else {
            finishTag := true;
          }
      }
    }

    /** The loop, for as long as there are inputs or until the daemon stops. */
    method Run(inputs: seq<Input>) returns (exit: bool)
      requires ProperInputs(inputs, cfg) && !stopped
      modifies this
      ensures Value() == After(old(Value()), inputs, cfg) && exit == stopped
    {
      exit := false;
      var k := 0;
      while k < |inputs| && !exit
        invariant k <= |inputs| && exit == stopped
        invariant Value() == After(old(Value()), inputs[..k], cfg)
        decreases |inputs| - k
      {
        assert inputs[..k+1][..k] == inputs[..k];
        exit := Iterate(inputs[k]);
        k := k + 1;
      }
      StaysStopped(old(Value()), inputs, cfg, k, |inputs|);
      assert inputs[..|inputs|] == inputs;
    }
  }

  // -------------------------------------------------------------------------------- runs

  predicate ProperInputs(inputs: seq<Input>, cfg: Config) {
    cfg.maxRead > 0 && forall k :: 0 <= k < |inputs| ==> |inputs[k].messages| == cfg.maxRead
  }

  /** The automaton after all inputs. */
  function After(a: Automaton, inputs: seq<Input>, cfg: Config): Automaton
    requires ProperInputs(inputs, cfg)
    decreases |inputs|
  {
    if inputs == [] then a else Turn(After(a, inputs[..|inputs|-1], cfg), inputs[|inputs|-1], cfg)
  }

  lemma {:induction false} StaysStopped(a: Automaton, inputs: seq<Input>, cfg: Config, k: nat, n: nat)
    requires ProperInputs(inputs, cfg) && k <= n <= |inputs| && (k < n ==> After(a, inputs[..k], cfg).stopped)
    ensures After(a, inputs[..n], cfg) == After(a, inputs[..k], cfg)
    decreases n - k
  {
    if k < n {
      StaysStopped(a, inputs, cfg, k, n - 1);
      assert inputs[..n][..n-1] == inputs[..n-1];
    }
  }

  // ------------------------------------------------------- reading on when nothing waits

  /** The messages up to the first Time, which says that nothing waits to be read. */
  function UntilTime(messages: seq<Command>): seq<Command>
    decreases |messages|
  {
    if messages == [] then [] else if messages[0] == Time then [Time] else [messages[0]] + UntilTime(messages[1..])
  }

  lemma {:induction false} UntilTimeIsFirst(messages: seq<Command>)
    ensures UntilTime(messages) <= messages
    ensures UntilTime(messages) == messages <==> forall k :: 0 <= k < |messages| - 1 ==> messages[k] != Time
    decreases |messages|
  {
    if messages != [] && messages[0] != Time {
      var rest := messages[1..];
      UntilTimeIsFirst(rest);
      assert messages == [messages[0]] + rest;
      assert forall k :: 0 <= k < |rest| ==> rest[k] == messages[k+1];
    }
  }

  lemma {:induction false} ReadInParts(queue: seq<Command>, messages: seq<Command>, n: nat)
    requires n <= |messages|
    ensures ReadInto(queue, messages) == ReadInto(ReadInto(queue, messages[..n]), messages[n..])
    decreases |messages| - n
  {
    if n == |messages| {
      assert messages[..n] == messages;
    } else {
      var m := |messages| - 1;
      var init := messages[..m];
      ReadInParts(queue, init, n);
      assert init[..n] == messages[..n] && init[n..] == messages[n..][..m-n] && messages[n..][m-n] == messages[m];
    }
  }

  lemma {:induction false} ReadNothingNew(queue: seq<Command>, messages: seq<Command>)
    ensures ReadInto(queue, messages) == queue <==> forall k :: 0 <= k < |messages| ==> messages[k] in queue
    decreases |messages|
  {
    if messages != [] {
      var n := |messages| - 1;
      ReadNothingNew(queue, messages[..n]);
      assert queue <= ReadInto(queue, messages[..n]) <= ReadInto(queue, messages);
    }
  }

  /** Reading is meant to stop when nothing waits any more, but goes on. It comes to the same
      exactly when each message read after the first Time was in the queue by then; with one
      message a turn, as the program is set up, it always does. */
  lemma ReadingOnMatters(queue: seq<Command>, messages: seq<Command>)
    ensures |UntilTime(messages)| <= |messages|
    ensures ReadInto(queue, messages) == ReadInto(queue, UntilTime(messages)) <==>
            forall k :: |UntilTime(messages)| <= k < |messages| ==> messages[k] in ReadInto(queue, UntilTime(messages))
    ensures |messages| == 1 ==> UntilTime(messages) == messages
  {
    hide ReadInto, UntilTime;
    UntilTimeIsFirst(messages);
    var n := |UntilTime(messages)|;
    assert messages[..n] == UntilTime(messages);
    ReadInParts(queue, messages, n);
    ReadNothingNew(ReadInto(queue, messages[..n]), messages[n..]);
    assert forall k :: n <= k < |messages| ==> messages[k] == messages[n..][k-n];
    assert forall k :: 0 <= k < |messages[n..]| ==> messages[n..][k] == messages[k+n];
  }

  // ------------------------------------------------------------ what is in the queue

  lemma AddMembers(queue: seq<Command>, c: Command)
    ensures forall x :: x in AddTo(queue, c) <==> x in queue || x == c
  {
  }

  lemma {:induction false} ReadMembers(queue: seq<Command>, messages: seq<Command>)
    ensures forall x :: x in ReadInto(queue, messages) <==> x in queue || x in messages
    decreases |messages|
  {
    hide AddTo;
    if messages != [] {
      var n := |messages| - 1;
      ReadMembers(queue, messages[..n]);
      AddMembers(ReadInto(queue, messages[..n]), messages[n]);
      assert messages == messages[..n] + [messages[n]];
    }
  }

  lemma PopMembers(queue: seq<Command>)
    requires queue != []
    ensures var p := Popped(queue);
            && (forall x :: x in p.1 ==> x in queue) && p.0 in queue
            && (forall x :: x in queue && x != Time ==> x == p.0 || x in p.1)
  {
    var n := |queue| - |Popped(queue).1|;
    assert queue == queue[..n] + queue[n..];
  }

  lemma TimedOutMembers(a: Automaton, now: int, cfg: Config)
    ensures forall x :: x in a.queue ==> x in TimedOut(a, now, cfg)
  {
  }

  // -------------------------------------------------- no request for scheduling is lost

  predicate Requested(queue: seq<Command>) {
    || Qsub in queue || QsubI in queue || Term in queue || BipBip in queue || Scheduling in queue
    || Qresume in queue || Walltime in queue
  }

  /** A request for scheduling has not been met yet. */
  predicate Pending(a: Automaton) {
    a.wanted || a.state == Scheduler || Requested(a.queue)
  }

  predicate Stopping(a: Automaton) {
    a.finish || a.stopped
  }

  predicate Receives(a: Automaton, i: Input) {
    !a.stopped && !a.finish && !i.stop && !i.hulotDied && a.state == Qget && Requested(i.messages)
  }

  /** One turn: a request that is pending or comes in is pending afterwards, unless the
      scheduler was run or the daemon is about to stop. */
  lemma TurnKeepsRequest(a: Automaton, i: Input, cfg: Config)
    requires |i.messages| == cfg.maxRead > 0 && (Pending(a) || Receives(a, i))
    ensures var b := Turn(a, i, cfg); Pending(b) || RunsScheduler(a, i, cfg) || Stopping(b)
  {
    hide AddTo, TimedOut, ReadInto, Popped;
    AddMembers(a.queue, Term);
    TimedOutMembers(a, i.now, cfg);
    ReadMembers(a.queue, i.messages);
    PopMembers(ReadInto(a.queue, i.messages));
  }

  /** In every run: from the turn at which a request for scheduling is pending or comes in, one
      stays pending until the scheduler is run or the daemon is about to stop. */
  lemma {:induction false} NoRequestIsLost(a: Automaton, inputs: seq<Input>, cfg: Config, j: nat, n: nat)
    requires ProperInputs(inputs, cfg) && j < n <= |inputs|
    requires var b := After(a, inputs[..j], cfg); Pending(b) || Receives(b, inputs[j])
    requires forall k :: j <= k < n ==> !RunsScheduler(After(a, inputs[..k], cfg), inputs[k], cfg)
    ensures var b := After(a, inputs[..n], cfg); Pending(b) || Stopping(b)
    decreases n
  {
    hide Turn, Pending, Receives, RunsScheduler, Stopping;
    var b := After(a, inputs[..n-1], cfg);
    assert inputs[..n][..n-1] == inputs[..n-1];
    if n - 1 > j {
      NoRequestIsLost(a, inputs, cfg, j, n - 1);
    }
    if Pending(b) || Receives(b, inputs[n-1]) {
      TurnKeepsRequest(b, inputs[n-1], cfg);
    } else {
      StoppingStays(b, inputs[n-1], cfg);
    }
  }

  lemma StoppingStays(a: Automaton, i: Input, cfg: Config)
    requires |i.messages| == cfg.maxRead > 0 && Stopping(a)
    ensures Stopping(Turn(a, i, cfg))
  {
  }

  // ------------------------------------------------------------------ runs keep a distance

  /** The clock never goes back. */
  predicate Monotone(inputs: seq<Input>) {
    && (forall k :: 0 <= k < |inputs| ==> inputs[k].now <= inputs[k].later)
    && (forall j, k :: 0 <= j < k < |inputs| ==> inputs[j].later <= inputs[k].now)
  }

  lemma TurnNotesRun(a: Automaton, i: Input, cfg: Config)
    requires |i.messages| == cfg.maxRead > 0
    ensures Turn(a, i, cfg).lastScheduler == if RunsScheduler(a, i, cfg) then i.later else a.lastScheduler
  {
  }

  lemma {:induction false} LastRunIsNoted(a: Automaton, inputs: seq<Input>, cfg: Config, j: nat, n: nat)
    requires ProperInputs(inputs, cfg) && Monotone(inputs) && j < n <= |inputs|
    requires RunsScheduler(After(a, inputs[..j], cfg), inputs[j], cfg)
    ensures After(a, inputs[..n], cfg).lastScheduler >= inputs[j].later
    decreases n
  {
    hide Turn, RunsScheduler;
    assert inputs[..n][..n-1] == inputs[..n-1];
    TurnNotesRun(After(a, inputs[..n-1], cfg), inputs[n-1], cfg);
    if n - 1 > j {
      LastRunIsNoted(a, inputs, cfg, j, n - 1);
      assert inputs[j].later <= inputs[n-1].now <= inputs[n-1].later;
    }
  }

  /** Between the end of one run of the scheduler and the begin of any later one, at least the
      configured time passes. */
  lemma RunsAreSpaced(a: Automaton, inputs: seq<Input>, cfg: Config, j: nat, k: nat)
    requires ProperInputs(inputs, cfg) && Monotone(inputs) && j < k < |inputs|
    requires RunsScheduler(After(a, inputs[..j], cfg), inputs[j], cfg)
    requires RunsScheduler(After(a, inputs[..k], cfg), inputs[k], cfg)
    ensures inputs[k].now >= inputs[j].later + cfg.minBetweenCalls
  {
    LastRunIsNoted(a, inputs, cfg, j, k);
  }

  // ------------------------------------------------------------------ commands are served

  predicate Distinct(queue: seq<Command>) {
    forall j, k :: 0 <= j < k < |queue| ==> queue[j] != queue[k]
  }

  lemma AddKeepsDistinct(queue: seq<Command>, c: Command)
    requires Distinct(queue)
    ensures Distinct(AddTo(queue, c))
  {
  }

  lemma {:induction false} ReadKeepsDistinct(queue: seq<Command>, messages: seq<Command>)
    requires Distinct(queue)
    ensures Distinct(ReadInto(queue, messages))
    decreases |messages|
  {
    if messages != [] {
      ReadKeepsDistinct(queue, messages[..|messages|-1]);
      AddKeepsDistinct(ReadInto(queue, messages[..|messages|-1]), messages[|messages|-1]);
    }
  }

  lemma TimedOutKeepsDistinct(a: Automaton, now: int, cfg: Config)
    requires Distinct(a.queue)
    ensures Distinct(TimedOut(a, now, cfg))
  {
    hide Distinct, AddTo;
    var q0 := if Due(a, now, cfg) then AddTo(a.queue, Scheduling) else a.queue;
    AddKeepsDistinct(a.queue, Scheduling);
    AddKeepsDistinct(q0, Villains);
    AddKeepsDistinct(q0, Finaud);
    if now >= a.lastVillains + cfg.villainsTimeout {
      AddKeepsDistinct(AddTo(q0, Villains), Finaud);
    }
  }

  lemma PopKeepsDistinct(queue: seq<Command>)
    requires Distinct(queue) && queue != []
    ensures Distinct(Popped(queue).1)
  {
    var p := Popped(queue);
    assert p.1 == queue[|queue|-|p.1|..];
  }

  lemma TurnKeepsDistinct(a: Automaton, i: Input, cfg: Config)
    requires |i.messages| == cfg.maxRead > 0 && Distinct(a.queue)
    ensures Distinct(Turn(a, i, cfg).queue)
  {
    hide Distinct, AddTo, TimedOut, Popped, ReadInto;
    AddKeepsDistinct(a.queue, Term);
    TimedOutKeepsDistinct(a, i.now, cfg);
    ReadKeepsDistinct(a.queue, i.messages);
    PopKeepsDistinct(ReadInto(a.queue, i.messages));
  }

  /** No command is ever twice in the queue. */
  lemma {:induction false} QueueStaysDistinct(a: Automaton, inputs: seq<Input>, cfg: Config)
    requires ProperInputs(inputs, cfg) && Distinct(a.queue)
    ensures Distinct(After(a, inputs, cfg).queue)
    decreases |inputs|
  {
    hide Distinct, Turn;
    if inputs != [] {
      QueueStaysDistinct(a, inputs[..|inputs|-1], cfg);
      TurnKeepsDistinct(After(a, inputs[..|inputs|-1], cfg), inputs[|inputs|-1], cfg);
    }
  }

  /** A turn in which a command is taken from the queue. */
  predicate Takes(a: Automaton, i: Input) {
    !a.stopped && !a.finish && !i.stop && !i.hulotDied && a.state == Qget
  }

  function Taken(a: Automaton, i: Input, cfg: Config): Command
    requires |i.messages| == cfg.maxRead > 0
  {
    Popped(ReadInto(a.queue, i.messages)).0
  }

  function TurnsTaking(a: Automaton, inputs: seq<Input>, cfg: Config, n: nat): nat
    requires ProperInputs(inputs, cfg) && n <= |inputs|
    decreases n
  {
    if n == 0 then 0
    else TurnsTaking(a, inputs, cfg, n - 1) + (if Takes(After(a, inputs[..n-1], cfg), inputs[n-1]) then 1 else 0)
  }

  ghost predicate Served(a: Automaton, inputs: seq<Input>, cfg: Config, n: nat, c: Command)
    requires ProperInputs(inputs, cfg) && n <= |inputs|
  {
    exists m :: 0 <= m < n && ServedAt(a, inputs, cfg, m, c)
  }

  ghost predicate ServedAt(a: Automaton, inputs: seq<Input>, cfg: Config, m: nat, c: Command)
    requires ProperInputs(inputs, cfg) && m < |inputs|
  {
    Takes(After(a, inputs[..m], cfg), inputs[m]) && Taken(After(a, inputs[..m], cfg), inputs[m], cfg) == c
  }

  /** The command is in the queue with at most `atMost` others before it. */
  ghost predicate Waits(queue: seq<Command>, c: Command, atMost: int) {
    exists j :: 0 <= j <= atMost && j < |queue| && queue[j] == c
  }

  /** A command in the queue moves up by at least one place in each turn that takes one. */
  lemma TurnMovesUp(a: Automaton, i: Input, cfg: Config, c: Command, k: nat)
    requires |i.messages| == cfg.maxRead > 0 && c != Time && k < |a.queue| && a.queue[k] == c
    ensures var q := Turn(a, i, cfg).queue;
            if Takes(a, i) then Taken(a, i, cfg) == c || Waits(q, c, k - 1) else Waits(q, c, k)
  {
    var r := ReadInto(a.queue, i.messages);
    assert r[k] == c;
    var p := Popped(r);
    var n := |r| - |p.1|;
    assert p.1 == r[n..];
    if Takes(a, i) && Taken(a, i, cfg) != c {
      assert k >= n;
      assert p.1[k-n] == c;
    } else if !Takes(a, i) {
      var q := Turn(a, i, cfg).queue;
      assert a.queue <= q && q[k] == c;
    }
  }

  /** In every run, a command that has `k` others before it is served by the time `k + 1`
      commands have been taken, whatever comes in meanwhile. */
  lemma {:induction false} CommandsAreServed(a: Automaton, inputs: seq<Input>, cfg: Config, n: nat, c: Command, k: nat)
    requires ProperInputs(inputs, cfg) && n <= |inputs| && c != Time && k < |a.queue| && a.queue[k] == c
    ensures TurnsTaking(a, inputs, cfg, n) > k ==> Served(a, inputs, cfg, n, c)
    ensures !Served(a, inputs, cfg, n, c) ==>
      Waits(After(a, inputs[..n], cfg).queue, c, k - TurnsTaking(a, inputs, cfg, n))
    decreases n
  {
    if n == 0 {
      assert inputs[..0] == [];
    } else {
      CommandsAreServed(a, inputs, cfg, n - 1, c, k);
      assert inputs[..n][..n-1] == inputs[..n-1];
      var b := After(a, inputs[..n-1], cfg);
      if !Served(a, inputs, cfg, n - 1, c) {
        var j: nat :| j <= k - TurnsTaking(a, inputs, cfg, n - 1) && j < |b.queue| && b.queue[j] == c;
        TurnMovesUp(b, inputs[n-1], cfg, c, j);
        if Takes(b, inputs[n-1]) && Taken(b, inputs[n-1], cfg) == c {
          assert ServedAt(a, inputs, cfg, n - 1, c);
        }
      } else {
        var m :| 0 <= m < n - 1 && ServedAt(a, inputs, cfg, m, c);
      }
    }
  }

  // -------------------------------------------------- a request that is due is taken up

  lemma {:induction false} AfterFirst(a: Automaton, inputs: seq<Input>, cfg: Config, m: nat)
    requires ProperInputs(inputs, cfg) && m < |inputs|
    ensures After(a, inputs[..m+1], cfg) == After(Turn(a, inputs[0], cfg), inputs[1..][..m], cfg)
    decreases m
  {
    var rest := inputs[1..];
    if m == 0 {
      assert inputs[..1][..0] == [] && rest[..0] == [];
    } else {
      AfterFirst(a, inputs, cfg, m - 1);
      assert inputs[..m+1][..m] == inputs[..m] && rest[..m][..m-1] == rest[..m-1] && rest[m-1] == inputs[m];
    }
  }

  lemma {:induction false} TurnsAfterFirst(a: Automaton, inputs: seq<Input>, cfg: Config, n: nat)
    requires ProperInputs(inputs, cfg) && n < |inputs| && a.state == TimeUpdate
    ensures TurnsTaking(a, inputs, cfg, n + 1) == TurnsTaking(Turn(a, inputs[0], cfg), inputs[1..], cfg, n)
    decreases n
  {
    if n == 0 {
      assert inputs[..0] == [];
      assert TurnsTaking(a, inputs, cfg, 0) == 0;
    } else {
      TurnsAfterFirst(a, inputs, cfg, n - 1);
      AfterFirst(a, inputs, cfg, n - 1);
      assert inputs[1..][n-1] == inputs[n];
    }
  }
}
