/** What commands cause in the server, over whole runs: each request is followed to the module
    it asks for, and each timeout to the check it brings about (oar/modules/almighty.py).
 */
module Commands {
  import opened Almighty

  /** The daemon goes on in this turn: it has not stopped and is not told to. */
  predicate GoesOn(a: Automaton, i: Input) {
    !a.stopped && !a.finish && !i.stop && !i.hulotDied
  }

  // --------------------------------------------------------------------- reading messages

  /** A message that is new stands behind all that was in the queue and all that was read before
      it, and before all that is read after it. */
  lemma {:induction false} NewStandsBehind(queue: seq<Command>, messages: seq<Command>, k: nat) returns (p: nat)
    requires k < |messages| && messages[k] !in queue && messages[k] !in messages[..k]
    ensures var q := ReadInto(queue, messages);
            && |queue| <= p < |q| && q[p] == messages[k]
            && (forall x :: x in q[..p] <==> x in queue || x in messages[..k])
    decreases |messages|
  {
    hide AddTo, Popped;
    var n := |messages| - 1;
    var init := messages[..n];
    ReadMembers(queue, init);
    if k < n {
      p := NewStandsBehind(queue, init, k);
      assert init[..k] == messages[..k];
      AddKeepsFront(ReadInto(queue, init), messages[n]);
      assert ReadInto(queue, init)[..p] == ReadInto(queue, messages)[..p];
    } else {
      p := |ReadInto(queue, init)|;
      AddsBehind(ReadInto(queue, init), messages[n]);
    }
  }

  lemma AddKeepsFront(queue: seq<Command>, c: Command)
    ensures queue <= AddTo(queue, c)
  {
  }

  lemma AddsBehind(queue: seq<Command>, c: Command)
    requires c !in queue
    ensures AddTo(queue, c) == queue + [c]
  {
  }

  // -------------------------------------------------------------------------- single turns

  /** The turn that takes a command. It reads the messages, of which each is in the queue once,
      and takes the first command, or the second if the first is Time and not alone. */
  lemma TakesNext(a: Automaton, i: Input, cfg: Config) returns (r: seq<Command>, c: Command)
    requires |i.messages| == cfg.maxRead > 0 && GoesOn(a, i) && a.state == Qget && Distinct(a.queue)
    ensures r != [] && a.queue <= r && Distinct(r) && forall x :: x in r <==> x in a.queue || x in i.messages
    ensures c == if r[0] == Time && |r| > 1 then r[1] else r[0]
    ensures var b := Turn(a, i, cfg);
            && b.queue == (if r[0] == Time && |r| > 1 then r[2..] else r[1..])
            && (b.state == Scheduler
                <==> c in {Qsub, QsubI, Term, BipBip, Scheduling, Qresume, Walltime})
            && (b.state == Leon <==> c == Qdel)
            && (b.state == CheckForVillains <==> c == Villains)
            && (b.state == CheckNodeStates <==> c == Finaud)
            && (b.state == TimeUpdate <==> c == Time)
            && (b.state == ChangeNodeState <==> c == ChState)
            && (b.state == Qget <==> c.Unknown?)
  {
    r := ReadInto(a.queue, i.messages);
    ReadMembers(a.queue, i.messages);
    ReadKeepsDistinct(a.queue, i.messages);
    c := Popped(r).0;
  }

  /** When the daemon comes from one state to another, apart from taking a command. */
  lemma ComesFrom(a: Automaton, i: Input, cfg: Config)
    requires |i.messages| == cfg.maxRead > 0 && GoesOn(a, i) && a.state != Qget
    ensures var b, early := Turn(a, i, cfg), i.now < a.lastScheduler + cfg.minBetweenCalls;
            && (b.state == Leon
                <==> || (a.state == Scheduler && !early && i.checked == 2)
                     || (a.state == Scheduler && !early && i.checked == 0 && i.scheduled == 2)
                     || (a.state == CheckForVillains && i.checked == 1)
                     || (a.state == ChangeNodeState && i.checked == 2))
            && (b.state == Scheduler && !b.finish
                <==> || (a.state == Scheduler && !early && i.checked == 1)
                     || (a.state == Scheduler && !early && i.checked == 0 && i.scheduled == 1)
                     || (a.state == ChangeNodeState && i.checked == 1))
            && (b.state == ChangeNodeState && !b.finish <==> a.state == CheckNodeStates && i.checked == 1)
            && (b.state == TimeUpdate
                <==> || (a.state == Scheduler && (early || (i.checked == 0 && i.scheduled == 0)))
                     || (a.state in {CheckForVillains, CheckNodeStates, ChangeNodeState} && i.checked == 0)
                     || a.state == Leon)
            && (b.state == Qget <==> a.state == TimeUpdate)
            && (b.finish ==> b.state == a.state)
  {
  }

  /** What a turn leaves behind besides the state: the times of the last runs and checks, the
      wish for a run that came too early, and the request to follow up ended jobs. */
  lemma LeavesBehind(a: Automaton, i: Input, cfg: Config)
    requires |i.messages| == cfg.maxRead > 0 && GoesOn(a, i)
    ensures var b, early := Turn(a, i, cfg), i.now < a.lastScheduler + cfg.minBetweenCalls;
            && b.lastVillains == (if a.state == CheckForVillains then i.later else a.lastVillains)
            && b.lastCheckNodes == (if a.state == CheckNodeStates then i.later else a.lastCheckNodes)
            && b.lastScheduler
               == (if a.state == Scheduler && !early && i.checked == 0 then i.later else a.lastScheduler)
            && b.wanted == (if a.state == Scheduler then early else a.wanted)
            && (a.state !in {Qget, TimeUpdate} && Term !in a.queue ==>
                  b.queue == a.queue
                  + if || (a.state == Scheduler && !early && i.checked == 2)
                       || (a.state == ChangeNodeState && i.checked == 2)
                       || (a.state == Leon && i.checked == 1) then [Term] else [])
            && (a.state !in {Qget, TimeUpdate} && Term in a.queue ==> b.queue == a.queue)
            && !b.stopped
            && (b.finish
                <==> || (a.state == Scheduler && !early && i.checked !in {0, 1, 2})
                     || (a.state == Scheduler && !early && i.checked == 0 && i.scheduled !in {0, 1, 2})
                     || (a.state in {CheckForVillains, CheckNodeStates} && i.checked !in {0, 1})
                     || (a.state == ChangeNodeState && i.checked !in {0, 1, 2}))
  {
  }

  /** What has been added: a run before both checks, the check for villains before that of nodes. */
  predicate Ordered(queue: seq<Command>, q: seq<Command>) {
    forall j, k :: |queue| <= j < k < |q| ==>
      || (q[j] == Scheduling && q[k] in {Villains, Finaud}) || (q[j] == Villains && q[k] == Finaud)
  }

  lemma AddedInOrder(queue: seq<Command>, runs: bool, villains: bool, nodes: bool, q: seq<Command>)
    requires var q0 := if runs then AddTo(queue, Scheduling) else queue;
             var q1 := if villains then AddTo(q0, Villains) else q0;
             q == if nodes then AddTo(q1, Finaud) else q1
    ensures queue <= q && |q| <= |queue| + 3 && Ordered(queue, q)
    ensures forall k :: |queue| <= k < |q| ==> q[k] !in queue && q[k] in {Scheduling, Villains, Finaud}
    ensures Scheduling in q <==> Scheduling in queue || runs
    ensures Villains in q <==> Villains in queue || villains
    ensures Finaud in q <==> Finaud in queue || nodes
  {
    var a0 := if runs && Scheduling !in queue then [Scheduling] else [];
    var a1 := if villains && Villains !in queue then [Villains] else [];
    var a2 := if nodes && Finaud !in queue then [Finaud] else [];
    assert q == queue + (a0 + a1 + a2) by {
      AddIsAppend(queue, Scheduling);
      AddIsAppend(queue + a0, Villains);
      AddIsAppend(queue + a0 + a1, Finaud);
    }
    hide AddTo;
    AppendedInOrder(queue, a0, a1, a2, q);
  }

  lemma AddIsAppend(queue: seq<Command>, c: Command)
    ensures AddTo(queue, c) == queue + if c in queue then [] else [c]
  {
  }

  lemma AppendedInOrder(queue: seq<Command>, a0: seq<Command>, a1: seq<Command>, a2: seq<Command>, q: seq<Command>)
    requires q == queue + (a0 + a1 + a2) && |a0| <= 1 && |a1| <= 1 && |a2| <= 1
    requires a0 == [] || (a0[0] == Scheduling && Scheduling !in queue)
    requires a1 == [] || (a1[0] == Villains && Villains !in queue)
    requires a2 == [] || (a2[0] == Finaud && Finaud !in queue)
    ensures Ordered(queue, q)
    ensures forall k :: |queue| <= k < |q| ==> q[k] !in queue && q[k] in {Scheduling, Villains, Finaud}
    ensures Scheduling in q <==> Scheduling in queue || a0 != []
    ensures Villains in q <==> Villains in queue || a1 != []
    ensures Finaud in q <==> Finaud in queue || a2 != []
  {
    var e := a0 + a1 + a2;
    assert forall k :: |queue| <= k < |q| ==> q[k] == e[k-|queue|];
    assert forall x :: x in q <==> x in queue || x in e;
  }

  /** The turn that checks timeouts adds, in this order and as far as they are not queued yet,
      the commands for a run that is due and for the two checks that are due. */
  lemma TimeoutsAdd(a: Automaton, i: Input, cfg: Config)
    requires |i.messages| == cfg.maxRead > 0 && GoesOn(a, i) && a.state == TimeUpdate
    ensures var b := Turn(a, i, cfg);
            && a.queue <= b.queue && |b.queue| <= |a.queue| + 3
            && (forall k :: |a.queue| <= k < |b.queue| ==> b.queue[k] !in a.queue)
            && (Scheduling in b.queue
                <==> || Scheduling in a.queue || i.now >= a.lastScheduler + cfg.schedulerTimeout
                     || (a.wanted && i.now >= a.lastScheduler + cfg.minBetweenCalls))
            && (Villains in b.queue <==> Villains in a.queue || i.now >= a.lastVillains + cfg.villainsTimeout)
            && (Finaud in b.queue
                <==> || Finaud in a.queue
                     || (i.now >= a.lastCheckNodes + cfg.checkNodesTimeout && cfg.checkNodesTimeout > 0))
            && (forall k :: |a.queue| <= k < |b.queue| ==> b.queue[k] in {Scheduling, Villains, Finaud})
            && Ordered(a.queue, b.queue)
  {
    hide AddTo, Ordered;
    var runs := i.now >= a.lastScheduler + cfg.schedulerTimeout
             || (a.wanted && i.now >= a.lastScheduler + cfg.minBetweenCalls);
    AddedInOrder(a.queue, runs, i.now >= a.lastVillains + cfg.villainsTimeout,
                 i.now >= a.lastCheckNodes + cfg.checkNodesTimeout && cfg.checkNodesTimeout > 0,
                 Turn(a, i, cfg).queue);
  }

  /** A run of the scheduler, a check for villains or a check of the nodes is done in this turn. */
  predicate Does(a: Automaton, i: Input, cfg: Config, s: State) {
    && GoesOn(a, i) && a.state == s
    && (s == Scheduler ==> i.now >= a.lastScheduler + cfg.minBetweenCalls && i.checked == 0)
  }

  lemma AfterLast(a: Automaton, inputs: seq<Input>, cfg: Config, n: nat)
    requires ProperInputs(inputs, cfg) && 0 < n <= |inputs|
    ensures After(a, inputs[..n], cfg) == Turn(After(a, inputs[..n-1], cfg), inputs[n-1], cfg)
  {
    assert inputs[..n][..n-1] == inputs[..n-1];
  }

  /** In every run, the time from which the next timeout is counted is the end of the latest run,
      or check, whatever happened since. */
  lemma {:induction false} LatestIsNoted(a: Automaton, inputs: seq<Input>, cfg: Config, k: nat, n: nat, s: State)
    requires ProperInputs(inputs, cfg) && k < n <= |inputs| && Does(After(a, inputs[..k], cfg), inputs[k], cfg, s)
    requires forall j :: k < j < n ==> !Does(After(a, inputs[..j], cfg), inputs[j], cfg, s)
    ensures s == Scheduler ==> After(a, inputs[..n], cfg).lastScheduler == inputs[k].later
    ensures s == CheckForVillains ==> After(a, inputs[..n], cfg).lastVillains == inputs[k].later
    ensures s == CheckNodeStates ==> After(a, inputs[..n], cfg).lastCheckNodes == inputs[k].later
    decreases n
  {
    hide Turn, Does, After;
    AfterLast(a, inputs, cfg, n);
    NotedInTurn(After(a, inputs[..n-1], cfg), inputs[n-1], cfg, s);
    if n - 1 > k {
      LatestIsNoted(a, inputs, cfg, k, n - 1, s);
    }
  }

  lemma NotedInTurn(a: Automaton, i: Input, cfg: Config, s: State)
    requires |i.messages| == cfg.maxRead > 0
    ensures var b, done := Turn(a, i, cfg), Does(a, i, cfg, s);
            && (s == Scheduler ==> b.lastScheduler == if done then i.later else a.lastScheduler)
            && (s == CheckForVillains ==> b.lastVillains == if done then i.later else a.lastVillains)
            && (s == CheckNodeStates ==> b.lastCheckNodes == if done then i.later else a.lastCheckNodes)
  {
    hide Turn;
    if GoesOn(a, i) {
      LeavesBehind(a, i, cfg);
    } else {
      StopChangesNothing(a, i, cfg);
    }
  }

  /** A daemon that is told to stop, has got an unknown result or finds the energy module dead stops
      and changes nothing else. */
  lemma StopChangesNothing(a: Automaton, i: Input, cfg: Config)
    requires |i.messages| == cfg.maxRead > 0 && !GoesOn(a, i)
    ensures var b := Turn(a, i, cfg);
            && b.stopped && b.queue == a.queue && b.state == a.state
            && b.lastScheduler == a.lastScheduler && b.lastVillains == a.lastVillains
            && b.lastCheckNodes == a.lastCheckNodes
  {
  }

  // ------------------------------------------------------- no request is lost, module by module

  /** One turn: a request for a module that waits or comes in still waits afterwards, unless the
      module was run or the daemon is about to stop. */
  lemma TurnKeepsWaiting(a: Automaton, i: Input, cfg: Config, c: Command, s: State)
    requires |i.messages| == cfg.maxRead > 0
    requires || (c == Qdel && s == Leon) || (c == ChState && s == ChangeNodeState)
             || (c == Villains && s == CheckForVillains) || (c == Finaud && s == CheckNodeStates)
    requires a.state == s || c in a.queue || (GoesOn(a, i) && a.state == Qget && c in i.messages)
    requires !(GoesOn(a, i) && a.state == s)
    ensures var b := Turn(a, i, cfg); b.state == s || c in b.queue || b.finish || b.stopped
  {
    hide AddTo, TimedOut, ReadInto, Popped;
    AddMembers(a.queue, Term);
    TimedOutMembers(a, i.now, cfg);
    ReadMembers(a.queue, i.messages);
    PopMembers(ReadInto(a.queue, i.messages));
  }

  /** In every run: from the turn at which a deletion is asked for (Qdel), the command is in the
      queue or the daemon is in the state in which Leon is run, until it is run or the daemon is
      about to stop. The same goes for the change of node states (ChState), the check for
      villains and the check of the nodes. */
  lemma {:induction false} RequestWaits(a: Automaton, inputs: seq<Input>, cfg: Config, j: nat, n: nat, c: Command,
                                        s: State)
    requires ProperInputs(inputs, cfg) && j < n <= |inputs|
    requires || (c == Qdel && s == Leon) || (c == ChState && s == ChangeNodeState)
             || (c == Villains && s == CheckForVillains) || (c == Finaud && s == CheckNodeStates)
    requires var b := After(a, inputs[..j], cfg);
             b.state == s || c in b.queue || (GoesOn(b, inputs[j]) && b.state == Qget && c in inputs[j].messages)
    requires forall k :: j <= k < n ==>
                         var b := After(a, inputs[..k], cfg); !(GoesOn(b, inputs[k]) && b.state == s)
    ensures var b := After(a, inputs[..n], cfg); b.state == s || c in b.queue || b.finish || b.stopped
    decreases n
  {
    hide Turn, GoesOn, After;
    var b := After(a, inputs[..n-1], cfg);
    AfterLast(a, inputs, cfg, n);
    if n - 1 > j {
      RequestWaits(a, inputs, cfg, j, n - 1, c, s);
      if b.finish || b.stopped {
        StoppingStays(b, inputs[n-1], cfg);
      } else {
        TurnKeepsWaiting(b, inputs[n-1], cfg, c, s);
      }
    } else {
      TurnKeepsWaiting(b, inputs[n-1], cfg, c, s);
    }
  }

  /** In every run: when Leon or the change of node states says that jobs have ended, or the
      latter that scheduling may go on, a request for scheduling is pending from then on until the
      scheduler is run or the daemon is about to stop. */
  lemma FollowUpIsNotLost(a: Automaton, inputs: seq<Input>, cfg: Config, j: nat, n: nat)
    requires ProperInputs(inputs, cfg) && j < n <= |inputs|
    requires var b, i := After(a, inputs[..j], cfg), inputs[j];
             && GoesOn(b, i)
             && (|| (b.state == Leon && i.checked == 1) || (b.state == ChangeNodeState && i.checked in {1, 2})
                 || (b.state == Scheduler && i.now >= b.lastScheduler + cfg.minBetweenCalls && i.checked == 2))
    requires forall k :: j < k < n ==> !RunsScheduler(After(a, inputs[..k], cfg), inputs[k], cfg)
    ensures var b := After(a, inputs[..n], cfg);
            b.wanted || b.state == Scheduler || Requested(b.queue) || b.finish || b.stopped
  {
    hide RunsScheduler;
    assert inputs[..j+1][..j] == inputs[..j];
    AddMembers(After(a, inputs[..j], cfg).queue, Term);
    if j + 1 < n {
      NoRequestIsLost(a, inputs, cfg, j + 1, n);
    }
  }

  // --------------------------------------------------------- every request comes to its module

  lemma ServedLeadsOn(a: Automaton, inputs: seq<Input>, cfg: Config, m: nat, c: Command, s: State)
    requires ProperInputs(inputs, cfg) && m < |inputs| && ServedAt(a, inputs, cfg, m, c)
    requires || (c == Qdel && s == Leon) || (c == ChState && s == ChangeNodeState)
             || (c == Villains && s == CheckForVillains) || (c == Finaud && s == CheckNodeStates)
             || (c in {Qsub, QsubI, Term, BipBip, Scheduling, Qresume, Walltime} && s == Scheduler)
    ensures After(a, inputs[..m+1], cfg).state == s
  {
    hide Popped, ReadInto;
    assert inputs[..m+1][..m] == inputs[..m];
  }

  /** In every run, a command that has `k` others before it in the queue has brought the daemon to
      the state of its module by the time `k + 1` commands have been taken, whatever comes in. */
  lemma CommandsAreHandled(a: Automaton, inputs: seq<Input>, cfg: Config, n: nat, k: nat, c: Command, s: State)
    requires ProperInputs(inputs, cfg) && n <= |inputs| && k < |a.queue| && a.queue[k] == c
    requires || (c == Qdel && s == Leon) || (c == ChState && s == ChangeNodeState)
             || (c == Villains && s == CheckForVillains) || (c == Finaud && s == CheckNodeStates)
             || (c in {Qsub, QsubI, Term, BipBip, Scheduling, Qresume, Walltime} && s == Scheduler)
    requires TurnsTaking(a, inputs, cfg, n) > k
    ensures exists m :: 0 <= m <= n && After(a, inputs[..m], cfg).state == s
  {
    hide Turn, TurnsTaking, ServedAt;
    CommandsAreServed(a, inputs, cfg, n, c, k);
    var m: nat :| m < n && ServedAt(a, inputs, cfg, m, c);
    ServedLeadsOn(a, inputs, cfg, m, c, s);
    assert After(a, inputs[..m+1], cfg).state == s;
  }

  /** The place of a command that timeouts have added. */
  lemma FoundEarly(queue: seq<Command>, q: seq<Command>, c: Command) returns (k: nat)
    requires queue <= q && |q| <= |queue| + 3 && c in q
    requires Ordered(queue, q)
    ensures k < |q| && q[k] == c && k <= |queue| + 2
    ensures c == Scheduling ==> k <= |queue|
    ensures c == Villains ==> k <= |queue| + 1
  {
    k :| 0 <= k < |q| && q[k] == c;
    if k > |queue| {
      assert q[|queue|] != Finaud && q[|queue|] != c;
      assert k > |queue| + 1 ==> q[|queue|+1] == Villains;
    }
  }

  lemma ComesTo(a: Automaton, inputs: seq<Input>, cfg: Config, n: nat, k: nat, c: Command, s: State)
    requires ProperInputs(inputs, cfg) && 0 < n <= |inputs| && a.state == TimeUpdate
    requires k < |Turn(a, inputs[0], cfg).queue| && Turn(a, inputs[0], cfg).queue[k] == c
    requires || (c == Villains && s == CheckForVillains) || (c == Finaud && s == CheckNodeStates)
             || (c == Scheduling && s == Scheduler)
    ensures TurnsTaking(a, inputs, cfg, n) > k ==> exists m :: 0 <= m <= n && After(a, inputs[..m], cfg).state == s
  {
    hide Turn, TurnsTaking, After;
    var b, rest := Turn(a, inputs[0], cfg), inputs[1..];
    TurnsAfterFirst(a, inputs, cfg, n - 1);
    if TurnsTaking(a, inputs, cfg, n) > k {
      CommandsAreHandled(b, rest, cfg, n - 1, k, c, s);
      var m: nat :| m <= n - 1 && After(b, rest[..m], cfg).state == s;
      AfterFirst(a, inputs, cfg, m);
      assert After(a, inputs[..m+1], cfg).state == s;
    }
  }

  /** If a run of the scheduler, the check for villains or the check of the nodes is due when
      timeouts are checked, the daemon comes to its state by the time as many commands have been
      taken as were queued and one more; the check for villains may have the run of the scheduler
      before it, and the check of the nodes both of these. */
  lemma DueIsTakenUp(a: Automaton, inputs: seq<Input>, cfg: Config, n: nat)
    requires ProperInputs(inputs, cfg) && 0 < n <= |inputs| && GoesOn(a, inputs[0]) && a.state == TimeUpdate
    ensures TurnsTaking(a, inputs, cfg, n) > |a.queue|
            && (|| inputs[0].now >= a.lastScheduler + cfg.schedulerTimeout
                || (a.wanted && inputs[0].now >= a.lastScheduler + cfg.minBetweenCalls)) ==>
              exists m :: 0 <= m <= n && After(a, inputs[..m], cfg).state == Scheduler
    ensures TurnsTaking(a, inputs, cfg, n) > |a.queue| + 1
            && inputs[0].now >= a.lastVillains + cfg.villainsTimeout ==>
              exists m :: 0 <= m <= n && After(a, inputs[..m], cfg).state == CheckForVillains
    ensures TurnsTaking(a, inputs, cfg, n) > |a.queue| + 2
            && inputs[0].now >= a.lastCheckNodes + cfg.checkNodesTimeout && cfg.checkNodesTimeout > 0 ==>
              exists m :: 0 <= m <= n && After(a, inputs[..m], cfg).state == CheckNodeStates
  {
    hide Turn, TurnsTaking, After, GoesOn, Ordered;
    assert inputs[..n][0] == inputs[0];
    TimeoutsAdd(a, inputs[0], cfg);
    var q := Turn(a, inputs[0], cfg).queue;
    if Scheduling in q {
      var k := FoundEarly(a.queue, q, Scheduling);
      ComesTo(a, inputs, cfg, n, k, Scheduling, Scheduler);
    }
    if Villains in q {
      var k := FoundEarly(a.queue, q, Villains);
      ComesTo(a, inputs, cfg, n, k, Villains, CheckForVillains);
    }
    if Finaud in q {
      var k := FoundEarly(a.queue, q, Finaud);
      ComesTo(a, inputs, cfg, n, k, Finaud, CheckNodeStates);
    }
  }
}
