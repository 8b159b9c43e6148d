/** Whole runs of the parallel program, under every schedule. */
module PoolRuns {
  import opened Graphs
  import opened Pool
  import opened PoolProof

  /** The state after a schedule, if each of its steps is enabled in its turn. */
  function After(g: Graph, s: State, schedule: seq<Actor>): Option<State>
    decreases |schedule|
  {
    if schedule == [] then Some(s)
    else if Fits(g, s) && Enabled(g, s, schedule[0]) then After(g, Step(g, s, schedule[0]), schedule[1..])
    else None
  }

  lemma {:induction false} RunInv(g: Graph, s: State, at: seq<Place>, schedule: seq<Actor>) returns (at': seq<Place>)
    requires Inv(g, s, at) && After(g, s, schedule).Some?
    ensures Inv(g, After(g, s, schedule).value, at')
    decreases |schedule|
  {
    hide Inv, Step, Enabled, NextAt;
    if schedule == [] { return at; }
    InvFits(g, s, at);
    StepInv(g, s, at, schedule[0]);
    at' := RunInv(g, Step(g, s, schedule[0]), NextAt(g, s, at, schedule[0]), schedule[1..]);
  }

  lemma InvFits(g: Graph, s: State, at: seq<Place>)
    requires Inv(g, s, at)
    ensures Fits(g, s) && |at| == g.Size()
  {
  }

  /** Every state that the program can reach. */
  ghost predicate Reachable(g: Graph, numWorkers: nat, s: State)
  {
    exists schedule :: After(g, Init(g, numWorkers), schedule) == Some(s)
  }

  lemma ReachableInv(g: Graph, numWorkers: nat, s: State) returns (at: seq<Place>)
    requires g.Valid() && g.Size() > 0 && numWorkers > 0 && Reachable(g, numWorkers, s)
    ensures Inv(g, s, at)
  {
    hide Inv, Init;
    var schedule :| After(g, Init(g, numWorkers), schedule) == Some(s);
    InitInv(g, numWorkers);
    at := RunInv(g, Init(g, numWorkers), seq(g.Size(), i => Unseen), schedule);
  }

  // ----- completeness

  /** When all workers have exited, whatever they saw on the way: the queue is empty, the done nodes
      are exactly those that node 0 reaches, no node is half way, and the sum is the serial one. */
  lemma CompleteWhenExited(g: Graph, numWorkers: nat, s: State)
    requires g.Valid() && g.Size() > 0 && numWorkers > 0 && Reachable(g, numWorkers, s) && AllExited(s.workers)
    ensures s.queue == [] && |s.marks| == g.Size()
    ensures forall n: nat :: n < g.Size() ==> s.marks[n] == (if n in ReachSet(g) then Done else NotVisited)
    ensures s.sum == Total(g)
  {
    var at := ReachableInv(g, numWorkers, s);
    ExitedState(g, s, at);
  }

  /** Without a live worker a node is untouched or finished. */
  lemma ExitedPlaces(g: Graph, s: State, at: seq<Place>, n: nat)
    requires Inv(g, s, at) && AllExited(s.workers) && n < g.Size()
    ensures at[n].Unseen? || at[n].Gone?
    ensures !s.main.MarkRoot? && !s.main.EnqueueRoot?
  {
    hide Covered, Reached, Summed, SumOf;
    assert s.workers[0].Exited?;
    assert PlaceFits(g, s, at[n], n);
  }

  lemma ExitedState(g: Graph, s: State, at: seq<Place>)
    requires Inv(g, s, at) && AllExited(s.workers)
    ensures s.queue == [] && s.sum == Total(g)
    ensures forall n: nat :: n < g.Size() ==> s.marks[n] == (if n in ReachSet(g) then Done else NotVisited)
  {
    hide SumOf, Reaches;
    var done := set n: nat | n < g.Size() && s.marks[n] == Done;
    forall n: nat | n < g.Size() ensures at[n].Unseen? || at[n].Gone? { ExitedPlaces(g, s, at, n); }
    assert forall n: nat :: n < g.Size() ==> s.marks[n] != Processing by {
      forall n: nat | n < g.Size() ensures s.marks[n] != Processing { assert PlaceFits(g, s, at[n], n); }
    }
    ExitedPlaces(g, s, at, 0);
    forall u, v | u in done && Edge(g, u, v) ensures v in done {
      var j: nat :| j < |g.adj[u]| && g.adj[u][j] == v;
      assert s.marks[g.adj[u][j]] != NotVisited;
    }
    ClosedIsReachSet(g, done);
    assert Summed(g, s, at) == done;
  }

  /** At the end of the program every node has been freed exactly once. */
  lemma FreedOnce(g: Graph, numWorkers: nat, s: State)
    requires g.Valid() && g.Size() > 0 && numWorkers > 0 && Reachable(g, numWorkers, s) && s.main.End?
    ensures |s.freed| == g.Size() && forall n: nat :: n < g.Size() ==> s.freed[n] == 1
  {
    var at := ReachableInv(g, numWorkers, s);
    forall n: nat | n < g.Size() ensures s.freed[n] == 1 {
      ExitedPlaces(g, s, at, n);
      assert PlaceFits(g, s, at[n], n);
    }
  }

  // ----- safety of every step

  /** In every reachable state: no node is freed twice, a node that a worker is about to read or
      that waits in the queue has not been freed, and it is in only one of these places. */
  lemma NoUseAfterFree(g: Graph, numWorkers: nat, s: State)
    requires g.Valid() && g.Size() > 0 && numWorkers > 0 && Reachable(g, numWorkers, s)
    ensures Fits(g, s) && |s.freed| == g.Size()
    ensures forall n: nat :: n < g.Size() ==> s.freed[n] <= 1
    ensures forall w: nat :: w < |s.workers| && NodeOf(s.workers[w]).Some? ==>
      s.freed[s.workers[w].n] == 0 && s.workers[w].n !in s.queue
    ensures forall k :: 0 <= k < |s.queue| ==> s.freed[s.queue[k]] == 0
    ensures forall v: nat, w: nat :: v < w < |s.workers| && NodeOf(s.workers[v]).Some? ==>
      NodeOf(s.workers[v]) != NodeOf(s.workers[w])
    ensures Distinct(s.queue)
  {
    hide Covered, Reached, Summed, SumOf, Phases, Reachable;
    var at := ReachableInv(g, numWorkers, s);
    forall n: nat | n < g.Size() ensures s.freed[n] <= 1 { assert PlaceFits(g, s, at[n], n); }
    forall w: nat | w < |s.workers| && NodeOf(s.workers[w]).Some?
      ensures s.freed[s.workers[w].n] == 0 && s.workers[w].n !in s.queue
    {
      assert PlaceFits(g, s, at[s.workers[w].n], s.workers[w].n);
    }
    forall k | 0 <= k < |s.queue| ensures s.freed[s.queue[k]] == 0 {
      assert PlaceFits(g, s, at[s.queue[k]], s.queue[k]);
    }
  }

  // ----- once each

  function Bit(b: bool): nat { if b then 1 else 0 }

  /** The step puts node n into the queue, or adds its value to the sum. */
  predicate Enqueues(g: Graph, s: State, a: Actor, n: nat)
    requires Fits(g, s) && Enabled(g, s, a)
  {
    match a
    case Main => s.main.EnqueueRoot? && n == 0
    case Worker(w) => Carries(g, s.workers[w]) == Some(n)
  }

  predicate Adds(g: Graph, s: State, a: Actor, n: nat)
    requires Fits(g, s) && Enabled(g, s, a)
  {
    a.Worker? && s.workers[a.w].Add? && s.workers[a.w].n == n
  }

  /** How often that happens in a run. */
  function TimesEnqueued(g: Graph, s: State, schedule: seq<Actor>, n: nat): nat
    decreases |schedule|
  {
    if schedule == [] || !(Fits(g, s) && Enabled(g, s, schedule[0])) then 0
    else Bit(Enqueues(g, s, schedule[0], n)) + TimesEnqueued(g, Step(g, s, schedule[0]), schedule[1..], n)
  }

  function TimesAdded(g: Graph, s: State, schedule: seq<Actor>, n: nat): nat
    decreases |schedule|
  {
    if schedule == [] || !(Fits(g, s) && Enabled(g, s, schedule[0])) then 0
    else Bit(Adds(g, s, schedule[0], n)) + TimesAdded(g, Step(g, s, schedule[0]), schedule[1..], n)
  }

  /** The node has not been queued yet. */
  predicate Before(p: Place) { p.Unseen? || p.Transit? }

  lemma EnqueueStep(g: Graph, s: State, at: seq<Place>, a: Actor, n: nat)
    requires Inv(g, s, at) && Enabled(g, s, a) && n < g.Size()
    ensures Bit(Before(at[n])) == Bit(Enqueues(g, s, a, n)) + Bit(Before(NextAt(g, s, at, a)[n]))
  {
    hide Covered, Reached, Summed, SumOf;
    assert PlaceFits(g, s, at[n], n);
    match a {
      case Main => if s.main.MarkRoot? { assert PlaceFits(g, s, at[0], 0); }
      case Worker(w) =>
        match s.workers[w] {
          case Idle => if s.queue != [] { assert at[s.queue[0]] == Queued; }
          case Scan(m, i) =>
            if i < |g.adj[m]| && s.marks[g.adj[m][i]] == NotVisited {
              assert PlaceFits(g, s, at[g.adj[m][i]], g.adj[m][i]);
            }
          case Destroy(m) => assert at[m] == With(w);
          case _ =>
        }
    }
  }

  lemma AddStep(g: Graph, s: State, at: seq<Place>, a: Actor, n: nat)
    requires Inv(g, s, at) && Enabled(g, s, a) && n < g.Size() && Fits(g, Step(g, s, a))
    ensures Bit(Counted(g, Step(g, s, a), NextAt(g, s, at, a), n)) == Bit(Counted(g, s, at, n)) + Bit(Adds(g, s, a, n))
  {
    hide Covered, Reached, Summed, SumOf, Counted;
    match a {
      case Main =>
        MainKeepsCounted(g, s, at, n);
      case Worker(w) =>
        if s.workers[w].Check? || s.workers[w].Add? || s.workers[w].Finish? || s.workers[w].Idle? {
          CountedVisit(g, s, at, w, n);
        } else {
          CountedScan(g, s, at, w, n);
        }
    }
  }

  lemma MainKeepsCounted(g: Graph, s: State, at: seq<Place>, n: nat)
    requires Inv(g, s, at) && Enabled(g, s, Main) && n < g.Size() && Fits(g, MainStep(g, s))
    ensures Counted(g, MainStep(g, s), NextAt(g, s, at, Main), n) <==> Counted(g, s, at, n)
  {
    hide Covered, Reached, Summed, SumOf;
  }

  lemma {:induction false} OnceEach(g: Graph, s: State, at: seq<Place>, schedule: seq<Actor>,
                                    n: nat) returns (at': seq<Place>)
    requires Inv(g, s, at) && After(g, s, schedule).Some? && n < g.Size()
    ensures Inv(g, After(g, s, schedule).value, at')
    ensures Bit(Before(at[n])) == TimesEnqueued(g, s, schedule, n) + Bit(Before(at'[n]))
    ensures Bit(Counted(g, After(g, s, schedule).value, at', n)) ==
      Bit(Counted(g, s, at, n)) + TimesAdded(g, s, schedule, n)
    decreases |schedule|
  {
    InvFits(g, s, at);
    hide Inv, Step, Enabled, NextAt, Enqueues, Adds, Counted, Fits, Before;
    if schedule == [] {
      at' := at;
      InvFits(g, s, at');
    } else {
      StepInv(g, s, at, schedule[0]);
      EnqueueStep(g, s, at, schedule[0], n);
      InvFits(g, Step(g, s, schedule[0]), NextAt(g, s, at, schedule[0]));
      AddStep(g, s, at, schedule[0], n);
      at' := OnceEach(g, Step(g, s, schedule[0]), NextAt(g, s, at, schedule[0]), schedule[1..], n);
    }
  }

  /** In a run of the program each node is queued at most once and its value is added at most once;
      when all workers have exited, exactly once each for the nodes that node 0 reaches, and never
      for the others. */
  lemma QueuedAndAddedOnce(g: Graph, numWorkers: nat, schedule: seq<Actor>, n: nat)
    requires g.Valid() && g.Size() > 0 && numWorkers > 0 && n < g.Size()
    requires After(g, Init(g, numWorkers), schedule).Some?
    ensures TimesEnqueued(g, Init(g, numWorkers), schedule, n) <= 1
    ensures TimesAdded(g, Init(g, numWorkers), schedule, n) <= 1
    ensures AllExited(After(g, Init(g, numWorkers), schedule).value.workers) ==>
      && TimesEnqueued(g, Init(g, numWorkers), schedule, n) == Bit(n in ReachSet(g))
      && TimesAdded(g, Init(g, numWorkers), schedule, n) == Bit(n in ReachSet(g))
  {
    var s, at := Init(g, numWorkers), seq(g.Size(), i => Unseen);
    InitInv(g, numWorkers);
    assert !Counted(g, s, at, n);
    hide Init, Inv, After, TimesEnqueued, TimesAdded;
    var at' := OnceEach(g, s, at, schedule, n);
    var t := After(g, s, schedule).value;
    InvFits(g, t, at');
    if AllExited(t.workers) {
      ExitedState(g, t, at');
      ExitedPlaces(g, t, at', n);
      ExitedCounted(g, t, at', n);
    }
  }

  lemma ExitedCounted(g: Graph, s: State, at: seq<Place>, n: nat)
    requires Inv(g, s, at) && AllExited(s.workers) && n < g.Size()
    ensures Counted(g, s, at, n) <==> s.marks[n] == Done
    ensures at[n].Gone? <==> s.marks[n] == Done
  {
    ExitedPlaces(g, s, at, n);
    assert PlaceFits(g, s, at[n], n);
  }

  /** A mark only moves forward. */
  predicate Advances(a: Mark, b: Mark) { a == b || a.NotVisited? || b.Done? }

  lemma MarksStep(g: Graph, s: State, at: seq<Place>, a: Actor, n: nat)
    requires Inv(g, s, at) && Enabled(g, s, a) && n < g.Size()
    ensures |Step(g, s, a).marks| == g.Size() && Advances(s.marks[n], Step(g, s, a).marks[n])
    ensures s.marks[n] == NotVisited ==> Step(g, s, a).marks[n] != Done
  {
    hide Covered, Reached, Summed, SumOf;
    assert PlaceFits(g, s, at[n], n);
  }

  /** In every reachable state, whoever moves next. */
  lemma MarksAdvance(g: Graph, numWorkers: nat, s: State, a: Actor, n: nat)
    requires g.Valid() && g.Size() > 0 && numWorkers > 0 && Reachable(g, numWorkers, s)
    requires Fits(g, s) && Enabled(g, s, a) && n < g.Size()
    ensures |Step(g, s, a).marks| == g.Size() && Advances(s.marks[n], Step(g, s, a).marks[n])
    ensures s.marks[n] == NotVisited ==> Step(g, s, a).marks[n] != Done
  {
    hide Inv, Step, Enabled, Reachable;
    var at := ReachableInv(g, numWorkers, s);
    MarksStep(g, s, at, a, n);
  }
}
