/** How long the parallel program can run, and where it can stop before its end. */
module PoolProgress {
  import opened Graphs
  import opened Pool
  import opened PoolProof
  import opened PoolRuns
  import GraphBuild

  /** The steps that a node still costs before it is dequeued, an upper bound. */
  function Weight(g: Graph, n: nat): nat
    requires n < g.Size()
  {
    3 * |g.adj[n]| + 6
  }

  function PcWeight(g: Graph, pc: Pc): nat
    requires g.Valid() && PcFits(g, pc)
  {
    match pc
    case AtGate => 4 case AboutToWait => 3 case Waiting => 2
    case Idle => 1
    case Check(n) => Weight(g, n)
    case Add(n) => Weight(g, n) - 1
    case Finish(n) => Weight(g, n) - 2
    case Scan(n, i) => 3 * (|g.adj[n]| - i) + 3
    case Push(n, i) => 3 * (|g.adj[n]| - i) + 2 + Weight(g, g.adj[n][i])
    case Release(n, i) => 3 * (|g.adj[n]| - i) + 1
    case Destroy(_) => 2
    case Exited => 0
  }

  function MainWeight(g: Graph, m: MainPc, numWorkers: nat): nat
    requires g.Size() > 0
  {
    var rest := g.Size() + numWorkers;
    match m
    case MarkRoot => rest + 7
    case EnqueueRoot => rest + 6 + Weight(g, 0)
    case SetFlag => rest + 5
    case Broadcast => rest + 4
    case Join(i) => g.Size() + 3 + (if i < numWorkers then numWorkers - i else 0)
    case Drain => g.Size() + 2
    case FreeRest(i) => 1 + (if i < g.Size() then g.Size() - i else 0)
    case End => 0
  }

  function UnseenWeight(g: Graph, marks: seq<Mark>, k: nat): nat
    requires k <= g.Size() == |marks|
  {
    if k == 0 then 0
    else UnseenWeight(g, marks, k - 1) + (if marks[k - 1] == NotVisited then Weight(g, k - 1) else 0)
  }

  function QueueWeight(g: Graph, queue: seq<nat>): nat
    requires forall k :: 0 <= k < |queue| ==> queue[k] < g.Size()
  {
    if queue == [] then 0 else Weight(g, queue[0]) + QueueWeight(g, queue[1..])
  }

  function PcsWeight(g: Graph, pcs: seq<Pc>, k: nat): nat
    requires g.Valid() && k <= |pcs| && forall w :: 0 <= w < |pcs| ==> PcFits(g, pcs[w])
  {
    if k == 0 then 0 else PcsWeight(g, pcs, k - 1) + PcWeight(g, pcs[k - 1])
  }

  function Measure(g: Graph, s: State): nat
    requires Fits(g, s)
  {
    UnseenWeight(g, s.marks, g.Size()) + QueueWeight(g, s.queue) + PcsWeight(g, s.workers, |s.workers|)
    + MainWeight(g, s.main, |s.workers|)
  }

  lemma {:induction false} MarkUpdate(g: Graph, marks: seq<Mark>, n: nat, m: Mark, k: nat)
    requires k <= g.Size() == |marks| && n < g.Size() && m != NotVisited
    ensures UnseenWeight(g, marks[n := m], k) + (if n < k && marks[n] == NotVisited then Weight(g, n) else 0)
      == UnseenWeight(g, marks, k)
  {
    if k > 0 { MarkUpdate(g, marks, n, m, k - 1); }
  }

  lemma {:induction false} QueueAppend(g: Graph, queue: seq<nat>, n: nat)
    requires n < g.Size() && forall k :: 0 <= k < |queue| ==> queue[k] < g.Size()
    ensures QueueWeight(g, queue + [n]) == QueueWeight(g, queue) + Weight(g, n)
  {
    if queue != [] {
      assert (queue + [n])[1..] == queue[1..] + [n];
      QueueAppend(g, queue[1..], n);
    }
  }

  lemma {:induction false} PcUpdate(g: Graph, pcs: seq<Pc>, w: nat, pc: Pc, k: nat)
    requires g.Valid() && k <= |pcs| && w < |pcs| && PcFits(g, pc) && forall w :: 0 <= w < |pcs| ==> PcFits(g, pcs[w])
    ensures PcsWeight(g, pcs[w := pc], k) + (if w < k then PcWeight(g, pcs[w]) else 0)
      == PcsWeight(g, pcs, k) + (if w < k then PcWeight(g, pc) else 0)
  {
    if k > 0 { PcUpdate(g, pcs, w, pc, k - 1); }
  }

  lemma {:induction false} WokenWeight(g: Graph, pcs: seq<Pc>, k: nat)
    requires g.Valid() && k <= |pcs| && forall w :: 0 <= w < |pcs| ==> PcFits(g, pcs[w])
    ensures PcsWeight(g, Woken(pcs), k) <= PcsWeight(g, pcs, k)
  {
    if k > 0 { WokenWeight(g, pcs, k - 1); }
  }

  lemma WorkerDecreases(g: Graph, s: State, at: seq<Place>, w: nat)
    requires Inv(g, s, at) && Enabled(g, s, Worker(w)) && Fits(g, WorkerStep(g, s, w))
    ensures Measure(g, WorkerStep(g, s, w)) < Measure(g, s)
  {
    hide Placed, Covered, Reached, Summed, SumOf, Phases, UnseenWeight, QueueWeight, PcsWeight;
    PcUpdate(g, s.workers, w, WorkerStep(g, s, w).workers[w], |s.workers|);
    if s.workers[w].Finish? || s.workers[w].Scan? {
      MarkDecreases(g, s, w);
    } else if s.workers[w].Idle? || s.workers[w].Push? {
      QueueDecreases(g, s, w);
    }
  }

  /** The steps that change a mark, or pass over a neighbour. */
  lemma MarkDecreases(g: Graph, s: State, w: nat)
    requires Fits(g, s) && Enabled(g, s, Worker(w)) && Fits(g, WorkerStep(g, s, w))
    requires s.workers[w].Finish? || s.workers[w].Scan?
    ensures Measure(g, WorkerStep(g, s, w)) < Measure(g, s)
  {
    hide UnseenWeight, QueueWeight, PcsWeight;
    PcUpdate(g, s.workers, w, WorkerStep(g, s, w).workers[w], |s.workers|);
    match s.workers[w] {
      case Finish(n) => MarkUpdate(g, s.marks, n, Done, g.Size());
      case Scan(n, i) =>
        if i < |g.adj[n]| && s.marks[g.adj[n][i]] == NotVisited {
          MarkUpdate(g, s.marks, g.adj[n][i], Processing, g.Size());
        }
    }
  }

  /** The steps that use the queue. */
  lemma QueueDecreases(g: Graph, s: State, w: nat)
    requires Fits(g, s) && Enabled(g, s, Worker(w)) && Fits(g, WorkerStep(g, s, w))
    requires s.workers[w].Idle? || s.workers[w].Push?
    ensures Measure(g, WorkerStep(g, s, w)) < Measure(g, s)
  {
    hide UnseenWeight, QueueWeight, PcsWeight;
    PcUpdate(g, s.workers, w, WorkerStep(g, s, w).workers[w], |s.workers|);
    match s.workers[w] {
      case Idle => if s.queue != [] { QueueFirst(g, s.queue); }
      case Push(n, i) => QueueAppend(g, s.queue, g.adj[n][i]);
    }
  }

  lemma QueueFirst(g: Graph, queue: seq<nat>)
    requires queue != [] && forall k :: 0 <= k < |queue| ==> queue[k] < g.Size()
    ensures QueueWeight(g, queue) == Weight(g, queue[0]) + QueueWeight(g, queue[1..])
  {
  }

  lemma MainDecreases(g: Graph, s: State, at: seq<Place>)
    requires Inv(g, s, at) && Enabled(g, s, Main) && Fits(g, MainStep(g, s))
    ensures Measure(g, MainStep(g, s)) < Measure(g, s)
  {
    hide Placed, Covered, Reached, Summed, SumOf, UnseenWeight, QueueWeight, PcsWeight;
    match s.main {
      case MarkRoot => MarkUpdate(g, s.marks, 0, Processing, g.Size());
      case EnqueueRoot => QueueAppend(g, s.queue, 0);
      case Broadcast => WokenWeight(g, s.workers, |s.workers|);
      case Drain => if s.queue != [] { QueueFirst(g, s.queue); }
      case _ =>
    }
  }

  /** Every step makes the measure smaller, so a schedule is no longer than the measure. */
  lemma {:induction false} RunBound(g: Graph, s: State, at: seq<Place>, schedule: seq<Actor>)
    requires Inv(g, s, at) && After(g, s, schedule).Some?
    ensures Fits(g, s) && |schedule| <= Measure(g, s)
    decreases |schedule|
  {
    InvFits(g, s, at);
    hide Inv, Fits, Enabled, Measure, NextAt, WorkerStep, MainStep;
    if schedule != [] {
      StepInv(g, s, at, schedule[0]);
      InvFits(g, Step(g, s, schedule[0]), NextAt(g, s, at, schedule[0]));
      match schedule[0] {
        case Main => MainDecreases(g, s, at);
        case Worker(w) => WorkerDecreases(g, s, at, w);
      }
      RunBound(g, Step(g, s, schedule[0]), NextAt(g, s, at, schedule[0]), schedule[1..]);
    }
  }

  function Degrees(g: Graph, k: nat): nat
    requires k <= g.Size()
  {
    if k == 0 then 0 else Degrees(g, k - 1) + |g.adj[k - 1]|
  }

  lemma {:induction false} InitUnseen(g: Graph, k: nat)
    requires k <= g.Size()
    ensures UnseenWeight(g, seq(g.Size(), i => NotVisited), k) == 3 * Degrees(g, k) + 6 * k
  {
    if k > 0 { InitUnseen(g, k - 1); }
  }

  lemma {:induction false} InitPcs(g: Graph, numWorkers: nat, k: nat)
    requires g.Valid() && k <= numWorkers
    ensures PcsWeight(g, seq(numWorkers, i => AtGate), k) == 4 * k
  {
    if k > 0 { InitPcs(g, numWorkers, k - 1); }
  }

  /** Every run of the program, gate and main thread included, ends within a number of steps that is
      linear in the adjacency entries, the nodes and the workers. */
  lemma RunsEnd(g: Graph, numWorkers: nat, schedule: seq<Actor>)
    requires g.Valid() && g.Size() > 0 && numWorkers > 0
    requires After(g, Init(g, numWorkers), schedule).Some?
    ensures |schedule| <= 3 * Degrees(g, g.Size()) + 7 * g.Size() + 5 * numWorkers + 7
  {
    hide Inv, UnseenWeight, PcsWeight, After;
    InitInv(g, numWorkers);
    InitUnseen(g, g.Size());
    InitPcs(g, numWorkers, numWorkers);
    RunBound(g, Init(g, numWorkers), seq(g.Size(), i => Unseen), schedule);
  }

  lemma {:induction false} DegreesOfBuilt(values: seq<int>, edges: seq<GraphBuild.EdgeEntry>, k: nat)
    requires k <= |values|
    ensures Degrees(GraphBuild.GraphOf(values, edges), k) == GraphBuild.Degrees(edges, k)
  {
    if k > 0 { DegreesOfBuilt(values, edges, k - 1); }
  }

  /** The parallel program on the graph built from an edge list: a bound on its steps, and the sum
      that the serial program computes from the same list. */
  lemma OnEdgeList(values: seq<int>, edges: seq<GraphBuild.EdgeEntry>, numWorkers: nat, schedule: seq<Actor>)
    requires GraphBuild.Fits(|values|, edges) && |values| > 0 && numWorkers > 0
    requires After(GraphBuild.GraphOf(values, edges), Init(GraphBuild.GraphOf(values, edges), numWorkers),
      schedule).Some?
    ensures |schedule| <= 6 * |edges| + 7 * |values| + 5 * numWorkers + 7
    ensures var g := GraphBuild.GraphOf(values, edges);
      var t := After(g, Init(g, numWorkers), schedule).value;
      AllExited(t.workers) ==> t.sum == Total(g)
  {
    var g := GraphBuild.GraphOf(values, edges);
    GraphBuild.GraphOfValid(values, edges);
    hide GraphBuild.GraphOf, After, Init;
    RunsEnd(g, numWorkers, schedule);
    DegreesOfBuilt(values, edges, |values|);
    GraphBuild.HandShake(edges, |values|);
    var t := After(g, Init(g, numWorkers), schedule).value;
    assert Reachable(g, numWorkers, t);
    if AllExited(t.workers) { CompleteWhenExited(g, numWorkers, t); }
  }

  // ----- where a run can stop

  /** No actor can take a step. */
  ghost predicate Stuck(g: Graph, s: State)
    requires Fits(g, s)
  {
    forall a :: !Enabled(g, s, a)
  }

  /** A worker that will block at the gate, or has. */
  predicate Blocked(pc: Pc) { pc.AboutToWait? || pc.Waiting? }

  /** Whoever holds the mutex of the marks can go on. */
  lemma HolderMoves(g: Graph, s: State, at: seq<Place>)
    requires Inv(g, s, at)
    ensures Fits(g, s) && (s.holder.Some? ==> Enabled(g, s, Worker(s.holder.value)))
  {
    hide Covered, Reached, Summed, SumOf, Phases;
  }

  lemma StuckIs(g: Graph, s: State, at: seq<Place>)
    requires Inv(g, s, at) && Stuck(g, s)
    ensures s.main.End? || (s.main.Join? && s.main.i < |s.workers| && s.workers[s.main.i].Waiting?)
  {
    hide Covered, Reached, Summed, SumOf;
    assert !Enabled(g, s, Main);
    HolderMoves(g, s, at);
    if !s.main.End? {
      var w := s.main.i;
      assert !Enabled(g, s, Worker(w));
    }
  }

  /** A run that cannot go on has ended, or the main thread waits for a worker that waits at the
      gate for a signal given too early. */
  lemma StuckAtGate(g: Graph, numWorkers: nat, s: State)
    requires g.Valid() && g.Size() > 0 && numWorkers > 0 && Reachable(g, numWorkers, s) && Fits(g, s) && Stuck(g, s)
    ensures s.main.End? || (s.main.Join? && s.main.i < |s.workers| && s.workers[s.main.i].Waiting?)
  {
    hide Inv, Reachable, Stuck;
    var at := ReachableInv(g, numWorkers, s);
    StuckIs(g, s, at);
  }

  /** After the broadcast the blocked workers stay as they are. */
  predicate SomeBlocked(s: State) { exists w :: 0 <= w < |s.workers| && Blocked(s.workers[w]) }

  lemma BlockedStays(g: Graph, s: State, at: seq<Place>, a: Actor)
    requires Inv(g, s, at) && Enabled(g, s, a) && s.flag && !s.main.Broadcast?
    ensures var s' := Step(g, s, a); s'.flag && !s'.main.Broadcast? && (SomeBlocked(s') <==> SomeBlocked(s))
  {
    hide Placed, Covered, Reached, Summed, SumOf;
    var s' := Step(g, s, a);
    if SomeBlocked(s) {
      var w :| 0 <= w < |s.workers| && Blocked(s.workers[w]);
      assert Blocked(s'.workers[w]);
    }
    if SomeBlocked(s') {
      var w :| 0 <= w < |s'.workers| && Blocked(s'.workers[w]);
      assert Blocked(s.workers[w]);
    }
  }

  lemma {:induction false} BlockedForever(g: Graph, s: State, at: seq<Place>,
                                          schedule: seq<Actor>) returns (at': seq<Place>)
    requires Inv(g, s, at) && s.flag && !s.main.Broadcast? && After(g, s, schedule).Some?
    ensures var t := After(g, s, schedule).value; Inv(g, t, at') && (SomeBlocked(t) <==> SomeBlocked(s))
    decreases |schedule|
  {
    hide Inv, Step, Enabled, NextAt, SomeBlocked;
    if schedule == [] { return at; }
    InvFits(g, s, at);
    BlockedStays(g, s, at, schedule[0]);
    StepInv(g, s, at, schedule[0]);
    at' := BlockedForever(g, Step(g, s, schedule[0]), NextAt(g, s, at, schedule[0]), schedule[1..]);
  }

  lemma ExitedNotBlocked(s: State)
    ensures AllExited(s.workers) ==> !SomeBlocked(s)
  {
  }

  lemma EndsUnlessBlocked(g: Graph, s: State, at: seq<Place>, schedule: seq<Actor>)
    requires Inv(g, s, at) && s.main == Join(0) && After(g, s, schedule).Some?
    ensures var t := After(g, s, schedule).value; Fits(g, t) && (Stuck(g, t) ==> (t.main.End? <==> !SomeBlocked(s)))
  {
    hide After, Placed, Covered, Reached, Summed, SumOf;
    var t := After(g, s, schedule).value;
    var at' := BlockedForever(g, s, at, schedule);
    hide Inv;
    InvFits(g, t, at');
    if Stuck(g, t) {
      StuckIs(g, t, at');
      ExitedNotBlocked(t);
    }
  }

  /** A worker has seen that the flag is not set, and does not wait yet. */
  predicate SomeAboutToWait(s: State) { exists w :: 0 <= w < |s.workers| && s.workers[w].AboutToWait? }

  lemma BroadcastWakes(g: Graph, s: State)
    requires Fits(g, s) && s.main.Broadcast?
    ensures Enabled(g, s, Main) && Step(g, s, Main).main == Join(0)
    ensures SomeBlocked(Step(g, s, Main)) <==> SomeAboutToWait(s)
  {
    var t := Step(g, s, Main);
    if SomeBlocked(t) {
      var w :| 0 <= w < |t.workers| && Blocked(t.workers[w]);
      assert s.workers[w].AboutToWait?;
    }
    if SomeAboutToWait(s) {
      var w :| 0 <= w < |s.workers| && s.workers[w].AboutToWait?;
      assert Blocked(t.workers[w]);
    }
  }

  lemma AfterFirst(g: Graph, s: State, a: Actor, schedule: seq<Actor>)
    requires Fits(g, s) && Enabled(g, s, a)
    ensures After(g, s, [a] + schedule) == After(g, Step(g, s, a), schedule)
  {
    hide Step, Enabled;
    assert ([a] + schedule)[1..] == schedule;
  }

  lemma {:induction false} AfterAppend(g: Graph, s: State, x: seq<Actor>, y: seq<Actor>)
    requires After(g, s, x).Some?
    ensures After(g, s, x + y) == After(g, After(g, s, x).value, y)
    decreases |x|
  {
    hide Step, Enabled, Fits;
    if x == [] {
      assert x + y == y;
    } else {
      assert (x + y)[1..] == x[1..] + y;
      AfterAppend(g, Step(g, s, x[0]), x[1..], y);
    }
  }

  lemma ReachesOn(g: Graph, numWorkers: nat, s: State, schedule: seq<Actor>)
    requires g.Valid() && g.Size() > 0 && Reachable(g, numWorkers, s) && After(g, s, schedule).Some?
    ensures Reachable(g, numWorkers, After(g, s, schedule).value)
  {
    var first :| After(g, Init(g, numWorkers), first) == Some(s);
    AfterAppend(g, Init(g, numWorkers), first, schedule);
    hide After;
  }

  /** With the broadcast, made in state s, it is settled whether the program ends: a run that goes on from
      there and cannot move any more has reached the end, and with the right sum, if and only if no worker was
      between its test of the flag and its wait. Those that were waiting are woken. */
  lemma EndsUnlessSignalLost(g: Graph, numWorkers: nat, s: State, schedule: seq<Actor>)
    requires g.Valid() && g.Size() > 0 && numWorkers > 0 && Reachable(g, numWorkers, s) && s.main.Broadcast?
    requires After(g, s, [Main] + schedule).Some?
    ensures var t := After(g, s, [Main] + schedule).value;
      Fits(g, t) && (Stuck(g, t) ==>
        (t.main.End? <==> !SomeAboutToWait(s)) && (!SomeAboutToWait(s) ==> t.queue == [] && t.sum == Total(g)))
  {
    hide After, Reachable, Inv, Step, Stuck, SomeBlocked, SomeAboutToWait;
    var at := ReachableInv(g, numWorkers, s);
    InvFits(g, s, at);
    BroadcastWakes(g, s);
    StepInv(g, s, at, Main);
    var s' := Step(g, s, Main);
    AfterFirst(g, s, Main, schedule);
    EndsUnlessBlocked(g, s', NextAt(g, s, at, Main), schedule);
    var t := After(g, s', schedule).value;
    ReachesOn(g, numWorkers, s, [Main] + schedule);
    if Stuck(g, t) && !SomeAboutToWait(s) {
      EndExited(g, numWorkers, t);
      CompleteWhenExited(g, numWorkers, t);
    }
  }

  lemma EndExited(g: Graph, numWorkers: nat, t: State)
    requires g.Valid() && g.Size() > 0 && numWorkers > 0 && Reachable(g, numWorkers, t) && t.main.End?
    ensures AllExited(t.workers)
  {
    hide Reachable, Placed, Covered, Reached, Summed, SumOf;
    var at := ReachableInv(g, numWorkers, t);
  }

  /** The steps of a run before the main thread moves. */
  function BeforeMain(schedule: seq<Actor>): seq<Actor>
  {
    if schedule == [] || schedule[0].Main? then [] else [schedule[0]] + BeforeMain(schedule[1..])
  }

  /** A worker is about to wait, and is not among those that move. */
  predicate Late(s: State, movers: seq<Actor>)
  {
    exists w: nat :: w < |s.workers| && s.workers[w].AboutToWait? && Worker(w) !in movers
  }

  lemma LateStep(g: Graph, s: State, at: seq<Place>, v: nat, movers: seq<Actor>)
    requires Inv(g, s, at) && s.main.Broadcast? && Enabled(g, s, Worker(v))
    ensures var s' := Step(g, s, Worker(v)); s'.main.Broadcast? && (Late(s', movers) <==> Late(s, [Worker(v)] + movers))
  {
    hide Placed, Covered, Reached, Summed, SumOf;
    var s' := Step(g, s, Worker(v));
    if Late(s', movers) {
      var w: nat :| w < |s'.workers| && s'.workers[w].AboutToWait? && Worker(w) !in movers;
      assert w != v && s.workers[w].AboutToWait?;
      assert Worker(w) !in [Worker(v)] + movers;
    }
    if Late(s, [Worker(v)] + movers) {
      var w: nat :| w < |s.workers| && s.workers[w].AboutToWait? && Worker(w) !in [Worker(v)] + movers;
      assert w != v by { assert ([Worker(v)] + movers)[0] == Worker(v); }
      assert Worker(w) !in movers by { assert movers == ([Worker(v)] + movers)[1..]; }
      assert s'.workers[w].AboutToWait?;
    }
  }

  lemma LateNow(s: State)
    ensures Late(s, []) <==> SomeAboutToWait(s)
  {
  }

  /** A run from any state before the broadcast that cannot go on has ended, and with the right sum, if and
      only if every worker that is about to wait in that state moves before the main thread makes the
      broadcast. So it ends if there is no such worker, however many are waiting. */
  lemma {:induction false} EndsFromBroadcast(g: Graph, numWorkers: nat, s: State, schedule: seq<Actor>)
    requires g.Valid() && g.Size() > 0 && numWorkers > 0 && Reachable(g, numWorkers, s) && s.main.Broadcast?
    requires After(g, s, schedule).Some?
    ensures var t := After(g, s, schedule).value;
      Fits(g, t) && (Stuck(g, t) ==>
        (t.main.End? <==> !Late(s, BeforeMain(schedule))) && (t.main.End? ==> t.queue == [] && t.sum == Total(g)))
    decreases |schedule|
  {
    hide Reachable, Inv, Step, Late, SomeAboutToWait;
    var at := ReachableInv(g, numWorkers, s);
    InvFits(g, s, at);
    if schedule == [] {
      assert Enabled(g, s, Main);
    } else if schedule[0].Main? {
      assert [Main] + schedule[1..] == schedule;
      EndsUnlessSignalLost(g, numWorkers, s, schedule[1..]);
      LateNow(s);
    } else {
      var rest := schedule[1..];
      LateStep(g, s, at, schedule[0].w, BeforeMain(rest));
      assert [schedule[0]] == schedule[..1];
      ReachesOn(g, numWorkers, s, [schedule[0]]);
      assert After(g, Step(g, s, schedule[0]), []) == Some(Step(g, s, schedule[0]));
      EndsFromBroadcast(g, numWorkers, Step(g, s, schedule[0]), rest);
    }
  }

  const ONE_NODE: Graph := Graph([5], [[]])

  /** The states of a run in which one worker tests the flag, the main thread queues the root, sets
      the flag and broadcasts, and only then the worker waits. */
  function Losing(k: nat): State
  {
    var s0 := Init(ONE_NODE, 1);
    var s1 := s0.(workers := [AboutToWait]);
    var s2 := s1.(marks := [Processing], main := EnqueueRoot);
    var s3 := s2.(queue := [0], main := SetFlag);
    var s4 := s3.(flag := true, main := Broadcast);
    var s5 := s4.(main := Join(0));
    if k == 0 then s0 else if k == 1 then s1 else if k == 2 then s2 else if k == 3 then s3
    else if k == 4 then s4 else if k == 5 then s5 else s5.(workers := [Waiting])
  }

  function LosingActor(k: nat): Actor { if 1 <= k <= 4 then Main else Worker(0) }

  lemma LosingStep(k: nat)
    requires k < 6
    ensures Fits(ONE_NODE, Losing(k)) && Enabled(ONE_NODE, Losing(k), LosingActor(k))
    ensures Step(ONE_NODE, Losing(k), LosingActor(k)) == Losing(k + 1)
  {
    var s := Losing(k);
    assert |s.marks| == |s.freed| == 1 && |s.workers| == 1;
    if k == 0 {
      assert s.workers[0 := AboutToWait] == [AboutToWait];
    } else if k == 1 {
      assert s.marks[0 := Processing] == [Processing];
    } else if k == 4 {
      assert Woken(s.workers) == s.workers;
    } else if k == 5 {
      assert s.workers[0 := Waiting] == [Waiting];
    }
  }

  /** The actors of that run, from its k-th step on. */
  function LosingFrom(k: nat): seq<Actor>
    requires k <= 6
    decreases 6 - k
  {
    if k == 6 then [] else [LosingActor(k)] + LosingFrom(k + 1)
  }

  lemma {:induction false} LosingRun(k: nat)
    requires k <= 6
    ensures After(ONE_NODE, Losing(k), LosingFrom(k)) == Some(Losing(6))
    decreases 6 - k
  {
    hide Losing, LosingActor, Step, Fits, Enabled;
    if k < 6 {
      LosingStep(k);
      LosingRun(k + 1);
      assert LosingFrom(k)[1..] == LosingFrom(k + 1);
    }
  }

  /** The signal can be lost: there is a run of the program after which nothing can move, although
      the root is queued and the main thread waits for the worker. */
  lemma SignalLost()
    ensures var t := After(ONE_NODE, Init(ONE_NODE, 1), LosingFrom(0));
      t.Some? && Fits(ONE_NODE, t.value) && Stuck(ONE_NODE, t.value) && t.value.main == Join(0) && t.value.queue == [0]
  {
    hide After, Step;
    LosingRun(0);
    assert Losing(0) == Init(ONE_NODE, 1);
  }

  lemma {:induction false} LosingTo(k: nat) returns (schedule: seq<Actor>)
    requires k <= 6
    ensures After(ONE_NODE, Losing(0), schedule) == Some(Losing(k))
  {
    hide Losing, LosingActor, Step, Fits, Enabled;
    schedule := [];
    if k > 0 {
      var first := LosingTo(k - 1);
      LosingStep(k - 1);
      AfterAppend(ONE_NODE, Losing(0), first, [LosingActor(k - 1)]);
      assert [LosingActor(k - 1)][1..] == [];
      schedule := first + [LosingActor(k - 1)];
    }
  }

  /** A worker that is about to wait just before the broadcast need not be late: if it still waits in time,
      the run ends. */
  lemma WaitsInTime(schedule: seq<Actor>)
    requires After(ONE_NODE, Losing(4), [Worker(0)] + schedule).Some?
    ensures var t := After(ONE_NODE, Losing(4), [Worker(0)] + schedule).value;
      && Reachable(ONE_NODE, 1, Losing(4)) && Losing(4).main.Broadcast? && SomeAboutToWait(Losing(4))
      && Fits(ONE_NODE, t) && (Stuck(ONE_NODE, t) ==> t.main.End? && t.sum == Total(ONE_NODE))
  {
    hide After, Step, Stuck, Total;
    var first := LosingTo(4);
    assert Losing(0) == Init(ONE_NODE, 1);
    assert Losing(4).workers[0].AboutToWait?;
    var run := [Worker(0)] + schedule;
    assert run[0] == Worker(0) && BeforeMain(run) == [Worker(0)] + BeforeMain(run[1..]);
    assert Worker(0) in BeforeMain(run);
    EndsFromBroadcast(ONE_NODE, 1, Losing(4), run);
  }
}
