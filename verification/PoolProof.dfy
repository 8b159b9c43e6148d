/** Every step of every actor, in any interleaving, keeps the invariant of the traversal. */
module PoolProof {
  import opened Graphs
  import opened Pool

  lemma InitInv(g: Graph, numWorkers: nat)
    requires g.Valid() && g.Size() > 0 && numWorkers > 0
    ensures Inv(g, Init(g, numWorkers), seq(g.Size(), i => Unseen))
  {
    var s, at := Init(g, numWorkers), seq(g.Size(), i => Unseen);
    assert s.workers[0] == AtGate;
    assert Summed(g, s, at) == {};
    SumNone(g);
  }

  lemma PcOk(g: Graph, s: State, w: nat)
    requires Fits(g, s) && w < |s.workers|
    ensures PcFits(g, s.workers[w]) && g.Valid()
  {
  }

  /** Where the worker is next. */
  lemma NextFits(g: Graph, s: State, w: nat)
    requires Fits(g, s) && Enabled(g, s, Worker(w))
    ensures var s' := WorkerStep(g, s, w);
      && |s'.workers| == |s.workers| && w < |s.workers| && s'.workers == s.workers[w := s'.workers[w]]
      && PcFits(g, s'.workers[w])
  {
    PcOk(g, s, w);
  }

  lemma WorkerFits(g: Graph, s: State, at: seq<Place>, w: nat)
    requires Fits(g, s) && Enabled(g, s, Worker(w))
    ensures Fits(g, WorkerStep(g, s, w))
  {
    NextFits(g, s, w);
    PcOk(g, s, w);
    QueueFits(g, s, w);
    hide PcFits, WorkerStep;
  }

  lemma QueueFits(g: Graph, s: State, w: nat)
    requires Fits(g, s) && Enabled(g, s, Worker(w))
    ensures var s' := WorkerStep(g, s, w);
      && |s'.marks| == |s'.freed| == g.Size()
      && forall k :: 0 <= k < |s'.queue| ==> s'.queue[k] < g.Size()
  {
    PcOk(g, s, w);
  }

  lemma MainFits(g: Graph, s: State, at: seq<Place>)
    requires Fits(g, s) && Enabled(g, s, Main)
    ensures Fits(g, MainStep(g, s))
  {
  }

  lemma StepFits(g: Graph, s: State, at: seq<Place>, a: Actor)
    requires Inv(g, s, at) && Enabled(g, s, a)
    ensures Fits(g, Step(g, s, a))
  {
    hide Placed, Covered, Reached, Summed, SumOf, Fits, Enabled, WorkerStep, MainStep;
    match a {
      case Main => MainFits(g, s, at);
      case Worker(w) => WorkerFits(g, s, at, w);
    }
  }

  /** A worker past the gate that has not exited: the root has been queued, and main is not past
      its joins. */
  lemma Started(g: Graph, s: State, at: seq<Place>, w: nat)
    requires Inv(g, s, at) && w < |s.workers| && !Gate(s.workers[w]) && !s.workers[w].Exited?
    ensures s.main.Broadcast? || s.main.Join?
  {
    hide Covered, Reached, Summed, SumOf, Placed;
  }

  /** A worker goes on with the same node, or still without one, outside the critical section. */
  lemma PlacedMoved(g: Graph, s: State, at: seq<Place>, w: nat, pc: Pc)
    requires Fits(g, s) && Placed(g, s, at) && w < |s.workers| && Fits(g, Moved(s, w, pc))
    requires NodeOf(pc) == NodeOf(s.workers[w]) && (Marked(pc) <==> Marked(s.workers[w]))
    requires !pc.Push? && !pc.Release? && !s.workers[w].Push? && !s.workers[w].Release?
    ensures Placed(g, Moved(s, w, pc), at)
  {
  }

  lemma PlacedAtGate(g: Graph, s: State, at: seq<Place>, w: nat)
    requires Inv(g, s, at) && Enabled(g, s, Worker(w)) && Fits(g, WorkerStep(g, s, w))
    requires s.workers[w].AtGate? || s.workers[w].AboutToWait?
    ensures Placed(g, WorkerStep(g, s, w), NextAt(g, s, at, Worker(w)))
  {
    hide Covered, Reached, Summed, SumOf, Phases, Placed, Fits;
    PlacedMoved(g, s, at, w, WorkerStep(g, s, w).workers[w]);
  }

  lemma PlacedExit(g: Graph, s: State, at: seq<Place>, w: nat)
    requires Inv(g, s, at) && Enabled(g, s, Worker(w)) && Fits(g, WorkerStep(g, s, w))
    requires s.workers[w].Idle? && s.queue == []
    ensures Placed(g, WorkerStep(g, s, w), NextAt(g, s, at, Worker(w)))
  {
    hide Covered, Reached, Summed, SumOf, Phases, Placed, Fits;
    PlacedMoved(g, s, at, w, Exited);
  }

  /** Where everything is after worker w has taken the oldest task. */
  lemma TakeAll(g: Graph, s: State, at: seq<Place>, w: nat, n: nat)
    requires Fits(g, s) && Placed(g, s, at) && w < |s.workers| && s.workers[w].Idle? && s.queue != [] && n == s.queue[0]
    requires Fits(g, Moved(s, w, Check(n)).(queue := s.queue[1..]))
    ensures AllPlaced(g, Moved(s, w, Check(n)).(queue := s.queue[1..]), at[n := With(w)])
  {
    var s' := Moved(s, w, Check(n)).(queue := s.queue[1..]);
    assert at[n] == Queued && PlaceFits(g, s, at[n], n);
    forall m: nat | m < g.Size() && m != n && m in s.queue ensures m in s'.queue {
      var k :| 0 <= k < |s.queue| && s.queue[k] == m;
      assert s'.queue[k - 1] == m;
    }
    hide Located, Fits;
  }

  lemma TakeLocated(g: Graph, s: State, at: seq<Place>, w: nat, n: nat)
    requires Fits(g, s) && Placed(g, s, at) && w < |s.workers| && s.workers[w].Idle? && s.queue != [] && n == s.queue[0]
    requires Fits(g, Moved(s, w, Check(n)).(queue := s.queue[1..]))
    ensures Located(g, Moved(s, w, Check(n)).(queue := s.queue[1..]), at[n := With(w)])
  {
    hide AllPlaced, PlaceFits;
    var s' := Moved(s, w, Check(n)).(queue := s.queue[1..]);
    assert at[n] == Queued;
    assert forall k :: 0 <= k < |s'.queue| ==> s'.queue[k] == s.queue[k + 1] != n;
  }

  lemma PlacedTake(g: Graph, s: State, at: seq<Place>, w: nat)
    requires Inv(g, s, at) && Enabled(g, s, Worker(w)) && Fits(g, WorkerStep(g, s, w))
    requires s.workers[w].Idle? && s.queue != []
    ensures Placed(g, WorkerStep(g, s, w), NextAt(g, s, at, Worker(w)))
  {
    var n := s.queue[0];
    assert n < g.Size() && |at| == g.Size();
    hide Covered, Reached, Summed, SumOf, Phases, AllPlaced, Located, Fits;
    TakeAll(g, s, at, w, n);
    TakeLocated(g, s, at, w, n);
  }

  lemma PlacedVisit(g: Graph, s: State, at: seq<Place>, w: nat)
    requires Inv(g, s, at) && Enabled(g, s, Worker(w)) && Fits(g, WorkerStep(g, s, w))
    requires s.workers[w].Check? || s.workers[w].Add?
    ensures Placed(g, WorkerStep(g, s, w), NextAt(g, s, at, Worker(w)))
  {
    hide Covered, Reached, Summed, SumOf, Phases;
  }

  lemma PlacedFinish(g: Graph, s: State, at: seq<Place>, w: nat)
    requires Inv(g, s, at) && Enabled(g, s, Worker(w)) && Fits(g, WorkerStep(g, s, w))
    requires s.workers[w].Finish?
    ensures Placed(g, WorkerStep(g, s, w), NextAt(g, s, at, Worker(w)))
  {
    hide Covered, Reached, Summed, SumOf, Phases;
  }

  lemma PlacedMark(g: Graph, s: State, at: seq<Place>, w: nat)
    requires Inv(g, s, at) && Enabled(g, s, Worker(w)) && Fits(g, WorkerStep(g, s, w))
    requires s.workers[w].Scan? && s.workers[w].i < |g.adj[s.workers[w].n]|
      && s.marks[g.adj[s.workers[w].n][s.workers[w].i]] == NotVisited
    ensures Placed(g, WorkerStep(g, s, w), NextAt(g, s, at, Worker(w)))
  {
    hide Covered, Reached, Summed, SumOf, Phases;
    Started(g, s, at, w);
    assert at[g.adj[s.workers[w].n][s.workers[w].i]] == Unseen;
  }

  lemma PlacedSkip(g: Graph, s: State, at: seq<Place>, w: nat)
    requires Inv(g, s, at) && Enabled(g, s, Worker(w)) && Fits(g, WorkerStep(g, s, w))
    requires s.workers[w].Scan? && (s.workers[w].i == |g.adj[s.workers[w].n]|
      || s.marks[g.adj[s.workers[w].n][s.workers[w].i]] != NotVisited)
    ensures Placed(g, WorkerStep(g, s, w), NextAt(g, s, at, Worker(w)))
  {
    hide Covered, Reached, Summed, SumOf, Phases, Placed, Fits;
    PcOk(g, s, w);
    var pc := s.workers[w];
    PlacedMoved(g, s, at, w, if pc.i == |g.adj[pc.n]| then Destroy(pc.n) else Scan(pc.n, pc.i + 1));
  }

  lemma PlacedPush(g: Graph, s: State, at: seq<Place>, w: nat)
    requires Inv(g, s, at) && Enabled(g, s, Worker(w)) && Fits(g, WorkerStep(g, s, w))
    requires s.workers[w].Push?
    ensures Placed(g, WorkerStep(g, s, w), NextAt(g, s, at, Worker(w)))
  {
    hide Covered, Reached, Summed, SumOf, Phases;
    var m := g.adj[s.workers[w].n][s.workers[w].i];
    Started(g, s, at, w);
    assert at[m] == Transit;
    assert m in WorkerStep(g, s, w).queue by { assert WorkerStep(g, s, w).queue[|s.queue|] == m; }
  }

  lemma PlacedRelease(g: Graph, s: State, at: seq<Place>, w: nat)
    requires Inv(g, s, at) && Enabled(g, s, Worker(w)) && Fits(g, WorkerStep(g, s, w))
    requires s.workers[w].Release?
    ensures Placed(g, WorkerStep(g, s, w), NextAt(g, s, at, Worker(w)))
  {
    hide Covered, Reached, Summed, SumOf, Phases;
  }

  lemma PlacedDestroy(g: Graph, s: State, at: seq<Place>, w: nat)
    requires Inv(g, s, at) && Enabled(g, s, Worker(w)) && Fits(g, WorkerStep(g, s, w))
    requires s.workers[w].Destroy?
    ensures Placed(g, WorkerStep(g, s, w), NextAt(g, s, at, Worker(w)))
  {
    hide Covered, Reached, Summed, SumOf, Phases;
  }

  lemma WorkerPlaced(g: Graph, s: State, at: seq<Place>, w: nat)
    requires Inv(g, s, at) && Enabled(g, s, Worker(w)) && Fits(g, WorkerStep(g, s, w))
    ensures Placed(g, WorkerStep(g, s, w), NextAt(g, s, at, Worker(w)))
  {
    assert PcFits(g, s.workers[w]);
    hide Covered, Reached, Summed, SumOf, Placed, Phases, Fits, WorkerStep, NextAt;
    match s.workers[w] {
      case AtGate => PlacedAtGate(g, s, at, w);
      case AboutToWait => PlacedAtGate(g, s, at, w);
      case Idle => if s.queue == [] { PlacedExit(g, s, at, w); } else { PlacedTake(g, s, at, w); }
      case Check(n) => PlacedVisit(g, s, at, w);
      case Add(n) => PlacedVisit(g, s, at, w);
      case Finish(n) => PlacedFinish(g, s, at, w);
      case Scan(n, i) =>
        if i < |g.adj[n]| && s.marks[g.adj[n][i]] == NotVisited {
          PlacedMark(g, s, at, w);
        } else {
          PlacedSkip(g, s, at, w);
        }
      case Push(n, i) => PlacedPush(g, s, at, w);
      case Release(n, i) => PlacedRelease(g, s, at, w);
      case Destroy(n) => PlacedDestroy(g, s, at, w);
    }
  }

  lemma CoveredBefore(g: Graph, s: State, at: seq<Place>, w: nat)
    requires Inv(g, s, at) && Enabled(g, s, Worker(w)) && Fits(g, WorkerStep(g, s, w))
    requires !Marked(s.workers[w])
    ensures Covered(g, WorkerStep(g, s, w), NextAt(g, s, at, Worker(w)))
  {
    hide Reached, Summed, SumOf, Phases;
    if s.workers[w].Idle? && s.queue != [] {
      CoveredTake(g, s, at, w);
    } else if s.workers[w].Finish? {
      CoveredFinish(g, s, at, w);
    }
  }

  lemma CoveredTake(g: Graph, s: State, at: seq<Place>, w: nat)
    requires Inv(g, s, at) && Enabled(g, s, Worker(w)) && Fits(g, WorkerStep(g, s, w))
    requires s.workers[w].Idle? && s.queue != []
    ensures Covered(g, WorkerStep(g, s, w), NextAt(g, s, at, Worker(w)))
  {
    hide Reached, Summed, SumOf, Phases;
    var n := s.queue[0];
    assert at[n] == Queued && PlaceFits(g, s, at[n], n);
    hide Placed;
  }

  lemma CoveredFinish(g: Graph, s: State, at: seq<Place>, w: nat)
    requires Inv(g, s, at) && Enabled(g, s, Worker(w)) && Fits(g, WorkerStep(g, s, w))
    requires s.workers[w].Finish?
    ensures Covered(g, WorkerStep(g, s, w), NextAt(g, s, at, Worker(w)))
  {
    hide Reached, Summed, SumOf, Phases;
  }

  lemma CoveredScan(g: Graph, s: State, at: seq<Place>, w: nat)
    requires Inv(g, s, at) && Enabled(g, s, Worker(w)) && Fits(g, WorkerStep(g, s, w))
    requires s.workers[w].Scan?
    ensures Covered(g, WorkerStep(g, s, w), NextAt(g, s, at, Worker(w)))
  {
    hide Reached, Summed, SumOf, Phases;
  }

  lemma CoveredAfter(g: Graph, s: State, at: seq<Place>, w: nat)
    requires Inv(g, s, at) && Enabled(g, s, Worker(w)) && Fits(g, WorkerStep(g, s, w))
    requires s.workers[w].Push? || s.workers[w].Release? || s.workers[w].Destroy?
    ensures Covered(g, WorkerStep(g, s, w), NextAt(g, s, at, Worker(w)))
  {
    hide Reached, Summed, SumOf, Phases;
  }

  lemma WorkerCovered(g: Graph, s: State, at: seq<Place>, w: nat)
    requires Inv(g, s, at) && Enabled(g, s, Worker(w)) && Fits(g, WorkerStep(g, s, w))
    ensures Covered(g, WorkerStep(g, s, w), NextAt(g, s, at, Worker(w)))
  {
    hide Covered, Reached, Summed, SumOf, Placed, Phases, Fits, WorkerStep, NextAt;
    if s.workers[w].Scan? { CoveredScan(g, s, at, w);
    } else if Marked(s.workers[w]) { CoveredAfter(g, s, at, w);
    } else { CoveredBefore(g, s, at, w); }
  }

  lemma WorkerReached(g: Graph, s: State, at: seq<Place>, w: nat)
    requires Inv(g, s, at) && Enabled(g, s, Worker(w)) && Fits(g, WorkerStep(g, s, w))
    ensures Reached(g, WorkerStep(g, s, w))
  {
    hide Covered, Summed, SumOf, Phases, Reaches;
    if s.workers[w].Scan? && s.workers[w].i < |g.adj[s.workers[w].n]| {
      var n, i := s.workers[w].n, s.workers[w].i;
      assert Edge(g, n, g.adj[n][i]);
      ReachesEdge(g, 0, n, g.adj[n][i]);
    }
  }

  lemma CountedVisit(g: Graph, s: State, at: seq<Place>, w: nat, n: nat)
    requires Inv(g, s, at) && Enabled(g, s, Worker(w)) && Fits(g, WorkerStep(g, s, w)) && n < g.Size()
    requires s.workers[w].Check? || s.workers[w].Add? || s.workers[w].Finish? || s.workers[w].Idle?
    ensures var s', at' := WorkerStep(g, s, w), NextAt(g, s, at, Worker(w));
      Counted(g, s', at', n) <==> Counted(g, s, at, n) || (s.workers[w].Add? && s.workers[w].n == n)
    ensures s.workers[w].Add? && s.workers[w].n == n ==> !Counted(g, s, at, n)
  {
    hide Covered, Reached, Summed, SumOf, Phases;
  }

  lemma CountedScan(g: Graph, s: State, at: seq<Place>, w: nat, n: nat)
    requires Inv(g, s, at) && Enabled(g, s, Worker(w)) && Fits(g, WorkerStep(g, s, w)) && n < g.Size()
    requires !(s.workers[w].Check? || s.workers[w].Add? || s.workers[w].Finish? || s.workers[w].Idle?)
    ensures Counted(g, WorkerStep(g, s, w), NextAt(g, s, at, Worker(w)), n) <==> Counted(g, s, at, n)
  {
    hide Covered, Reached, Summed, SumOf, Phases;
  }

  lemma WorkerSum(g: Graph, s: State, at: seq<Place>, w: nat)
    requires Inv(g, s, at) && Enabled(g, s, Worker(w)) && Fits(g, WorkerStep(g, s, w))
    ensures var s' := WorkerStep(g, s, w); s'.sum == SumOf(g, Summed(g, s', NextAt(g, s, at, Worker(w))))
  {
    assert |at| == g.Size();
    hide Covered, Reached, SumOf, Phases, Placed, Counted, NextAt;
    var s', at' := WorkerStep(g, s, w), NextAt(g, s, at, Worker(w));
    forall n: nat | n < g.Size()
      ensures Counted(g, s', at', n) <==> Counted(g, s, at, n) || (s.workers[w].Add? && s.workers[w].n == n)
      ensures s.workers[w].Add? && s.workers[w].n == n ==> !Counted(g, s, at, n)
    {
      if s.workers[w].Check? || s.workers[w].Add? || s.workers[w].Finish? || s.workers[w].Idle? {
        CountedVisit(g, s, at, w, n);
      } else {
        CountedScan(g, s, at, w, n);
      }
    }
    if s.workers[w].Add? {
      assert Summed(g, s', at') == Summed(g, s, at) + {s.workers[w].n};
      SumAdd(g, Summed(g, s, at), s.workers[w].n);
    } else {
      assert Summed(g, s', at') == Summed(g, s, at);
    }
  }

  lemma WorkerPhases(g: Graph, s: State, at: seq<Place>, w: nat)
    requires Inv(g, s, at) && Enabled(g, s, Worker(w)) && Fits(g, WorkerStep(g, s, w))
    ensures Phases(g, WorkerStep(g, s, w))
  {
    hide Covered, Reached, Summed, SumOf;
    var s' := WorkerStep(g, s, w);
    assert !s.workers[w].Exited?;
    if AllExited(s'.workers) { assert s'.workers[w].Exited?; }
  }

  lemma PlacedRoot(g: Graph, s: State, at: seq<Place>)
    requires Inv(g, s, at) && Enabled(g, s, Main) && Fits(g, MainStep(g, s))
    requires s.main.MarkRoot? || s.main.EnqueueRoot?
    ensures Placed(g, MainStep(g, s), NextAt(g, s, at, Main))
  {
    hide Covered, Reached, Summed, SumOf;
    var s' := MainStep(g, s);
    if s.main.MarkRoot? {
      assert at[0] == Unseen;
    } else {
      assert 0 in s'.queue by { assert s'.queue[|s.queue|] == 0; }
    }
  }

  lemma PlacedBroadcast(g: Graph, s: State, at: seq<Place>)
    requires Inv(g, s, at) && Enabled(g, s, Main) && Fits(g, MainStep(g, s)) && s.main.Broadcast?
    ensures Placed(g, MainStep(g, s), NextAt(g, s, at, Main))
  {
    hide Covered, Reached, Summed, SumOf, Phases;
  }

  lemma PlacedEnding(g: Graph, s: State, at: seq<Place>)
    requires Inv(g, s, at) && Enabled(g, s, Main) && Fits(g, MainStep(g, s))
    requires s.main.SetFlag? || s.main.Join? || s.main.Drain? || s.main.FreeRest?
    ensures Placed(g, MainStep(g, s), NextAt(g, s, at, Main))
  {
    hide Covered, Reached, Summed, SumOf;
  }

  lemma MainPlaced(g: Graph, s: State, at: seq<Place>)
    requires Inv(g, s, at) && Enabled(g, s, Main) && Fits(g, MainStep(g, s))
    ensures Placed(g, MainStep(g, s), NextAt(g, s, at, Main))
  {
    hide Covered, Reached, Summed, SumOf, Placed, Phases, Fits, MainStep, NextAt;
    if s.main.MarkRoot? || s.main.EnqueueRoot? { PlacedRoot(g, s, at);
    } else if s.main.Broadcast? { PlacedBroadcast(g, s, at);
    } else { PlacedEnding(g, s, at); }
  }

  lemma MainPhases(g: Graph, s: State, at: seq<Place>)
    requires Inv(g, s, at) && Enabled(g, s, Main) && Fits(g, MainStep(g, s))
    ensures Phases(g, MainStep(g, s))
  {
    hide Covered, Reached, Summed, SumOf, Placed;
    var s' := MainStep(g, s);
    match s.main {
      case MarkRoot =>
      case EnqueueRoot => assert Gate(s'.workers[0]);
      case SetFlag =>
      case Broadcast =>
        if AllExited(s'.workers) {
          forall w | 0 <= w < |s.workers| ensures s.workers[w].Exited? { assert s'.workers[w].Exited?; }
        }
      case Join(i) =>
        if i < |s.workers| {
          assert s.workers[..i + 1] == s.workers[..i] + [s.workers[i]];
        } else {
          assert s.workers[..i] == s.workers;
        }
      case Drain =>
      case FreeRest(i) =>
    }
  }

  lemma MainRest(g: Graph, s: State, at: seq<Place>)
    requires Inv(g, s, at) && Enabled(g, s, Main) && Fits(g, MainStep(g, s))
    ensures var s', at' := MainStep(g, s), NextAt(g, s, at, Main); Covered(g, s', at') && Reached(g, s')
  {
    hide Summed, SumOf;
    if s.main.MarkRoot? { ReachesSelf(g, 0); }
  }

  lemma MainSum(g: Graph, s: State, at: seq<Place>)
    requires Inv(g, s, at) && Enabled(g, s, Main) && Fits(g, MainStep(g, s))
    ensures var s' := MainStep(g, s); s'.sum == SumOf(g, Summed(g, s', NextAt(g, s, at, Main)))
  {
    hide Covered, Reached, SumOf;
    assert Summed(g, MainStep(g, s), NextAt(g, s, at, Main)) == Summed(g, s, at);
  }

  /** Every step of every actor keeps the invariant. */
  lemma StepInv(g: Graph, s: State, at: seq<Place>, a: Actor)
    requires Inv(g, s, at) && Enabled(g, s, a)
    ensures Inv(g, Step(g, s, a), NextAt(g, s, at, a))
  {
    StepFits(g, s, at, a);
    hide Covered, Reached, Summed, SumOf, Placed, Phases, Fits, WorkerStep, MainStep, NextAt;
    match a {
      case Main =>
        MainPlaced(g, s, at);
        MainRest(g, s, at);
        MainPhases(g, s, at);
        MainSum(g, s, at);
      case Worker(w) =>
        WorkerPlaced(g, s, at, w);
        WorkerCovered(g, s, at, w);
        WorkerReached(g, s, at, w);
        WorkerSum(g, s, at, w);
        WorkerPhases(g, s, at, w);
    }
  }
}
