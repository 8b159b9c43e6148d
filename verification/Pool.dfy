/** The parallel traversal as an interleaving of atomic steps, one for each critical section and
    each access between two of them. Any number of workers, any graph, any schedule. */
module Pool {
  import opened Graphs

  datatype Option<+T> = None | Some(value: T)

  /** Where a worker is. Up to Idle it is at the gate of thread_loop_function; Idle is the call of
      dequeue_task; Check to Release are the parts of action, on node n and its i-th neighbour. */
  datatype Pc =
    | AtGate | AboutToWait | Waiting
    | Idle
    | Check(n: nat) | Add(n: nat) | Finish(n: nat)
    | Scan(n: nat, i: nat) | Push(n: nat, i: nat) | Release(n: nat, i: nat)
    | Destroy(n: nat)
    | Exited

  /** Where the main thread is. */
  datatype MainPc =
    | MarkRoot | EnqueueRoot | SetFlag | Broadcast | Join(i: nat) | Drain | FreeRest(i: nat) | End

  /** The shared state. The queue holds the nodes of the queued tasks; holder is the worker that
      holds the mutex of the marks; freed counts how often each node was freed. */
  datatype State = State(
    marks: seq<Mark>, queue: seq<nat>, sum: int, holder: Option<nat>, workers: seq<Pc>, flag: bool, main: MainPc,
    freed: seq<nat>)

  datatype Actor = Main | Worker(w: nat)

  function Init(g: Graph, numWorkers: nat): State
  {
    State(seq(g.Size(), i => NotVisited), [], 0, None, seq(numWorkers, i => AtGate), false, MarkRoot,
      seq(g.Size(), i => 0))
  }

  function NodeOf(pc: Pc): Option<nat>
  {
    match pc
    case AtGate | AboutToWait | Waiting | Idle | Exited => None
    case _ => Some(pc.n)
  }

  predicate PcFits(g: Graph, pc: Pc)
  {
    (NodeOf(pc).Some? ==> pc.n < g.Size())
    && (pc.Scan? ==> pc.i <= |g.adj[pc.n]|)
    && (pc.Push? || pc.Release? ==> pc.i < |g.adj[pc.n]|)
  }

  predicate Fits(g: Graph, s: State)
  {
    && g.Valid() && g.Size() > 0 && |s.marks| == |s.freed| == g.Size()
    && (forall w :: 0 <= w < |s.workers| ==> PcFits(g, s.workers[w]))
    && (forall k :: 0 <= k < |s.queue| ==> s.queue[k] < g.Size())
  }

  /** Whether the worker's next step needs the mutex of the marks. */
  predicate NeedsMutex(g: Graph, pc: Pc)
    requires PcFits(g, pc)
  {
    pc.Check? || pc.Finish? || (pc.Scan? && pc.i < |g.adj[pc.n]|)
  }

  predicate Enabled(g: Graph, s: State, a: Actor)
    requires Fits(g, s)
  {
    match a
    case Worker(w) =>
      && w < |s.workers| && !s.workers[w].Exited? && !s.workers[w].Waiting?
      && (NeedsMutex(g, s.workers[w]) ==> s.holder == None)
    case Main => !s.main.End? && (s.main.Join? && s.main.i < |s.workers| ==> s.workers[s.main.i].Exited?)
  }

  function Moved(s: State, w: nat, pc: Pc): State
    requires w < |s.workers|
  {
    s.(workers := s.workers[w := pc])
  }

  function WorkerStep(g: Graph, s: State, w: nat): State
    requires Fits(g, s) && Enabled(g, s, Worker(w))
  {
    match s.workers[w]
    case AtGate => Moved(s, w, if s.flag then Idle else AboutToWait)
    case AboutToWait => Moved(s, w, Waiting)
    case Idle =>
      if s.queue == [] then Moved(s, w, Exited) else Moved(s, w, Check(s.queue[0])).(queue := s.queue[1..])
    case Check(n) => Moved(s, w, if s.marks[n] == Done then Destroy(n) else Add(n))
    case Add(n) => Moved(s, w, Finish(n)).(sum := s.sum + g.info[n])
    case Finish(n) => Moved(s, w, Scan(n, 0)).(marks := s.marks[n := Done])
    case Scan(n, i) =>
      if i == |g.adj[n]| then Moved(s, w, Destroy(n))
      else if s.marks[g.adj[n][i]] == NotVisited then
        Moved(s, w, Push(n, i)).(marks := s.marks[g.adj[n][i] := Processing], holder := Some(w))
      else Moved(s, w, Scan(n, i + 1))
    case Push(n, i) => Moved(s, w, Release(n, i)).(queue := s.queue + [g.adj[n][i]])
    case Release(n, i) => Moved(s, w, Scan(n, i + 1)).(holder := None)
    case Destroy(n) => Moved(s, w, Idle).(freed := s.freed[n := s.freed[n] + 1])
  }

  function Woken(pcs: seq<Pc>): (r: seq<Pc>)
    ensures |r| == |pcs|
  {
    seq(|pcs|, w requires 0 <= w < |pcs| => if pcs[w].Waiting? then Idle else pcs[w])
  }

  function MainStep(g: Graph, s: State): State
    requires Fits(g, s) && Enabled(g, s, Main)
  {
    match s.main
    case MarkRoot => s.(marks := s.marks[0 := Processing], main := EnqueueRoot)
    case EnqueueRoot => s.(queue := s.queue + [0], main := SetFlag)
    case SetFlag => s.(flag := true, main := Broadcast)
    case Broadcast => s.(workers := Woken(s.workers), main := Join(0))
    case Join(i) => s.(main := if i < |s.workers| then Join(i + 1) else Drain)
    case Drain =>
      if s.queue == [] then s.(main := FreeRest(0))
      else s.(queue := s.queue[1..], freed := s.freed[s.queue[0] := s.freed[s.queue[0]] + 1])
    case FreeRest(i) =>
      if i >= g.Size() then s.(main := End)
      else if s.marks[i] == NotVisited then s.(main := FreeRest(i + 1), freed := s.freed[i := s.freed[i] + 1])
      else s.(main := FreeRest(i + 1))
  }

  function Step(g: Graph, s: State, a: Actor): State
    requires Fits(g, s) && Enabled(g, s, a)
  {
    match a case Worker(w) => WorkerStep(g, s, w) case Main => MainStep(g, s)
  }

  // ----- the invariant

  /** The one place where each node is. */
  datatype Place = Unseen | Queued | With(w: nat) | Transit | Gone

  function Carries(g: Graph, pc: Pc): Option<nat>
    requires PcFits(g, pc)
  {
    if pc.Push? then Some(g.adj[pc.n][pc.i]) else None
  }

  /** A worker has marked its node done when it scans the neighbours. */
  predicate Marked(pc: Pc) { pc.Scan? || pc.Push? || pc.Release? || pc.Destroy? }

  function FreedBelow(m: MainPc): nat { if m.FreeRest? then m.i else 0 }

  predicate PlaceFits(g: Graph, s: State, p: Place, n: nat)
    requires Fits(g, s) && n < g.Size()
  {
    match p
    case Unseen => s.marks[n] == NotVisited && s.freed[n] == (if s.main.End? || n < FreedBelow(s.main) then 1 else 0)
    case Queued => s.marks[n] == Processing && n in s.queue && s.freed[n] == 0
    case With(w) =>
      && w < |s.workers| && NodeOf(s.workers[w]) == Some(n) && s.freed[n] == 0
      && s.marks[n] == (if Marked(s.workers[w]) then Done else Processing)
    case Transit =>
      && s.marks[n] == Processing && s.freed[n] == 0
      && ((s.main.EnqueueRoot? && n == 0)
          || (s.holder.Some? && s.holder.value < |s.workers| && Carries(g, s.workers[s.holder.value]) == Some(n)))
    case Gone => s.marks[n] == Done && s.freed[n] == 1
  }

  predicate Distinct(q: seq<nat>) { forall j, k :: 0 <= j < k < |q| ==> q[j] != q[k] }

  predicate AllPlaced(g: Graph, s: State, at: seq<Place>)
    requires Fits(g, s) && |at| == g.Size()
  {
    forall n: nat :: n < g.Size() ==> PlaceFits(g, s, at[n], n)
  }

  /** The workers and the queue are where the places say. */
  predicate Located(g: Graph, s: State, at: seq<Place>)
    requires Fits(g, s) && |at| == g.Size()
  {
    && (forall w: nat :: w < |s.workers| && NodeOf(s.workers[w]).Some? ==> at[s.workers[w].n] == With(w))
    && (forall w: nat :: w < |s.workers| && Carries(g, s.workers[w]).Some? ==>
      at[Carries(g, s.workers[w]).value] == Transit)
    && (forall w: nat :: w < |s.workers| ==> (s.holder == Some(w) <==> s.workers[w].Push? || s.workers[w].Release?))
    && (s.holder.Some? ==> s.holder.value < |s.workers|)
    && (forall k :: 0 <= k < |s.queue| ==> at[s.queue[k]] == Queued)
    && Distinct(s.queue)
    && (s.main.EnqueueRoot? ==> at[0] == Transit)
  }

  predicate Placed(g: Graph, s: State, at: seq<Place>)
    requires Fits(g, s)
  {
    |at| == g.Size() && AllPlaced(g, s, at) && Located(g, s, at)
  }

  /** The neighbour j of the node is still ahead of the worker. */
  predicate Ahead(pc: Pc, j: nat)
  {
    (pc.Scan? && pc.i <= j) || ((pc.Push? || pc.Release?) && pc.i < j)
  }

  /** Every neighbour of a done node has been seen, or will be by the worker that holds the node. */
  predicate Covered(g: Graph, s: State, at: seq<Place>)
    requires Fits(g, s) && |at| == g.Size()
  {
    forall n: nat, j: nat :: n < g.Size() && j < |g.adj[n]| && s.marks[n] == Done ==>
      s.marks[g.adj[n][j]] != NotVisited || (at[n].With? && at[n].w < |s.workers| && Ahead(s.workers[at[n].w], j))
  }

  ghost predicate Reached(g: Graph, s: State)
    requires Fits(g, s)
  {
    forall n: nat :: n < g.Size() && s.marks[n] != NotVisited ==> Reaches(g, 0, n)
  }

  /** The value of the node has been added. */
  predicate Counted(g: Graph, s: State, at: seq<Place>, n: nat)
    requires Fits(g, s) && |at| == g.Size() && n < g.Size()
  {
    s.marks[n] == Done || (at[n].With? && at[n].w < |s.workers| && s.workers[at[n].w].Finish?)
  }

  function Summed(g: Graph, s: State, at: seq<Place>): set<nat>
    requires Fits(g, s) && |at| == g.Size()
  {
    set n: nat | n < g.Size() && Counted(g, s, at, n)
  }

  predicate Gate(pc: Pc) { pc.AtGate? || pc.AboutToWait? || pc.Waiting? }

  predicate AllExited(pcs: seq<Pc>) { forall w :: 0 <= w < |pcs| ==> pcs[w].Exited? }

  predicate Phases(g: Graph, s: State)
    requires Fits(g, s)
  {
    && |s.workers| > 0
    && (!s.flag <==> s.main.MarkRoot? || s.main.EnqueueRoot? || s.main.SetFlag?)
    && (!s.flag ==> forall w :: 0 <= w < |s.workers| ==> Gate(s.workers[w]))
    && (s.main.MarkRoot? ==> s.queue == [] && forall n :: 0 <= n < g.Size() ==> s.marks[n] == NotVisited)
    && (!s.main.MarkRoot? ==> s.marks[0] != NotVisited)
    && (AllExited(s.workers) ==> s.queue == [])
    && (s.main.Join? ==> s.main.i <= |s.workers| && AllExited(s.workers[..s.main.i]))
    && (s.main.Drain? || s.main.FreeRest? || s.main.End? ==> AllExited(s.workers))
    && (s.main.FreeRest? ==> s.main.i <= g.Size())
  }

  ghost predicate Inv(g: Graph, s: State, at: seq<Place>)
  {
    && Fits(g, s) && Placed(g, s, at) && Covered(g, s, at) && Reached(g, s) && Phases(g, s)
    && s.sum == SumOf(g, Summed(g, s, at))
  }

  /** How the place of a node changes with a step. */
  function NextAt(g: Graph, s: State, at: seq<Place>, a: Actor): (r: seq<Place>)
    requires Fits(g, s) && Enabled(g, s, a) && |at| == g.Size()
    ensures |r| == |at|
  {
    match a
    case Main => if s.main.MarkRoot? then at[0 := Transit] else if s.main.EnqueueRoot? then at[0 := Queued] else at
    case Worker(w) =>
      match s.workers[w]
      case Idle => if s.queue == [] then at else at[s.queue[0] := With(w)]
      case Scan(n, i) =>
        if i < |g.adj[n]| && s.marks[g.adj[n][i]] == NotVisited then at[g.adj[n][i] := Transit] else at
      case Push(n, i) => at[g.adj[n][i] := Queued]
      case Destroy(n) => at[n := Gone]
      case _ => at
  }
}
