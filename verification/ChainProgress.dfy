/** The chain never blocks for good: some step is possible while a request is pending, every step
    brings the pending requests closer to their replies, and in the end all are answered. */
module ChainProgress {
  import opened Data
  import opened Messages
  import opened Replicas
  import opened ChainProtocol
  import opened ChainTheorems

  // ---------------------------------------------------------------- no deadlock

  /** A step that takes a pending request further. */
  predicate Internal(e: Step) {
    !e.Arrive? && !e.Join?
  }

  /** What a thread that cannot move by itself waits for. */
  lemma WaitsFor(s: State, i: nat, k: Conn)
    requires Inv(s) && HasThread(s, i, k)
    ensures var (v, t) := (s.servers[i], s.servers[i].threads[k]);
            && (t.Waiting? && v.lock.Some? ==> HasThread(s, i, v.lock.value) && Holds(v.threads[v.lock.value]))
            && (t.Locked? && NeedsForward(t.req.msg) && i + 1 < |s.servers| ==>
                  Predecessor !in s.servers[i + 1].threads)
            && (t.Awaiting? ==> HasThread(s, i + 1, Predecessor))
  {
    Focus(s, i, k);
    if s.servers[i].lock.Some? {
      assert HasThread(s, i, s.servers[i].lock.value);
    }
  }

  /** A reply for the predecessor is awaited by the holder of the predecessor's lock. */
  lemma IsAwaited(s: State, i: nat)
    requires Inv(s) && HasThread(s, i, Predecessor)
    ensures i > 0 && s.servers[i - 1].lock.Some? && HasThread(s, i - 1, s.servers[i - 1].lock.value)
    ensures s.servers[i - 1].threads[s.servers[i - 1].lock.value].Awaiting?
  {
    Focus(s, i, Predecessor);
  }

  /** Following a blocked thread leads to the holder of its lock and from there only towards the
      tail, so it ends at a thread that can move. */
  lemma {:induction false} SomethingCanMove(s: State, i: nat, k: Conn) returns (e: Step)
    requires Inv(s) && HasThread(s, i, k)
    ensures Enabled(s, e) && Internal(e)
    decreases |s.servers| - i, s.servers[i].threads[k].Waiting?
  {
    hide Next, Inv;
    var (v, t) := (s.servers[i], s.servers[i].threads[k]);
    WaitsFor(s, i, k);
    match t
    case Waiting(_) =>
      if v.lock == None {
        e := Acquire(i, k);
      } else {
        e := SomethingCanMove(s, i, v.lock.value);
      }
    case Locked(r) =>
      if NeedsForward(r.msg) && i + 1 < |s.servers| {
        e := Pass(i, k);
      } else {
        e := Apply(i, k);
      }
    case Awaiting(_) =>
      if s.servers[i + 1].threads[Predecessor].Done? {
        e := Return(i, k);
      } else {
        e := SomethingCanMove(s, i + 1, Predecessor);
      }
    case Ready(_, _) => e := Apply(i, k);
    case Done(_, _) =>
      match k {
        case Client(c) => e := Respond(i, c);
        case Predecessor =>
          IsAwaited(s, i);
          e := Return(i - 1, s.servers[i - 1].lock.value);
      }
  }

  // ---------------------------------------------------------------- the measure

  /** The steps a write takes from arriving at server `i` until that server has invoked it. */
  function WriteSteps(n: nat, i: nat): nat
    decreases n - i
  {
    if i + 1 < n then 4 + WriteSteps(n, i + 1) else 2
  }

  /** The steps that a thread, and the threads it will start further down, have before them. */
  function Ahead(n: nat, i: nat, k: Conn, t: Thread): nat {
    (if k.Client? then 1 else 0)
    + match t
      case Waiting(r) => if NeedsForward(r.msg) then WriteSteps(n, i) else 2
      case Locked(r) => if NeedsForward(r.msg) then WriteSteps(n, i) - 1 else 1
      case Awaiting(_) => 2
      case Ready(_, _) => 1
      case Done(_, _) => 0
  }

  ghost function ThreadsAhead(n: nat, i: nat, m: map<Conn, Thread>): nat
    decreases |m|
  {
    if m == map[] then 0 else
      var k :| k in m;
      Ahead(n, i, k, m[k]) + ThreadsAhead(n, i, m - {k})
  }

  lemma {:induction false} ThreadsAheadOf(n: nat, i: nat, m: map<Conn, Thread>, k: Conn)
    requires k in m
    ensures ThreadsAhead(n, i, m) == Ahead(n, i, k, m[k]) + ThreadsAhead(n, i, m - {k})
    decreases |m|
  {
    var l :| l in m && ThreadsAhead(n, i, m) == Ahead(n, i, l, m[l]) + ThreadsAhead(n, i, m - {l});
    if l != k {
      assert m - {l} - {k} == m - {k} - {l};
      ThreadsAheadOf(n, i, m - {l}, k);
      ThreadsAheadOf(n, i, m - {k}, l);
    }
  }

  lemma ThreadsAheadPut(n: nat, i: nat, m: map<Conn, Thread>, k: Conn, t: Thread)
    ensures ThreadsAhead(n, i, m[k := t]) == Ahead(n, i, k, t) + ThreadsAhead(n, i, m - {k})
  {
    assert m[k := t] - {k} == m - {k};
    ThreadsAheadOf(n, i, m[k := t], k);
  }

  /** The work of the first `j` servers. */
  ghost function WorkUpTo(s: State, j: nat): nat
    requires j <= |s.servers|
  {
    if j == 0 then 0 else WorkUpTo(s, j - 1) + ThreadsAhead(|s.servers|, j - 1, s.servers[j - 1].threads)
  }

  /** All the steps that the pending requests still have before them. */
  ghost function Work(s: State): nat {
    WorkUpTo(s, |s.servers|)
  }

  lemma {:induction false} WorkChange(s: State, t: State, i: nat, j: nat)
    requires |s.servers| == |t.servers| && i < |s.servers| && j <= |s.servers|
    requires forall x :: 0 <= x < |s.servers| && x != i ==> s.servers[x].threads == t.servers[x].threads
    ensures var n := |s.servers|;
            WorkUpTo(t, j) == WorkUpTo(s, j) + if i < j then
              ThreadsAhead(n, i, t.servers[i].threads) - ThreadsAhead(n, i, s.servers[i].threads) else 0
  {
    if j > 0 {
      WorkChange(s, t, i, j - 1);
    }
  }

  /** What replacing one thread does to the work. */
  lemma WorkPut(s: State, t: State, i: nat, k: Conn, u: Thread)
    requires i < |s.servers| && |t.servers| == |s.servers| && t.servers == s.servers[i := t.servers[i]]
    requires t.servers[i].threads == s.servers[i].threads[k := u]
    ensures Work(t) == Work(s) + Ahead(|s.servers|, i, k, u)
                     - if k in s.servers[i].threads then Ahead(|s.servers|, i, k, s.servers[i].threads[k]) else 0
  {
    var (n, m) := (|s.servers|, s.servers[i].threads);
    WorkChange(s, t, i, n);
    ThreadsAheadPut(n, i, m, k, u);
    if k in m {
      ThreadsAheadOf(n, i, m, k);
    } else {
      assert m - {k} == m;
    }
  }

  lemma WorkDrop(s: State, t: State, i: nat, k: Conn)
    requires HasThread(s, i, k) && |t.servers| == |s.servers| && t.servers == s.servers[i := Drop(s.servers[i], k)]
    ensures Work(t) == Work(s) - Ahead(|s.servers|, i, k, s.servers[i].threads[k])
  {
    WorkChange(s, t, i, |s.servers|);
    ThreadsAheadOf(|s.servers|, i, s.servers[i].threads, k);
  }

  /** Every internal step does exactly one unit of work; an arriving write brings
      `4 * n - 1` units to a chain of `n` servers, and any other request three. */
  lemma StepDoesWork(s: State, e: Step)
    requires Enabled(s, e) && !e.Join?
    ensures Internal(e) ==> Work(Next(s, e)) == Work(s) - 1
    ensures e.Arrive? ==> Work(Next(s, e)) == Work(s) + if NeedsForward(e.msg) then 4 * |s.servers| - 1 else 3
  {
    hide Work, Effect, Reply, NeedsForward;
    var t := Next(s, e);
    match e
    case Arrive(i, c, msg) =>
      WorkPut(s, t, i, Client(c), Waiting(Req(|s.arrivals|, msg)));
      WriteStepsOf(|s.servers|, i);
    case Acquire(i, k) =>
      WorkPut(s, t, i, k, t.servers[i].threads[k]);
    case Pass(i, k) =>
      var mid := s.(servers := s.servers[i := t.servers[i]]);
      WorkPut(s, mid, i, k, t.servers[i].threads[k]);
      WorkPut(mid, t, i + 1, Predecessor, t.servers[i + 1].threads[Predecessor]);
    case Return(i, k) =>
      var mid := s.(servers := s.servers[i := t.servers[i]]);
      WorkPut(s, mid, i, k, t.servers[i].threads[k]);
      WorkDrop(mid, t, i + 1, Predecessor);
    case Apply(i, k) =>
      WorkPut(s, t, i, k, t.servers[i].threads[k]);
    case Respond(i, c) =>
      WorkDrop(s, t, i, Client(c));
  }

  lemma {:induction false} WriteStepsOf(n: nat, i: nat)
    requires i < n
    ensures WriteSteps(n, i) == 4 * (n - i) - 2
    decreases n - i
  {
    if i + 1 < n {
      WriteStepsOf(n, i + 1);
    }
  }

  // ---------------------------------------------------------------- every request is answered

  /** The request is being served on some client connection. */
  ghost predicate Pending(s: State, id: nat) {
    exists i: nat, c: nat :: HasThread(s, i, Client(c)) && s.servers[i].threads[Client(c)].req.id == id
  }

  ghost predicate NoneForgotten(s: State) {
    forall id: nat :: id < |s.arrivals| ==> id in s.acked || Pending(s, id)
  }

  lemma StepForgetsNone(s: State, e: Step)
    requires NoneForgotten(s) && Enabled(s, e)
    ensures NoneForgotten(Next(s, e))
  {
    hide Effect, Reply, NeedsForward, Received;
    var t := Next(s, e);
    forall id: nat | id < |t.arrivals| && id !in t.acked ensures Pending(t, id) {
      if e.Arrive? && id == |s.arrivals| {
        assert HasThread(t, e.i, Client(e.c)) && t.servers[e.i].threads[Client(e.c)].req.id == id;
      } else {
        assert Pending(s, id);
        var i: nat, c: nat :| HasThread(s, i, Client(c)) && s.servers[i].threads[Client(c)].req.id == id;
        assert HasThread(t, i, Client(c)) && t.servers[i].threads[Client(c)].req.id == id;
      }
    }
  }

  lemma {:induction false} RunForgetsNone(run: seq<State>, j: nat)
    requires IsRun(run) && j < |run|
    ensures NoneForgotten(run[j])
  {
    hide Next, Enabled;
    if j > 0 {
      RunForgetsNone(run, j - 1);
      assert StepTo(run[j - 1], run[j - 1 + 1]);
      var e :| Enabled(run[j - 1], e) && run[j] == Next(run[j - 1], e);
      StepForgetsNone(run[j - 1], e);
    }
  }

  /** No thread is at work anywhere. */
  ghost predicate Quiet(s: State) {
    forall i :: 0 <= i < |s.servers| ==> s.servers[i].threads == map[]
  }

  /** A path on which nothing arrives. */
  ghost predicate IsDrain(run: seq<State>) {
    && |run| > 0
    && forall j :: 0 <= j < |run| - 1 ==> DrainStep(run[j], run[j + 1])
  }

  ghost predicate DrainStep(s: State, t: State) {
    exists e :: Enabled(s, e) && Internal(e) && t == Next(s, e)
  }

  /** Along a drain the work goes down by one with every step, so none is longer than the work it
      starts with, however its steps are chosen. */
  lemma {:induction false} DrainLength(run: seq<State>, j: nat)
    requires IsDrain(run) && j < |run|
    ensures Work(run[j]) + j == Work(run[0])
  {
    hide Next, Enabled, Work;
    if j > 0 {
      DrainLength(run, j - 1);
      assert DrainStep(run[j - 1], run[j - 1 + 1]);
      var e :| Enabled(run[j - 1], e) && Internal(e) && run[j] == Next(run[j - 1], e);
      StepDoesWork(run[j - 1], e);
    }
  }

  /** A drain that cannot be continued has answered everything: no thread is left, every request
      that ever arrived has been acknowledged, and all servers have the same log. */
  lemma StuckMeansAnswered(run: seq<State>, x: nat)
    requires IsRun(run) && x < |run|
    requires !exists t :: DrainStep(run[x], t)
    ensures Quiet(run[x])
    ensures forall id: nat :: id < |run[x].arrivals| ==> id in run[x].acked
    ensures forall j :: 0 <= j < |run[x].servers| ==> Log(run[x], j) == Log(run[x], 0)
  {
    var s := run[x];
    RunKeepsInv(run, x);
    RunForgetsNone(run, x);
    forall i | 0 <= i < |s.servers| ensures s.servers[i].threads == map[] {
      if k :| k in s.servers[i].threads {
        var e := SomethingCanMove(s, i, k);
        assert DrainStep(s, Next(s, e));
      }
    }
    forall id: nat | id < |s.arrivals| ensures id in s.acked {
      assert !Pending(s, id);
    }
    forall j | 0 <= j < |s.servers| ensures Log(s, j) == Log(s, 0) {
      CalmBelow(s, 0, j);
    }
  }

  /** From every state of every run there is such a drain, and it takes exactly the steps that
      the work foretells. */
  lemma {:induction false} Drain(s: State) returns (run: seq<State>)
    requires Inv(s)
    ensures IsDrain(run) && run[0] == s && Quiet(run[|run| - 1])
    ensures |run| == Work(s) + 1
    decreases Work(s)
  {
    hide Next, Enabled, Work, Inv, NeedsForward;
    if i, k :| HasThread(s, i, k) {
      var e := SomethingCanMove(s, i, k);
      StepKeepsInv(s, e);
      StepDoesWork(s, e);
      var rest := Drain(Next(s, e));
      run := [s] + rest;
      assert DrainStep(s, Next(s, e));
      forall j | 0 <= j < |run| - 1 ensures DrainStep(run[j], run[j + 1]) {
        assert j > 0 ==> DrainStep(rest[j - 1], rest[j - 1 + 1]);
      }
    } else {
      run := [s];
      NoWork(s);
      assert forall i: nat, k :: i < |s.servers| ==> (HasThread(s, i, k) <==> k in s.servers[i].threads);
    }
  }

  lemma NoWork(s: State)
    requires forall i: nat, k :: !HasThread(s, i, k)
    ensures Work(s) == 0
  {
    NoWorkUpTo(s, |s.servers|);
  }

  lemma {:induction false} NoWorkUpTo(s: State, j: nat)
    requires j <= |s.servers| && forall i: nat, k :: !HasThread(s, i, k)
    ensures WorkUpTo(s, j) == 0
  {
    if j > 0 {
      NoWorkUpTo(s, j - 1);
      var m := s.servers[j - 1].threads;
      assert forall k :: k in m ==> HasThread(s, j - 1, k);
      assert m == map[];
    }
  }

  lemma DrainStepArrivals(s: State, t: State)
    requires DrainStep(s, t)
    ensures t.arrivals == s.arrivals && |t.servers| == |s.servers|
  {
    hide Effect, Reply, NeedsForward;
  }

  lemma {:induction false} DrainArrivals(run: seq<State>, j: nat)
    requires IsDrain(run) && j < |run|
    ensures run[j].arrivals == run[0].arrivals && |run[j].servers| == |run[0].servers|
  {
    hide DrainStep;
    if j > 0 {
      DrainArrivals(run, j - 1);
      assert DrainStep(run[j - 1], run[j - 1 + 1]);
      DrainStepArrivals(run[j - 1], run[j]);
    }
  }

  /** From every reachable state, any request that a client sends on an idle connection, writes to the
      head and the rest anywhere, can be answered: its server invokes it and its client gets the reply. */
  lemma RequestIsAnswered(run: seq<State>, i: nat, c: nat, msg: Message) returns (longer: seq<State>)
    requires IsRun(run) && i < |run[|run| - 1].servers| && Client(c) !in run[|run| - 1].servers[i].threads
    requires msg.opcode in {10, 30, 70} ==> i == 0
    ensures IsRun(longer) && run <= longer
    ensures var (s, t) := (run[|run| - 1], longer[|longer| - 1]);
            var id := |s.arrivals|;
            && t.arrivals == s.arrivals + [Arrival(i, msg)] && |t.servers| == |s.servers|
            && id in t.acked && t.acked[id].server == i
            && Answered(t.year, t.servers[i].hist, Req(id, msg), t.acked[id].reply)
  {
    var s := run[|run| - 1];
    var e := Arrive(i, c, msg);
    assert Enabled(s, e) && Next(s, e).arrivals == s.arrivals + [Arrival(i, msg)] && |Next(s, e).servers| == |s.servers|;
    hide Next, Enabled, Inv, Initial, Quiet;
    RunKeepsInv(run, |run| - 1);
    StepKeepsInv(s, e);
    var rest := Drain(Next(s, e));
    assert StepTo(s, Next(s, e));
    longer := Continue(run, rest);
    DrainArrivals(rest, |rest| - 1);
    QuietIsAcknowledged(longer, |s.arrivals|);
  }

  lemma Continue(run: seq<State>, rest: seq<State>) returns (longer: seq<State>)
    requires IsRun(run) && IsDrain(rest) && StepTo(run[|run| - 1], rest[0])
    ensures IsRun(longer) && run <= longer && longer[|longer| - 1] == rest[|rest| - 1]
  {
    hide Next, Enabled, Initial;
    longer := run + rest;
    forall j | 0 <= j < |longer| - 1 ensures StepTo(longer[j], longer[j + 1]) {
      if j < |run| - 1 {
        assert StepTo(run[j], run[j + 1]);
      } else if j >= |run| {
        assert DrainStep(rest[j - |run|], rest[j - |run| + 1]);
      }
    }
  }

  lemma QuietIsAcknowledged(run: seq<State>, id: nat)
    requires IsRun(run) && Quiet(run[|run| - 1]) && id < |run[|run| - 1].arrivals|
    ensures var t := run[|run| - 1];
            && id in t.acked && t.acked[id].server == t.arrivals[id].server < |t.servers|
            && Answered(t.year, t.servers[t.acked[id].server].hist, Req(id, t.arrivals[id].msg), t.acked[id].reply)
  {
    hide Initial, ServerInv, LinkInv;
    var t := run[|run| - 1];
    RunKeepsInv(run, |run| - 1);
    RunForgetsNone(run, |run| - 1);
    assert !Pending(t, id);
    assert AckInv(t, id);
  }
}
