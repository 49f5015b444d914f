/** Exactly when the replicas of a chain agree: a run in which two replicas part, and the
    condition on the cars that rules such runs out. */
module ChainDivergence {
  import opened Data
  import opened CarSeqs
  import opened Messages
  import opened Replicas
  import opened ChainProtocol
  import opened ChainTheorems

  ghost predicate Reaches(s: State, t: State) {
    exists run :: IsPath(run) && run[0] == s && run[|run| - 1] == t
  }

  lemma ReachesSelf(s: State)
    ensures Reaches(s, s)
  {
    assert IsPath([s]) && [s][0] == s;
  }

  lemma ReachesStep(s: State, t: State, e: Step)
    requires Reaches(s, t) && Enabled(t, e)
    ensures Reaches(s, Next(t, e))
  {
    hide Next, Enabled;
    var run :| IsPath(run) && run[0] == s && run[|run| - 1] == t;
    var longer := run + [Next(t, e)];
    assert StepTo(t, Next(t, e));
    forall j | 0 <= j < |longer| - 1 ensures StepTo(longer[j], longer[j + 1]) {
      assert j < |run| - 1 ==> StepTo(run[j], run[j + 1]);
    }
    assert IsPath(longer) && longer[0] == s;
  }

  predicate Idle(v: Server) {
    v.lock == None && v.threads == map[]
  }

  predicate AllIdle(s: State) {
    |s.servers| > 0 && forall i :: 0 <= i < |s.servers| ==> Idle(s.servers[i])
  }

  /** The server once it has invoked one more request and all its threads are done with it. */
  function Served(year: int, v: Server, r: Req): Server {
    v.(cars := Effect(year, r.msg, v.cars), hist := v.hist + [r])
  }

  /** The request has just reached server `i`; everything from there to the tail is idle. */
  ghost predicate AtServer(s: State, i: nat, k: Conn, r: Req) {
    && i < |s.servers| && NeedsForward(r.msg)
    && s.servers[i].lock == None && s.servers[i].threads == map[k := Waiting(r)]
    && forall j :: i < j < |s.servers| ==> Idle(s.servers[j])
  }

  /** Server `i` and all below it have invoked the request; the reply waits at `i`. */
  ghost predicate ServedFrom(s: State, t: State, i: nat, k: Conn, r: Req)
    requires i < |s.servers|
  {
    && t == s.(servers := t.servers) && |t.servers| == |s.servers|
    && (forall j :: 0 <= j < i ==> t.servers[j] == s.servers[j])
    && (forall j :: i < j < |s.servers| ==> t.servers[j] == Served(s.year, s.servers[j], r))
    && t.servers[i] == Served(s.year, s.servers[i], r).(threads := t.servers[i].threads)
    && k in t.servers[i].threads && t.servers[i].threads.Keys == {k}
    && t.servers[i].threads[k].Done? && t.servers[i].threads[k].req == r
  }

  /** Server `i` holds its lock and waits, and the request has reached the next server. */
  function Passed(s: State, i: nat, k: Conn, r: Req): State
    requires i + 1 < |s.servers|
  {
    var (v, w) := (s.servers[i], s.servers[i + 1]);
    s.(servers := s.servers[i := v.(lock := Some(k), threads := map[k := Awaiting(r)])]
                           [i + 1 := w.(threads := map[Predecessor := Waiting(r)])])
  }

  lemma {:induction false} WriteDown(b: State, s: State, i: nat, k: Conn, r: Req) returns (t: State)
    requires Reaches(b, s) && AtServer(s, i, k, r)
    ensures Reaches(b, t) && ServedFrom(s, t, i, k, r)
    decreases |s.servers| - i
  {
    if i + 1 == |s.servers| {
      hide Reaches, Effect, Reply;
      var s1 := Next(s, Acquire(i, k));
      ReachesStep(b, s, Acquire(i, k));
      ReachesStep(b, s1, Apply(i, k));
      t := Next(s1, Apply(i, k));
    } else {
      hide Next, Enabled, Effect, Reply;
      PassOn(b, s, i, k, r);
      var u := WriteDown(b, Passed(s, i, k, r), i + 1, Predecessor, r);
      t := ReplyUp(b, s, u, i, k, r);
    }
  }

  lemma PassOn(b: State, s: State, i: nat, k: Conn, r: Req)
    requires Reaches(b, s) && AtServer(s, i, k, r) && i + 1 < |s.servers|
    ensures Reaches(b, Passed(s, i, k, r)) && AtServer(Passed(s, i, k, r), i + 1, Predecessor, r)
  {
    hide Reaches, Effect, Reply;
    ReachesStep(b, s, Acquire(i, k));
    var s1 := Next(s, Acquire(i, k));
    ReachesStep(b, s1, Pass(i, k));
    var s2 := Next(s1, Pass(i, k));
    assert s2.servers[i].threads == map[k := Awaiting(r)];
    assert s2.servers[i + 1].threads == map[Predecessor := Waiting(r)];
    assert s2.servers == Passed(s, i, k, r).servers;
  }

  lemma ReturnAndApply(b: State, u: State, i: nat, k: Conn, r: Req) returns (t: State)
    requires Reaches(b, u) && HasThread(u, i, k) && u.servers[i].threads == map[k := Awaiting(r)]
    requires HasThread(u, i + 1, Predecessor) && u.servers[i + 1].threads[Predecessor].Done?
    requires u.servers[i + 1].threads.Keys == {Predecessor}
    ensures Reaches(b, t) && t == u.(servers := t.servers) && |t.servers| == |u.servers|
    ensures forall j :: 0 <= j < |u.servers| && j != i && j != i + 1 ==> t.servers[j] == u.servers[j]
    ensures t.servers[i + 1] == u.servers[i + 1].(threads := map[])
    ensures var v := u.servers[i];
            t.servers[i] == Server(Effect(u.year, r.msg, v.cars), v.hist + [r], None,
                                   map[k := Done(r, Reply(u.year, r.msg, v.cars))])
  {
    hide Effect, Reply;
    ReachesStep(b, u, Return(i, k));
    var u1 := Next(u, Return(i, k));
    ReachesStep(b, u1, Apply(i, k));
    t := Next(u1, Apply(i, k));
    assert t.servers[i + 1].threads == map[];
    assert t.servers[i].threads == map[k := Done(r, Reply(u.year, r.msg, u.servers[i].cars))];
  }

  lemma ReplyUp(b: State, s: State, u: State, i: nat, k: Conn, r: Req) returns (t: State)
    requires AtServer(s, i, k, r) && i + 1 < |s.servers|
    requires Reaches(b, u) && ServedFrom(Passed(s, i, k, r), u, i + 1, Predecessor, r)
    ensures Reaches(b, t) && ServedFrom(s, t, i, k, r)
  {
    hide Effect, Reply, Reaches;
    var p := Passed(s, i, k, r);
    assert u.servers[i] == p.servers[i];
    assert Idle(s.servers[i + 1]);
    t := ReturnAndApply(b, u, i, k, r);
    forall j | i < j < |s.servers| ensures t.servers[j] == Served(s.year, s.servers[j], r) {
      assert j > i + 1 ==> u.servers[j] == Served(s.year, p.servers[j], r);
    }
    forall j | 0 <= j < i ensures t.servers[j] == s.servers[j] {
      assert u.servers[j] == p.servers[j];
    }
  }

  /** One write, from an idle chain to an idle chain: every server has invoked it. */
  lemma WriteThrough(b: State, s: State, msg: Message) returns (t: State)
    requires Reaches(b, s) && AllIdle(s) && NeedsForward(msg)
    ensures Reaches(b, t) && AllIdle(t) && t.year == s.year && |t.servers| == |s.servers|
    ensures t.arrivals == s.arrivals + [Arrival(0, msg)]
    ensures forall j :: 0 <= j < |s.servers| ==>
      t.servers[j] == Served(s.year, s.servers[j], Req(|s.arrivals|, msg))
  {
    hide Reaches, Effect, Reply;
    var (k, r) := (Client(0), Req(|s.arrivals|, msg));
    ReachesStep(b, s, Arrive(0, 0, msg));
    var s1 := Next(s, Arrive(0, 0, msg));
    assert s1.servers[0].threads == map[k := Waiting(r)];
    var s2 := WriteDown(b, s1, 0, k, r);
    ReachesStep(b, s2, Respond(0, 0));
    t := Next(s2, Respond(0, 0));
    assert t.servers[0].threads == map[];
  }

  /** One ordered query at the tail, from an idle chain to an idle chain. */
  lemma OrderAtTail(b: State, s: State) returns (t: State)
    requires Reaches(b, s) && AllIdle(s)
    ensures Reaches(b, t) && AllIdle(t) && t.year == s.year && |t.servers| == |s.servers|
    ensures t.arrivals == s.arrivals + [Arrival(|s.servers| - 1, WHOLE_LIST)]
    ensures forall j :: 0 <= j < |s.servers| ==>
      t.servers[j] == if j < |s.servers| - 1 then s.servers[j]
                      else Served(s.year, s.servers[j], Req(|s.arrivals|, WHOLE_LIST))
  {
    hide Effect, Reply, Reaches;
    var (i, k) := (|s.servers| - 1, Client(0));
    ReachesStep(b, s, Arrive(i, 0, WHOLE_LIST));
    var s1 := Next(s, Arrive(i, 0, WHOLE_LIST));
    ReachesStep(b, s1, Acquire(i, k));
    var s2 := Next(s1, Acquire(i, k));
    ReachesStep(b, s2, Apply(i, k));
    var s3 := Next(s2, Apply(i, k));
    ReachesStep(b, s3, Respond(i, 0));
    t := Next(s3, Respond(i, 0));
    assert t.servers[i].threads == map[];
  }

  function Fresh(year: int, n: nat): State {
    State(year, seq(n, _ => IDLE_SERVER), [], map[])
  }

  /** A chain of one server becomes one of two when another joins, with nothing else going on. */
  lemma FirstJoin(year: int) returns (t: State)
    ensures Reaches(Fresh(year, 1), t) && AllIdle(t) && |t.servers| == 2 && t.year == year
    ensures AddsOnly(t, iset{}) && t.servers[0].cars == t.servers[1].cars == []
  {
    hide Reaches;
    var s := Fresh(year, 1);
    ReachesSelf(s);
    ReachesStep(s, s, Join);
    t := Next(s, Join);
    assert SortByYear([]) == [];
  }

  /** In any idle chain of two or more servers without cars four requests make the replicas part. */
  lemma PartFrom(b: State, s: State, c: Car, d: Car) returns (t: State)
    requires Reaches(b, s) && AllIdle(s) && |s.servers| >= 2 && AddsOnly(s, iset{})
    requires forall j :: 0 <= j < |s.servers| ==> s.servers[j].cars == []
    requires Validated(s.year, c) && Validated(s.year, d) && c.modelo == d.modelo && c.ano > d.ano
    ensures Reaches(b, t) && AllIdle(t) && |t.servers| == |s.servers| && t.year == s.year
    ensures AddsOnly(t, iset{c, d})
    ensures t.servers[0].cars == [d] && Tail(t).cars == [c]
  {
    hide Reaches, Effect, Validated;
    var last := |s.servers| - 1;
    var (a, e, x) := (AddOf(0, c).msg, AddOf(1, d).msg, DelOf(3, c.modelo).msg);
    var s1 := WriteThrough(b, s, a);
    var s2 := WriteThrough(b, s1, e);
    var s3 := OrderAtTail(b, s2);
    t := WriteThrough(b, s3, x);
    PartingLists(s.year, c, d);
    assert s2.servers[0].cars == Effect(s.year, e, Effect(s.year, a, []));
    assert s2.servers[last].cars == Effect(s.year, e, Effect(s.year, a, []));
    assert t.arrivals == s.arrivals + [Arrival(0, a), Arrival(0, e), Arrival(last, WHOLE_LIST), Arrival(0, x)];
  }

  /** From an idle chain of any length there is a run after which nothing is pending and yet the head
      holds the older car of a model and the tail the newer one. A single server is joined first. */
  lemma ReplicasPart(year: int, n: nat, c: Car, d: Car) returns (t: State)
    requires n >= 1
    requires Validated(year, c) && Validated(year, d) && c.modelo == d.modelo && c.ano > d.ano
    ensures Reaches(Fresh(year, n), t) && AllIdle(t) && |t.servers| == (if n == 1 then 2 else n) && t.year == year
    ensures AddsOnly(t, iset{c, d})
    ensures t.servers[0].cars == [d] && Tail(t).cars == [c]
  {
    hide Reaches, AddsOnly, Validated;
    var s := Fresh(year, n);
    if n == 1 {
      s := FirstJoin(year);
    } else {
      ReachesSelf(s);
      NoneAdded(year, n);
    }
    t := PartFrom(Fresh(year, n), s, c, d);
  }

  lemma NoneAdded(year: int, n: nat)
    ensures AddsOnly(Fresh(year, n), iset{})
  {
  }

  lemma PartingLists(year: int, c: Car, d: Car)
    requires Validated(year, c) && Validated(year, d) && c.modelo == d.modelo && c.ano > d.ano
    ensures var x := DelOf(3, c.modelo).msg;
            && Effect(year, AddOf(1, d).msg, Effect(year, AddOf(0, c).msg, [])) == [c, d]
            && Effect(year, x, [c, d]) == [d]
            && Effect(year, x, Effect(year, WHOLE_LIST, [c, d])) == [c]
  {
    SortTwo(c, d);
  }

  // ---------------------------------------------------------------- the exact condition

  /** Clients add only cars of the collection. */
  ghost predicate AddsOnly(s: State, cars: iset<Car>) {
    forall id :: 0 <= id < |s.arrivals| && Adds(s.year, s.arrivals[id].msg) ==> s.arrivals[id].msg.data.value in cars
  }

  /** Whenever nothing is being written, all replicas hold the same cars of every year. */
  ghost predicate ChainAgrees(year: int, n: nat, cars: iset<Car>) {
    forall t, i, j ::
      Reaches(Fresh(year, n), t) && AddsOnly(t, cars)
      && 0 <= i < |t.servers| && 0 <= j < |t.servers| && WriteHeld(t.servers[0]) == None ==>
        YearEq(t.servers[i].cars, t.servers[j].cars)
  }

  /** The replicas of a chain, of whatever length it starts with, agree in every run exactly when no model among
      the cars that clients may add spans two years. */
  lemma ChainAgreesIff(year: int, n: nat, cars: iset<Car>)
    requires n >= 1
    ensures ChainAgrees(year, n, cars) <==> NoModelSpansTwoYears(year, cars)
  {
    if NoModelSpansTwoYears(year, cars) {
      forall t, i, j |
        Reaches(Fresh(year, n), t) && AddsOnly(t, cars)
        && 0 <= i < |t.servers| && 0 <= j < |t.servers| && WriteHeld(t.servers[0]) == None
        ensures YearEq(t.servers[i].cars, t.servers[j].cars)
      {
        CalmReplicasAgree(year, n, cars, t, i, j);
      }
    }
    if ChainAgrees(year, n, cars) {
      forall c, d | c in cars && d in cars && Validated(year, c) && Validated(year, d) && c.modelo == d.modelo
        ensures c.ano == d.ano
      {
        if c.ano > d.ano {
          PartsWithin(year, n, cars, c, d);
        } else if d.ano > c.ano {
          PartsWithin(year, n, cars, d, c);
        }
      }
    }
  }

  lemma PartsWithin(year: int, n: nat, cars: iset<Car>, c: Car, d: Car)
    requires n >= 1 && c in cars && d in cars
    requires Validated(year, c) && Validated(year, d) && c.modelo == d.modelo && c.ano > d.ano
    ensures !ChainAgrees(year, n, cars)
  {
    var t := ReplicasPart(year, n, c, d);
    DifferentYears(c, d);
    assert !YearEq(t.servers[0].cars, Tail(t).cars);
    assert AddsOnly(t, cars);
  }

  lemma CalmReplicasAgree(year: int, n: nat, cars: iset<Car>, t: State, i: nat, j: nat)
    requires n >= 1 && NoModelSpansTwoYears(year, cars) && AddsOnly(t, cars)
    requires Reaches(Fresh(year, n), t)
    requires i < |t.servers| && j < |t.servers| && WriteHeld(t.servers[0]) == None
    ensures YearEq(t.servers[i].cars, t.servers[j].cars)
  {
    var run :| IsPath(run) && run[0] == Fresh(year, n) && run[|run| - 1] == t;
    var x := |run| - 1;
    assert IsRun(run);
    LogsAgreeWhenCalm(run, x, i, j);
    RunKeepsInv(run, x);
    RunExtends(run, 0, x);
    LogIsKnown(t, i, cars);
    SameLogSameYears(run, x, i, x, j);
  }

  lemma LogIsKnown(t: State, i: nat, cars: iset<Car>)
    requires Inv(t) && i < |t.servers| && AddsOnly(t, cars) && NoModelSpansTwoYears(t.year, cars)
    ensures OneYearPerModel(t.year, Log(t, i))
  {
    assert ServerInv(|t.servers|, t.year, t.arrivals, i, t.servers[i]);
    forall r | r in Log(t, i) ensures Known(t.arrivals, r) {
      WritesMembers(t.servers[i].hist, r);
    }
  }
}
