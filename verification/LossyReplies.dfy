/** What clients are told when links may fail: in every reachable state of the lossy protocol a reply
    is the one of the server's history, or the error for a write that the server gave up. */
module LossyReplies {
  import opened Data
  import opened Messages
  import opened Replicas
  import opened ChainProtocol
  import opened LossyRuns

  /** The request is in the history and got this reply, or it was given up and the reply says so. */
  ghost predicate Told(year: int, h: seq<Req>, gave: seq<Req>, r: Req, reply: Message) {
    Answered(year, h, r, reply) || (r in gave && reply == r.msg.(opcode := 99, result := -1))
  }

  ghost predicate Honest(year: int, arrivals: seq<Arrival>, i: nat, v: Server, gave: seq<Req>) {
    && v.cars == Replay(year, v.hist)
    && (forall k :: k in v.threads ==> Known(arrivals, v.threads[k].req))
    && (forall k :: k in v.threads && k.Client? ==> arrivals[v.threads[k].req.id].server == i)
    && (forall k :: k in v.threads && v.threads[k].Done? ==>
          Told(year, v.hist, gave, v.threads[k].req, v.threads[k].reply))
  }

  ghost predicate AckHonest(l: Lossy, id: nat)
    requires id in l.s.acked
  {
    && id < |l.s.arrivals|
    && l.s.acked[id].server == l.s.arrivals[id].server < |l.s.servers| == |l.gaveUp|
    && (NeedsForward(l.s.arrivals[id].msg) ==> l.s.acked[id].server == 0)
    && Told(l.s.year, l.s.servers[l.s.acked[id].server].hist, l.gaveUp[l.s.acked[id].server],
            Req(id, l.s.arrivals[id].msg), l.s.acked[id].reply)
  }

  ghost predicate AllHonest(l: Lossy) {
    && |l.gaveUp| == |l.s.servers| > 0
    && (forall i :: 0 <= i < |l.s.servers| ==> Honest(l.s.year, l.s.arrivals, i, l.s.servers[i], l.gaveUp[i]))
    && (forall id :: id in l.s.acked ==> AckHonest(l, id))
  }

  // ---------------------------------------------------------------- one server

  lemma ToldStill(year: int, h: seq<Req>, gave: seq<Req>, r: Req, reply: Message, longer: seq<Req>, more: seq<Req>)
    requires Told(year, h, gave, r, reply)
    requires longer == h || (|longer| == |h| + 1 && h <= longer)
    requires gave <= more
    ensures Told(year, longer, more, r, reply)
  {
    hide Answered;
    if Answered(year, h, r, reply) && longer != h {
      assert longer == h + [longer[|h|]];
      AnsweredStill(year, h, longer[|h|], r, reply);
    }
    assert r in gave ==> r in more;
  }

  lemma AnsweredNow(year: int, h: seq<Req>, r: Req)
    ensures Answered(year, h + [r], r, Reply(year, r.msg, Replay(year, h)))
    ensures Replay(year, h + [r]) == Effect(year, r.msg, Replay(year, h))
  {
    hide Reply, Effect;
    var longer := h + [r];
    assert longer[..|h|] == h && longer[|h|] == r;
    assert ReplyTo(year, longer, |h|) == Reply(year, r.msg, Replay(year, h));
  }

  /** How a server may change in a step. */
  ghost predicate Evolves(year: int, arrivals: seq<Arrival>, i: nat, v: Server, gave: seq<Req>, x: Server, more: seq<Req>) {
    && (x.hist == v.hist || (|x.hist| == |v.hist| + 1 && v.hist <= x.hist)) && gave <= more
    && x.cars == Replay(year, x.hist)
    && forall k :: k in x.threads ==>
         || (k in v.threads && x.threads[k] == v.threads[k])
         || (k in v.threads && x.threads[k].req == v.threads[k].req
             && (x.threads[k].Done? ==> Told(year, x.hist, more, x.threads[k].req, x.threads[k].reply)))
         || (!x.threads[k].Done? && Known(arrivals, x.threads[k].req)
             && (k.Client? ==> arrivals[x.threads[k].req.id].server == i))
  }

  lemma EvolvedIsHonest(year: int, arrivals: seq<Arrival>, later: seq<Arrival>, i: nat,
                        v: Server, gave: seq<Req>, x: Server, more: seq<Req>)
    requires Honest(year, arrivals, i, v, gave) && arrivals <= later && Evolves(year, later, i, v, gave, x, more)
    ensures Honest(year, later, i, x, more)
  {
    hide Told, Replay;
    forall k | k in x.threads
      ensures Known(later, x.threads[k].req)
      ensures k.Client? ==> later[x.threads[k].req.id].server == i
      ensures x.threads[k].Done? ==> Told(year, x.hist, more, x.threads[k].req, x.threads[k].reply)
    {
      if k in v.threads {
        assert Known(arrivals, v.threads[k].req);
        if v.threads[k].Done? {
          ToldStill(year, v.hist, gave, v.threads[k].req, v.threads[k].reply, x.hist, more);
        }
      }
    }
  }

  /** The server that invokes a request answers it with the reply of its history. */
  lemma InvokedEvolves(year: int, arrivals: seq<Arrival>, i: nat, v: Server, gave: seq<Req>, k: Conn)
    requires Honest(year, arrivals, i, v, gave) && k in v.threads
    requires v.threads[k].Ready? || v.threads[k].Locked?
    ensures Evolves(year, arrivals, i, v, gave, Handled(year, v, k), gave)
  {
    hide Answered, Replay, Reply, Effect;
    HandledCars(year, v, k);
    AnsweredNow(year, v.hist, v.threads[k].req);
  }

  /** The server that gives a write up tells its client, or its predecessor, that it failed. */
  lemma GivenUpEvolves(year: int, arrivals: seq<Arrival>, i: nat, v: Server, gave: seq<Req>, k: Conn)
    requires Honest(year, arrivals, i, v, gave) && k in v.threads && NeedsForward(v.threads[k].req.msg)
    ensures Evolves(year, arrivals, i, v, gave, GiveUp(year, v, k), gave + [v.threads[k].req])
  {
    hide Answered, Replay, NeedsForward;
  }

  // ---------------------------------------------------------------- one step

  /** What a step does to the servers and their clients. */
  ghost predicate Progress(l: Lossy, t: Lossy) {
    && |l.gaveUp| == |l.s.servers| <= |t.gaveUp| == |t.s.servers|
    && t.s.year == l.s.year && l.s.arrivals <= t.s.arrivals
    && (forall i :: 0 <= i < |l.s.servers| ==>
          Evolves(l.s.year, t.s.arrivals, i, l.s.servers[i], l.gaveUp[i], t.s.servers[i], t.gaveUp[i]))
    && (forall i :: |l.s.servers| <= i < |t.s.servers| ==>
          Honest(t.s.year, t.s.arrivals, i, t.s.servers[i], t.gaveUp[i]))
    && (forall id :: id in t.s.acked ==> (id in l.s.acked && t.s.acked[id] == l.s.acked[id]) || AckHonest(t, id))
  }

  lemma ProgressIsHonest(l: Lossy, t: Lossy)
    requires AllHonest(l) && Progress(l, t)
    ensures AllHonest(t)
  {
    hide Honest, Told;
    forall i | 0 <= i < |t.s.servers| ensures Honest(t.s.year, t.s.arrivals, i, t.s.servers[i], t.gaveUp[i]) {
      if i < |l.s.servers| {
        EvolvedIsHonest(l.s.year, l.s.arrivals, t.s.arrivals, i,
                        l.s.servers[i], l.gaveUp[i], t.s.servers[i], t.gaveUp[i]);
      }
    }
    forall id | id in t.s.acked ensures AckHonest(t, id) {
      if id in l.s.acked && t.s.acked[id] == l.s.acked[id] {
        assert AckHonest(l, id);
        var i := l.s.acked[id].server;
        ToldStill(l.s.year, l.s.servers[i].hist, l.gaveUp[i], Req(id, l.s.arrivals[id].msg), l.s.acked[id].reply,
                  t.s.servers[i].hist, t.gaveUp[i]);
      }
    }
  }

  /** A server that is not touched, or whose thread moves on without invoking. */
  lemma QuietEvolves(year: int, arrivals: seq<Arrival>, later: seq<Arrival>, i: nat, v: Server, gave: seq<Req>, x: Server)
    requires Honest(year, arrivals, i, v, gave) && x.cars == v.cars && x.hist == v.hist
    requires forall k :: k in x.threads ==>
      || (k in v.threads && x.threads[k] == v.threads[k])
      || (k in v.threads && x.threads[k].req == v.threads[k].req && !x.threads[k].Done?)
      || (!x.threads[k].Done? && Known(later, x.threads[k].req)
          && (k.Client? ==> later[x.threads[k].req.id].server == i))
    ensures Evolves(year, later, i, v, gave, x, gave)
  {
    hide Replay, Told;
  }

  lemma ArriveProgress(l: Lossy, i: nat, c: nat, msg: Message)
    requires AllHonest(l) && Possible(l, Plain(Arrive(i, c, msg)))
    ensures Progress(l, After(l, Plain(Arrive(i, c, msg))))
  {
    hide Honest, Evolves, AckHonest, NeedsForward;
    var t := After(l, Plain(Arrive(i, c, msg)));
    forall j | 0 <= j < |l.s.servers|
      ensures Evolves(l.s.year, t.s.arrivals, j, l.s.servers[j], l.gaveUp[j], t.s.servers[j], t.gaveUp[j])
    {
      QuietEvolves(l.s.year, l.s.arrivals, t.s.arrivals, j, l.s.servers[j], l.gaveUp[j], t.s.servers[j]);
    }
  }

  lemma LockProgress(l: Lossy, e: Step, i: nat, k: Conn)
    requires AllHonest(l) && Possible(l, Plain(e))
    requires e == Acquire(i, k) || e == Return(i, k)
    ensures Progress(l, After(l, Plain(e)))
  {
    hide Honest, Evolves, AckHonest, NeedsForward;
    var t := After(l, Plain(e));
    forall j | 0 <= j < |l.s.servers|
      ensures Evolves(l.s.year, t.s.arrivals, j, l.s.servers[j], l.gaveUp[j], t.s.servers[j], t.gaveUp[j])
    {
      QuietEvolves(l.s.year, l.s.arrivals, t.s.arrivals, j, l.s.servers[j], l.gaveUp[j], t.s.servers[j]);
    }
  }

  lemma PassProgress(l: Lossy, i: nat, k: Conn)
    requires AllHonest(l) && Possible(l, Plain(Pass(i, k)))
    ensures Progress(l, After(l, Plain(Pass(i, k))))
  {
    hide Evolves, AckHonest, NeedsForward, Told, Replay;
    var t := After(l, Plain(Pass(i, k)));
    assert Honest(l.s.year, l.s.arrivals, i, l.s.servers[i], l.gaveUp[i]);
    assert Known(l.s.arrivals, l.s.servers[i].threads[k].req);
    forall j | 0 <= j < |l.s.servers|
      ensures Evolves(l.s.year, t.s.arrivals, j, l.s.servers[j], l.gaveUp[j], t.s.servers[j], t.gaveUp[j])
    {
      QuietEvolves(l.s.year, l.s.arrivals, t.s.arrivals, j, l.s.servers[j], l.gaveUp[j], t.s.servers[j]);
    }
  }

  lemma ApplyProgress(l: Lossy, i: nat, k: Conn)
    requires AllHonest(l) && Possible(l, Plain(Apply(i, k)))
    ensures Progress(l, After(l, Plain(Apply(i, k))))
  {
    hide Honest, Evolves, AckHonest, NeedsForward, Handled;
    var t := After(l, Plain(Apply(i, k)));
    InvokedEvolves(l.s.year, l.s.arrivals, i, l.s.servers[i], l.gaveUp[i], k);
    forall j | 0 <= j < |l.s.servers|
      ensures Evolves(l.s.year, t.s.arrivals, j, l.s.servers[j], l.gaveUp[j], t.s.servers[j], t.gaveUp[j])
    {
      if j != i {
        QuietEvolves(l.s.year, l.s.arrivals, t.s.arrivals, j, l.s.servers[j], l.gaveUp[j], t.s.servers[j]);
      }
    }
  }

  /** The client is told what the thread has computed. */
  lemma RespondProgress(l: Lossy, i: nat, c: nat)
    requires LossyRuns.Inv(l) && AllHonest(l) && Possible(l, Plain(Respond(i, c)))
    ensures Progress(l, After(l, Plain(Respond(i, c))))
  {
    hide Evolves, NeedsForward, Told, Replay, LinkOk;
    var t := After(l, Plain(Respond(i, c)));
    var (v, r) := (l.s.servers[i], l.s.servers[i].threads[Client(c)].req);
    assert Honest(l.s.year, l.s.arrivals, i, v, l.gaveUp[i]);
    ThreadFacts(|l.s.servers|, |l.s.arrivals|, i, v, l.gaveUp[i], Client(c));
    assert Known(l.s.arrivals, r) && Req(r.id, l.s.arrivals[r.id].msg) == r;
    assert AckHonest(t, r.id);
    forall j | 0 <= j < |l.s.servers|
      ensures Evolves(l.s.year, t.s.arrivals, j, l.s.servers[j], l.gaveUp[j], t.s.servers[j], t.gaveUp[j])
    {
      QuietEvolves(l.s.year, l.s.arrivals, t.s.arrivals, j, l.s.servers[j], l.gaveUp[j], t.s.servers[j]);
    }
  }

  lemma LossProgress(l: Lossy, e: LossyStep, i: nat, k: Conn)
    requires LossyRuns.Inv(l) && AllHonest(l) && Possible(l, e) && (e == LoseRequest(i, k) || e == LoseReply(i, k))
    ensures Progress(l, After(l, e))
  {
    hide Honest, Evolves, AckHonest, NeedsForward, LinkOk, ServerOk, GiveUp;
    var t := After(l, e);
    assert ServerOk(|l.s.servers|, |l.s.arrivals|, i, l.s.servers[i], l.gaveUp[i]);
    ThreadFacts(|l.s.servers|, |l.s.arrivals|, i, l.s.servers[i], l.gaveUp[i], k);
    GivenUpEvolves(l.s.year, l.s.arrivals, i, l.s.servers[i], l.gaveUp[i], k);
    forall j | 0 <= j < |l.s.servers|
      ensures Evolves(l.s.year, t.s.arrivals, j, l.s.servers[j], l.gaveUp[j], t.s.servers[j], t.gaveUp[j])
    {
      if j != i {
        QuietEvolves(l.s.year, l.s.arrivals, t.s.arrivals, j, l.s.servers[j], l.gaveUp[j], t.s.servers[j]);
      }
    }
  }

  lemma JoinProgress(l: Lossy)
    requires LossyRuns.Inv(l) && AllHonest(l) && Possible(l, Plain(Join))
    ensures Progress(l, After(l, Plain(Join)))
  {
    hide Honest, Evolves, NeedsForward, Told, Queried, Joined, Reply, Effect, LinkOk, ServerOk;
    var (t, i) := (After(l, Plain(Join)), |l.s.servers| - 1);
    var (v, r) := (l.s.servers[i], Req(|l.s.arrivals|, WHOLE_LIST));
    QueriedEvolves(l.s.year, l.s.arrivals, t.s.arrivals, i, v, l.gaveUp[i], r);
    QueryIsNoWrite();
    assert AckHonest(t, r.id);
    forall j | 0 <= j < |l.s.servers|
      ensures Evolves(l.s.year, t.s.arrivals, j, l.s.servers[j], l.gaveUp[j], t.s.servers[j], t.gaveUp[j])
    {
      if j != i {
        QuietEvolves(l.s.year, l.s.arrivals, t.s.arrivals, j, l.s.servers[j], l.gaveUp[j], t.s.servers[j]);
      }
    }
  }

  /** The predecessor has answered the query for its whole list, and the newcomer has it. */
  lemma QueriedEvolves(year: int, arrivals: seq<Arrival>, later: seq<Arrival>, i: nat, v: Server, gave: seq<Req>, r: Req)
    requires Honest(year, arrivals, i, v, gave) && arrivals <= later && r.msg == WHOLE_LIST
    ensures Evolves(year, later, i, v, gave, Queried(year, v, r), gave)
    ensures Honest(year, later, i + 1, Joined(year, v, r), [])
    ensures Told(year, Queried(year, v, r).hist, gave, r, Reply(year, WHOLE_LIST, v.cars))
  {
    hide Told, Replay, Reply, Effect, Received;
    AnsweredNow(year, v.hist, r);
    ReplayKeepsValidated(year, v.hist);
    WholeListReceived(year, v.cars);
    ToldAnswered(year, v.hist + [r], gave, r, Reply(year, r.msg, v.cars));
  }

  lemma ToldAnswered(year: int, h: seq<Req>, gave: seq<Req>, r: Req, reply: Message)
    requires Answered(year, h, r, reply)
    ensures Told(year, h, gave, r, reply)
  {
  }

  lemma StepProgress(l: Lossy, e: LossyStep)
    requires LossyRuns.Inv(l) && AllHonest(l) && Possible(l, e)
    ensures Progress(l, After(l, e))
  {
    hide LossyRuns.Inv, AllHonest, Progress, Possible, After;
    match e
    case LoseRequest(i, k) => LossProgress(l, e, i, k);
    case LoseReply(i, k) => LossProgress(l, e, i, k);
    case Plain(p) =>
      match p
      case Arrive(i, c, msg) => ArriveProgress(l, i, c, msg);
      case Acquire(i, k) => LockProgress(l, p, i, k);
      case Pass(i, k) => PassProgress(l, i, k);
      case Return(i, k) => LockProgress(l, p, i, k);
      case Apply(i, k) => ApplyProgress(l, i, k);
      case Respond(i, c) => RespondProgress(l, i, c);
      case Join => JoinProgress(l);
  }

  // ---------------------------------------------------------------- runs

  lemma {:induction false} RunIsHonest(run: seq<Lossy>, x: nat)
    requires LossyRuns.IsRun(run) && x < |run|
    ensures AllHonest(run[x])
  {
    hide LossyRuns.Inv, AllHonest, Progress, Possible, After;
    if x == 0 {
      StartIsHonest(run[0]);
    } else {
      RunIsHonest(run, x - 1);
      LossyRuns.RunKeepsInv(run, x - 1);
      assert LossyRuns.StepTo(run[x - 1], run[x - 1 + 1]);
      var e :| Possible(run[x - 1], e) && run[x] == After(run[x - 1], e);
      StepProgress(run[x - 1], e);
      ProgressIsHonest(run[x - 1], run[x]);
    }
  }

  lemma StartIsHonest(l: Lossy)
    requires Initial(l.s) && |l.gaveUp| == |l.s.servers|
    ensures AllHonest(l)
  {
  }

  /** Whatever is lost, every list is the outcome of the requests that its server has invoked. */
  lemma ListsAreReplayed(run: seq<Lossy>, x: nat, i: nat)
    requires LossyRuns.IsRun(run) && x < |run| && i < |run[x].s.servers|
    ensures run[x].s.servers[i].cars == Replay(run[x].s.year, run[x].s.servers[i].hist)
  {
    RunIsHonest(run, x);
  }

  /** A client is told the truth about its write: either the head has invoked it, has not given it up, and
      replied as its history says; or the head has given it up, has not invoked it, and replied with the
      request turned into an error. */
  lemma WriterIsToldTheTruth(run: seq<Lossy>, x: nat, id: nat)
    requires LossyRuns.IsRun(run) && x < |run| && id in run[x].s.acked
    ensures id < |run[x].s.arrivals| && |run[x].gaveUp| == |run[x].s.servers| > 0
    ensures run[x].s.arrivals[id].msg.opcode in {10, 30, 70} ==>
      var (v, r, reply) := (run[x].s.servers[0], Req(id, run[x].s.arrivals[id].msg), run[x].s.acked[id].reply);
      && run[x].s.acked[id].server == 0
      && if r in run[x].gaveUp[0] then r !in v.hist && reply == r.msg.(opcode := 99, result := -1)
         else r in v.hist && Answered(run[x].s.year, v.hist, r, reply)
  {
    hide LinkOk, Honest;
    RunIsHonest(run, x);
    LossyRuns.RunKeepsInv(run, x);
    var l := run[x];
    assert AckHonest(l, id);
    assert ServerOk(|l.s.servers|, |l.s.arrivals|, 0, l.s.servers[0], l.gaveUp[0]);
  }

  /** Any other request is answered by the history of the server that it was sent to. */
  lemma ReaderIsToldTheTruth(run: seq<Lossy>, x: nat, id: nat)
    requires LossyRuns.IsRun(run) && x < |run| && id in run[x].s.acked
    requires id < |run[x].s.arrivals| && run[x].s.arrivals[id].msg.opcode !in {10, 30, 70}
    ensures var (i, r) := (run[x].s.arrivals[id].server, Req(id, run[x].s.arrivals[id].msg));
            && i < |run[x].s.servers|
            && Answered(run[x].s.year, run[x].s.servers[i].hist, r, run[x].s.acked[id].reply)
  {
    hide LinkOk, Honest;
    RunIsHonest(run, x);
    LossyRuns.RunKeepsInv(run, x);
    var l := run[x];
    assert AckHonest(l, id);
    var i := l.s.arrivals[id].server;
    assert ServerOk(|l.s.servers|, |l.s.arrivals|, i, l.s.servers[i], l.gaveUp[i]);
  }
}
