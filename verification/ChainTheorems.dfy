/** What every run of the chain keeps: the logs, the replies, the lists, and the order in which
    clients see their requests take effect. */
module ChainTheorems {
  import opened Data
  import opened CarSeqs
  import opened Messages
  import opened Replicas
  import opened ChainProtocol

  ghost predicate StepTo(s: State, t: State) {
    exists e :: Enabled(s, e) && t == Next(s, e)
  }

  /** An interleaving of any number of steps. */
  ghost predicate IsPath(run: seq<State>) {
    && |run| > 0
    && forall j :: 0 <= j < |run| - 1 ==> StepTo(run[j], run[j + 1])
  }

  /** A run starts from an idle chain of any length. Servers may join along the way. */
  ghost predicate IsRun(run: seq<State>) {
    IsPath(run) && Initial(run[0])
  }

  lemma {:induction false} RunKeepsInv(run: seq<State>, j: nat)
    requires IsRun(run) && j < |run|
    ensures Inv(run[j])
  {
    if j == 0 {
      InitialInv(run[0]);
    } else {
      RunKeepsInv(run, j - 1);
      assert StepTo(run[j - 1], run[j - 1 + 1]);
      var e :| Enabled(run[j - 1], e) && run[j] == Next(run[j - 1], e);
      StepKeepsInv(run[j - 1], e);
    }
  }

  // ---------------------------------------------------------------- logs

  /** The log of server `i`: the writes it has invoked. */
  function Log(s: State, i: nat): seq<Req>
    requires i < |s.servers|
  {
    Writes(s.servers[i].hist)
  }

  /** The write whose thread holds the lock of the server, if any. */
  function WriteHeld(v: Server): Option<Req> {
    if v.lock.Some? && v.lock.value in v.threads && NeedsForward(v.threads[v.lock.value].req.msg)
    then Some(v.threads[v.lock.value].req) else None
  }

  /** No write is being processed at server `i` or below it, and the logs there are the same. */
  lemma {:induction false} CalmBelow(s: State, i: nat, j: nat)
    requires Inv(s) && i <= j < |s.servers| && WriteHeld(s.servers[i]) == None
    ensures Log(s, j) == Log(s, i) && WriteHeld(s.servers[j]) == None
    decreases j - i
  {
    hide ServerInv, LinkInv, AckInv, WriteHeld;
    if i < j {
      Around(s, i);
      Around(s, i + 1);
      CalmNext(s, i);
      CalmBelow(s, i + 1, j);
    }
  }

  lemma CalmNext(s: State, i: nat)
    requires Inv(s) && i + 1 < |s.servers|
    requires LinkInv(s.servers[i], s.servers[i + 1])
    requires ServerInv(|s.servers|, s.year, s.arrivals, i, s.servers[i])
    requires ServerInv(|s.servers|, s.year, s.arrivals, i + 1, s.servers[i + 1])
    requires WriteHeld(s.servers[i]) == None
    ensures Log(s, i + 1) == Log(s, i) && WriteHeld(s.servers[i + 1]) == None
  {
    var (v, w) := (s.servers[i], s.servers[i + 1]);
    if v.lock.Some? {
      assert ThreadInv(|s.servers|, s.year, s.arrivals, i, v, v.lock.value);
    }
    if w.lock.Some? {
      assert ThreadInv(|s.servers|, s.year, s.arrivals, i + 1, w, w.lock.value);
    }
  }

  /** Down the chain a log is the same, or longer by the one write that is in progress here. */
  lemma {:induction false} LogsBelow(s: State, i: nat, j: nat)
    requires Inv(s) && i <= j < |s.servers|
    ensures Log(s, j) == Log(s, i)
         || (WriteHeld(s.servers[i]).Some? && Log(s, j) == Log(s, i) + [WriteHeld(s.servers[i]).value])
    decreases j - i
  {
    hide ServerInv, LinkInv, AckInv, WriteHeld;
    if i < j {
      if WriteHeld(s.servers[i]) == None {
        CalmBelow(s, i, j);
      } else {
        Around(s, i);
        Around(s, i + 1);
        BusyNext(s, i);
        if WriteHeld(s.servers[i + 1]) == None {
          CalmBelow(s, i + 1, j);
        } else {
          LogsBelow(s, i + 1, j);
        }
      }
    }
  }

  /** While a write is in progress at two neighbours it is the same one, and neither has invoked it. */
  lemma BusyNext(s: State, i: nat)
    requires Inv(s) && i + 1 < |s.servers|
    requires LinkInv(s.servers[i], s.servers[i + 1])
    requires ServerInv(|s.servers|, s.year, s.arrivals, i, s.servers[i])
    requires ServerInv(|s.servers|, s.year, s.arrivals, i + 1, s.servers[i + 1])
    requires WriteHeld(s.servers[i]).Some?
    ensures var held := WriteHeld(s.servers[i + 1]);
            if held.Some? then held == WriteHeld(s.servers[i]) && Log(s, i + 1) == Log(s, i)
            else Log(s, i + 1) == Log(s, i) || Log(s, i + 1) == Log(s, i) + [WriteHeld(s.servers[i]).value]
  {
    var (v, w) := (s.servers[i], s.servers[i + 1]);
    if w.lock.Some? {
      assert ThreadInv(|s.servers|, s.year, s.arrivals, i + 1, w, w.lock.value);
    }
  }

  /** In every state of every run a server's log is a prefix of the log of any server below it,
      and lags behind it by at most one write. */
  lemma LogsArePrefixes(run: seq<State>, x: nat, i: nat, j: nat)
    requires IsRun(run) && x < |run| && i <= j < |run[x].servers|
    ensures Log(run[x], i) <= Log(run[x], j)
    ensures |Log(run[x], j)| <= |Log(run[x], i)| + 1
  {
    RunKeepsInv(run, x);
    LogsBelow(run[x], i, j);
  }

  /** Whenever the head is not processing a write, all logs are the same. */
  lemma LogsAgreeWhenCalm(run: seq<State>, x: nat, i: nat, j: nat)
    requires IsRun(run) && x < |run| && i < |run[x].servers| && j < |run[x].servers|
    requires WriteHeld(run[x].servers[0]) == None
    ensures Log(run[x], i) == Log(run[x], j)
  {
    RunKeepsInv(run, x);
    CalmBelow(run[x], 0, i);
    CalmBelow(run[x], 0, j);
  }

  // ---------------------------------------------------------------- replies

  lemma {:induction false} DistinctWrites(h: seq<Req>)
    requires DistinctRequests(h)
    ensures DistinctRequests(Writes(h))
  {
    if h == [] {
    } else {
      var (front, r) := (h[..|h| - 1], h[|h| - 1]);
      DistinctWrites(front);
      forall j | 0 <= j < |Writes(front)| ensures Writes(front)[j].id != r.id {
        WritesMembers(front, Writes(front)[j]);
        var m :| 0 <= m < |front| && front[m] == Writes(front)[j];
        assert h[m] == front[m];
      }
    }
  }

  /** The writes before a write are the log up to it. */
  lemma LogUpTo(h: seq<Req>, a: nat)
    requires a < |h| && NeedsForward(h[a].msg)
    ensures var p := |Writes(h[..a])|;
            p < |Writes(h)| && Writes(h)[p] == h[a] && Writes(h[..a]) == Writes(h)[..p]
  {
    assert h[..a + 1] == h[..a] + [h[a]];
    WritesSnoc(h[..a], h[a]);
    WritesOfPrefix(h, a + 1);
  }

  /** Two histories, one's log a prefix of the other's, answer a common write alike. */
  lemma SameAnswer(year: int, g: seq<Req>, h: seq<Req>, r: Req, reply: Message)
    requires Writes(g) <= Writes(h) && DistinctRequests(h)
    requires NeedsForward(r.msg) && Answered(year, g, r, reply)
    ensures Answered(year, h, r, reply)
  {
    var a :| 0 <= a < |g| && g[a] == r && ReplyTo(year, g, a) == reply;
    LogUpTo(g, a);
    WritesMembers(g, r);
    WritesMembers(h, r);
    assert r in Writes(h);
    var b :| 0 <= b < |h| && h[b] == r;
    LogUpTo(h, b);
    DistinctWrites(h);
    assert |Writes(g[..a])| == |Writes(h[..b])|;
    SameWritesSameModels(year, g[..a], h[..b]);
    assert ReplyTo(year, h, b) == reply;
  }

  /** An acknowledged write is in the history of every server, and every server gave it the very
      reply that the client got: nothing is lost by discarding a successor's reply. */
  lemma AcknowledgedEverywhere(run: seq<State>, x: nat, id: nat, j: nat)
    requires IsRun(run) && x < |run| && j < |run[x].servers|
    requires id in run[x].acked
    ensures id < |run[x].arrivals|
    ensures NeedsForward(run[x].arrivals[id].msg) ==>
      Answered(run[x].year, run[x].servers[j].hist, Req(id, run[x].arrivals[id].msg), run[x].acked[id].reply)
  {
    var s := run[x];
    RunKeepsInv(run, x);
    assert AckInv(s, id);
    var r := Req(id, s.arrivals[id].msg);
    if NeedsForward(r.msg) {
      LogsBelow(s, 0, j);
      assert ServerInv(|s.servers|, s.year, s.arrivals, j, s.servers[j]);
      SameAnswer(s.year, s.servers[0].hist, s.servers[j].hist, r, s.acked[id].reply);
    }
  }

  // ---------------------------------------------------------------- linearizability

  function Tail(s: State): Server
    requires |s.servers| > 0
  {
    s.servers[|s.servers| - 1]
  }

  /** A step only ever appends to histories and arrivals, and never takes an acknowledgement back. */
  ghost predicate Extends(s: State, t: State) {
    && 0 < |s.servers| <= |t.servers| && t.year == s.year && s.arrivals <= t.arrivals
    && (forall i :: 0 <= i < |s.servers| ==> s.servers[i].hist <= t.servers[i].hist)
    && Tail(s).hist <= Tail(t).hist
    && (forall id :: id in s.acked ==> id in t.acked)
  }

  lemma {:induction false} RunExtends(run: seq<State>, x: nat, y: nat)
    requires IsRun(run) && x <= y < |run|
    ensures Extends(run[x], run[y])
    decreases y - x
  {
    hide Next, Enabled, Initial;
    RunKeepsInv(run, x);
    if x < y {
      RunExtends(run, x, y - 1);
      assert StepTo(run[y - 1], run[y - 1 + 1]);
      var e :| Enabled(run[y - 1], e) && run[y] == Next(run[y - 1], e);
      NextExtends(run[y - 1], e);
    }
  }

  lemma NextExtends(s: State, e: Step)
    requires Enabled(s, e)
    ensures Extends(s, Next(s, e))
  {
    hide Effect, Reply, Received, NeedsForward;
  }

  /** What a client observes at the service's two ends: writes at the head, the rest at the tail. */
  ghost predicate Observed(s: State, id: nat) {
    && |s.servers| > 0 && id in s.acked && id < |s.arrivals|
    && (NeedsForward(s.arrivals[id].msg) || s.acked[id].server == |s.servers| - 1)
  }

  /** The server's history in state `y` is a sequential execution that explains all that clients
      have observed so far, at whichever server was the tail then. */
  ghost predicate SequentialFor(run: seq<State>, y: nat, v: Server)
    requires y < |run|
  {
    && v.cars == Replay(run[y].year, v.hist)
    && DistinctRequests(v.hist)
    && (forall r :: r in v.hist ==> Known(run[y].arrivals, r))
    && (forall x: nat, id: nat :: x <= y && Observed(run[x], id) ==>
          Answered(run[y].year, v.hist, Req(id, run[x].arrivals[id].msg), run[x].acked[id].reply))
  }

  lemma HistoryFacts(n: nat, year: int, arrivals: seq<Arrival>, i: nat, v: Server)
    requires ServerInv(n, year, arrivals, i, v)
    ensures v.cars == Replay(year, v.hist) && DistinctRequests(v.hist)
    ensures forall r :: r in v.hist ==> Known(arrivals, r)
  {
  }

  /** What is observed in a state is explained by the history of its tail. */
  lemma TailExplainsNow(run: seq<State>, x: nat, id: nat)
    requires IsRun(run) && x < |run| && Observed(run[x], id)
    ensures Answered(run[x].year, Tail(run[x]).hist, Req(id, run[x].arrivals[id].msg), run[x].acked[id].reply)
  {
    hide ServerInv, LinkInv, Answered;
    var s := run[x];
    RunKeepsInv(run, x);
    AcknowledgedEverywhere(run, x, id, |s.servers| - 1);
    assert AckInv(s, id);
  }

  lemma AnsweredInLonger(year: int, g: seq<Req>, h: seq<Req>, r: Req, reply: Message)
    requires g <= h && Answered(year, g, r, reply)
    ensures Answered(year, h, r, reply)
  {
    var p :| 0 <= p < |g| && g[p] == r && ReplyTo(year, g, p) == reply;
    assert g[..p] == h[..p] && h[p] == r;
    assert ReplyTo(year, h, p) == reply;
  }

  /** The tail's history is a sequential execution of distinct, received requests: it produces the
      tail's list, and it gives every request observed so far the reply that its client received. */
  lemma TailIsSequential(run: seq<State>, y: nat)
    requires IsRun(run) && y < |run|
    ensures |run[y].servers| > 0 && SequentialFor(run, y, Tail(run[y]))
  {
    hide ServerInv, LinkInv, Answered;
    var t := run[y];
    RunKeepsInv(run, y);
    var last := |t.servers| - 1;
    HistoryFacts(|t.servers|, t.year, t.arrivals, last, t.servers[last]);
    forall x: nat, id: nat | x <= y && Observed(run[x], id)
      ensures Answered(t.year, Tail(t).hist, Req(id, run[x].arrivals[id].msg), run[x].acked[id].reply)
    {
      TailExplainsNow(run, x, id);
      RunExtends(run, x, y);
      AnsweredInLonger(t.year, Tail(run[x]).hist, Tail(t).hist,
                       Req(id, run[x].arrivals[id].msg), run[x].acked[id].reply);
    }
  }

  /** The order of the tail's history respects real time: a request whose reply had been received
      when another one arrived comes before it. */
  lemma TailRespectsRealTime(run: seq<State>, x: nat, y: nat, id: nat, q: nat)
    requires IsRun(run) && x <= y < |run| && Observed(run[x], id)
    requires |run[y].servers| > 0 && q < |Tail(run[y]).hist|
    requires Tail(run[y]).hist[q].id >= |run[x].arrivals|
    ensures exists p :: 0 <= p < q && Tail(run[y]).hist[p].id == id
  {
    var s := run[x];
    RunExtends(run, x, y);
    TailIsSequential(run, x);
    TailExplainsNow(run, x, id);
    var r := Req(id, s.arrivals[id].msg);
    var (g, h) := (Tail(s).hist, Tail(run[y]).hist);
    assert g <= h;
    assert Answered(s.year, g, r, s.acked[id].reply);
    var p :| 0 <= p < |g| && g[p] == r && ReplyTo(s.year, g, p) == s.acked[id].reply;
    assert forall m :: 0 <= m < |g| ==> g[m] in g;
    assert q >= |g|;
    assert h[p].id == id;
  }

  /** Whenever the list of the last server is not locked, another server can join behind it: both then
      hold the same cars, in order, and all earlier servers are as they were. */
  lemma ServerCanJoin(run: seq<State>) returns (t: State)
    requires IsRun(run) && |run[|run| - 1].servers| > 0 && Tail(run[|run| - 1]).lock == None
    ensures IsRun(run + [t])
    ensures var (s, i) := (run[|run| - 1], |run[|run| - 1].servers| - 1);
            && |t.servers| == |s.servers| + 1 && t.servers[..i] == s.servers[..i]
            && t.servers[i].cars == t.servers[i + 1].cars == SortByYear(s.servers[i].cars)
            && t.servers[i].threads == s.servers[i].threads && t.servers[i + 1].threads == map[]
  {
    hide Initial, Inv, Next;
    var s := run[|run| - 1];
    RunKeepsInv(run, |run| - 1);
    JoinChanges(s);
    t := Next(s, Join);
    assert StepTo(s, t);
    assert forall j :: 0 <= j < |run| - 1 ==> StepTo(run[j], run[j + 1]);
  }

  lemma JoinChanges(s: State)
    requires Inv(s) && Enabled(s, Join)
    ensures var (t, i) := (Next(s, Join), |s.servers| - 1);
            && |t.servers| == |s.servers| + 1 && t.servers[..i] == s.servers[..i]
            && t.servers[i].cars == t.servers[i + 1].cars == SortByYear(s.servers[i].cars)
            && t.servers[i].threads == s.servers[i].threads && t.servers[i + 1].threads == map[]
  {
    hide Inv, Reply, Received;
    JoinKeepsInv(s);
  }

  // ---------------------------------------------------------------- lists

  lemma SameYearThroughout(run: seq<State>, x: nat, y: nat)
    requires IsRun(run) && x < |run| && y < |run|
    ensures run[x].year == run[y].year
  {
    RunExtends(run, 0, x);
    RunExtends(run, 0, y);
  }

  /** Servers that have invoked the same writes, each at its own time, hold the same models and the
      same number of cars, and would answer any further write alike, whatever ordered queries each
      of them has served. */
  lemma SameLogSameModels(run: seq<State>, x: nat, i: nat, y: nat, j: nat)
    requires IsRun(run) && x < |run| && y < |run| && i < |run[x].servers| && j < |run[y].servers|
    requires Log(run[x], i) == Log(run[y], j)
    ensures var (v, w) := (run[x].servers[i], run[y].servers[j]);
            && Models(v.cars) == Models(w.cars)
            && |v.cars| == |w.cars|
            && forall m :: NeedsForward(m) ==> Reply(run[x].year, m, v.cars) == Reply(run[y].year, m, w.cars)
  {
    hide LinkInv, AckInv, Known;
    var (s, t) := (run[x], run[y]);
    RunKeepsInv(run, x);
    RunKeepsInv(run, y);
    SameYearThroughout(run, x, y);
    assert ServerInv(|s.servers|, s.year, s.arrivals, i, s.servers[i]);
    assert ServerInv(|t.servers|, t.year, t.arrivals, j, t.servers[j]);
    SameWritesSameModels(s.year, s.servers[i].hist, t.servers[j].hist);
  }

  /** If in addition no model spans two years, they hold the same cars of every year in the same
      order: they answer every query by year alike, and their ordered lists are identical. */
  lemma SameLogSameYears(run: seq<State>, x: nat, i: nat, y: nat, j: nat)
    requires IsRun(run) && x < |run| && y < |run| && i < |run[x].servers| && j < |run[y].servers|
    requires Log(run[x], i) == Log(run[y], j) && OneYearPerModel(run[x].year, Log(run[x], i))
    ensures var (v, w) := (run[x].servers[i], run[y].servers[j]);
            && YearEq(v.cars, w.cars)
            && SortByYear(v.cars) == SortByYear(w.cars)
            && forall m: Message :: m.opcode == OP_GETLISTBYTEAR ==>
                 Reply(run[x].year, m, v.cars) == Reply(run[y].year, m, w.cars)
  {
    hide LinkInv, AckInv, Known;
    var (s, t) := (run[x], run[y]);
    RunKeepsInv(run, x);
    RunKeepsInv(run, y);
    SameYearThroughout(run, x, y);
    var (v, w) := (s.servers[i], t.servers[j]);
    assert ServerInv(|s.servers|, s.year, s.arrivals, i, v);
    assert ServerInv(|t.servers|, t.year, t.arrivals, j, w);
    ReplicasAgree(s.year, v.hist, w.hist);
    forall m: Message | m.opcode == OP_GETLISTBYTEAR ensures Reply(s.year, m, v.cars) == Reply(t.year, m, w.cars) {
      assert ByYear(v.cars, m.result) == ByYear(w.cars, m.result);
    }
  }
}
