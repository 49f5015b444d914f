/** The replication protocol as a state machine: a chain of servers (0 is the head), each with its
    list, the lock on it, and one thread per open connection. A thread follows the request loop of
    the server: receive, lock, forward and wait if the request is one to forward, invoke, unlock,
    reply. The threads of all servers interleave freely. */
module ChainProtocol {
  import opened Data
  import opened CarSeqs
  import opened Messages
  import opened Replicas

  /** Who is at the other end of a connection. */
  datatype Conn = Client(c: nat) | Predecessor

  datatype Thread =
    | Waiting(req: Req)                  // has received the request, wants the lock
    | Locked(req: Req)                   // holds the lock, has neither forwarded nor invoked
    | Awaiting(req: Req)                 // holds the lock, has forwarded, waits for the reply
    | Ready(req: Req, got: Message)      // holds the lock, has the successor's reply
    | Done(req: Req, reply: Message)     // has invoked and unlocked, is about to reply

  /** `hist` records, in order, the requests invoked on the list. A connection without an entry in
      `threads` is idle. */
  datatype Server = Server(cars: seq<Car>, hist: seq<Req>, lock: Option<Conn>, threads: map<Conn, Thread>)

  datatype Arrival = Arrival(server: nat, msg: Message)

  datatype Ack = Ack(server: nat, reply: Message)

  /** `arrivals` numbers the client requests in the order of their arrival anywhere; `acked` holds
      the replies that clients have received. */
  datatype State = State(year: int, servers: seq<Server>, arrivals: seq<Arrival>, acked: map<nat, Ack>)

  datatype Step =
    | Arrive(i: nat, c: nat, msg: Message)
    | Acquire(i: nat, k: Conn)
    | Pass(i: nat, k: Conn)
    | Return(i: nat, k: Conn)
    | Apply(i: nat, k: Conn)
    | Respond(i: nat, c: nat)
    | Join

  const IDLE_SERVER := Server([], [], None, map[])

  predicate Initial(s: State) {
    |s.servers| > 0 && s.arrivals == [] && s.acked == map[]
    && forall i :: 0 <= i < |s.servers| ==> s.servers[i] == IDLE_SERVER
  }

  predicate HasThread(s: State, i: nat, k: Conn) {
    i < |s.servers| && k in s.servers[i].threads
  }

  /** Writes enter at the head only; any server may be sent anything else. */
  predicate Enabled(s: State, e: Step) {
    match e
    case Arrive(i, c, msg) =>
      i < |s.servers| && Client(c) !in s.servers[i].threads && (NeedsForward(msg) ==> i == 0)
    case Acquire(i, k) =>
      HasThread(s, i, k) && s.servers[i].threads[k].Waiting? && s.servers[i].lock == None
    case Pass(i, k) =>
      HasThread(s, i, k) && s.servers[i].threads[k].Locked? && NeedsForward(s.servers[i].threads[k].req.msg)
      && i + 1 < |s.servers| && Predecessor !in s.servers[i + 1].threads
    case Return(i, k) =>
      HasThread(s, i, k) && s.servers[i].threads[k].Awaiting?
      && HasThread(s, i + 1, Predecessor) && s.servers[i + 1].threads[Predecessor].Done?
    case Apply(i, k) =>
      HasThread(s, i, k)
      && (|| s.servers[i].threads[k].Ready?
          || (s.servers[i].threads[k].Locked?
              && (NeedsForward(s.servers[i].threads[k].req.msg) ==> i + 1 == |s.servers|)))
    case Respond(i, c) =>
      HasThread(s, i, Client(c)) && s.servers[i].threads[Client(c)].Done?
    case Join =>
      |s.servers| > 0 && s.servers[|s.servers| - 1].lock == None
  }

  function Put(v: Server, k: Conn, t: Thread): Server {
    v.(threads := v.threads[k := t])
  }

  function Drop(v: Server, k: Conn): Server {
    v.(threads := v.threads - {k})
  }

  function Outcome(t: Thread): Forward {
    if t.Ready? then Replied(t.got) else NoSuccessor
  }

  /** The server after a thread has handled its request and released the lock. */
  function Handled(year: int, v: Server, k: Conn): Server
    requires k in v.threads
  {
    var t := v.threads[k];
    Server(ServedEffect(year, t.req.msg, v.cars, Outcome(t)),
           v.hist + [t.req],
           None,
           v.threads[k := Done(t.req, ServedReply(year, t.req.msg, v.cars, Outcome(t)))])
  }

  /** The last server answers the whole-list query under request `r`. */
  function Queried(year: int, v: Server, r: Req): Server {
    v.(cars := Effect(year, r.msg, v.cars), hist := v.hist + [r])
  }

  /** A joining server, linked behind the last one with what it received from it. Its history is
      taken to be its predecessor's. */
  function Joined(year: int, v: Server, r: Req): Server {
    Server(Received(year, Reply(year, r.msg, v.cars)), v.hist + [r], None, map[])
  }

  function Next(s: State, e: Step): State
    requires Enabled(s, e)
  {
    match e
    case Arrive(i, c, msg) =>
      s.(servers := s.servers[i := Put(s.servers[i], Client(c), Waiting(Req(|s.arrivals|, msg)))],
         arrivals := s.arrivals + [Arrival(i, msg)])
    case Acquire(i, k) =>
      var v := s.servers[i];
      s.(servers := s.servers[i := Put(v, k, Locked(v.threads[k].req)).(lock := Some(k))])
    case Pass(i, k) =>
      var (v, w) := (s.servers[i], s.servers[i + 1]);
      s.(servers := s.servers[i := Put(v, k, Awaiting(v.threads[k].req))]
                             [i + 1 := Put(w, Predecessor, Waiting(v.threads[k].req))])
    case Return(i, k) =>
      var (v, w) := (s.servers[i], s.servers[i + 1]);
      s.(servers := s.servers[i := Put(v, k, Ready(v.threads[k].req, w.threads[Predecessor].reply))]
                             [i + 1 := Drop(w, Predecessor)])
    case Apply(i, k) =>
      s.(servers := s.servers[i := Handled(s.year, s.servers[i], k)])
    case Respond(i, c) =>
      var t := s.servers[i].threads[Client(c)];
      s.(servers := s.servers[i := Drop(s.servers[i], Client(c))],
         acked := s.acked[t.req.id := Ack(i, t.reply)])
    case Join =>
      var i := |s.servers| - 1;
      var (v, r) := (s.servers[i], Req(|s.arrivals|, WHOLE_LIST));
      s.(servers := s.servers[i := Queried(s.year, v, r)] + [Joined(s.year, v, r)],
         arrivals := s.arrivals + [Arrival(i, WHOLE_LIST)],
         acked := s.acked[r.id := Ack(i, Reply(s.year, WHOLE_LIST, v.cars))])
  }

  // ---------------------------------------------------------------- the invariant

  predicate Holds(t: Thread) {
    t.Locked? || t.Awaiting? || t.Ready?
  }

  ghost predicate Known(arrivals: seq<Arrival>, r: Req) {
    r.id < |arrivals| && arrivals[r.id].msg == r.msg
  }

  /** The request is in the history and got this reply. */
  ghost predicate Answered(year: int, h: seq<Req>, r: Req, reply: Message) {
    exists j :: 0 <= j < |h| && h[j] == r && ReplyTo(year, h, j) == reply
  }

  ghost predicate ThreadInv(n: nat, year: int, arrivals: seq<Arrival>, i: nat, v: Server, k: Conn)
    requires k in v.threads
  {
    var t := v.threads[k];
    && Known(arrivals, t.req)
    && (k.Predecessor? ==> i > 0 && NeedsForward(t.req.msg))
    && (k.Client? ==> arrivals[t.req.id].server == i && (NeedsForward(t.req.msg) ==> i == 0))
    && (t.Awaiting? || t.Ready? ==> NeedsForward(t.req.msg) && i + 1 < n)
    && (if t.Done? then Answered(year, v.hist, t.req, t.reply) else t.req !in v.hist)
  }

  ghost predicate DistinctRequests(h: seq<Req>) {
    forall j, k :: 0 <= j < k < |h| ==> h[j].id != h[k].id
  }

  /** What holds of one server by itself. */
  ghost predicate ServerInv(n: nat, year: int, arrivals: seq<Arrival>, i: nat, v: Server) {
    && v.cars == Replay(year, v.hist)
    && (forall r :: r in v.hist ==> Known(arrivals, r))
    && DistinctRequests(v.hist)
    && (forall k :: k in v.threads ==> ThreadInv(n, year, arrivals, i, v, k))
    && (v.lock.Some? ==> v.lock.value in v.threads && Holds(v.threads[v.lock.value]))
    && (forall k :: k in v.threads && Holds(v.threads[k]) ==> v.lock == Some(k))
    && (forall k, l :: k in v.threads && l in v.threads && k != l ==> v.threads[k].req.id != v.threads[l].req.id)
  }

  /** The write that `w` has invoked on behalf of `v`, and that `v` itself has not yet invoked. */
  ghost function AheadBy(v: Server, w: Server): seq<Req> {
    if v.lock == None || v.lock.value !in v.threads then []
    else match v.threads[v.lock.value]
      case Ready(r, _) => [r]
      case Awaiting(r) => if Predecessor in w.threads && w.threads[Predecessor].Done? then [r] else []
      case _ => []
  }

  /** What holds between a server `v` and its successor `w`. */
  ghost predicate LinkInv(v: Server, w: Server) {
    && (Predecessor in w.threads ==>
          v.lock.Some? && v.lock.value in v.threads
          && v.threads[v.lock.value] == Awaiting(w.threads[Predecessor].req))
    && (forall k :: k in v.threads && v.threads[k].Awaiting? ==> Predecessor in w.threads)
    && Writes(w.hist) == Writes(v.hist) + AheadBy(v, w)
  }

  ghost predicate AckInv(s: State, id: nat)
    requires id in s.acked
  {
    && id < |s.arrivals|
    && s.acked[id].server == s.arrivals[id].server < |s.servers|
    && (NeedsForward(s.arrivals[id].msg) ==> s.acked[id].server == 0)
    && Answered(s.year, s.servers[s.acked[id].server].hist, Req(id, s.arrivals[id].msg), s.acked[id].reply)
  }

  ghost predicate Inv(s: State) {
    && |s.servers| > 0
    && (forall i :: 0 <= i < |s.servers| ==> ServerInv(|s.servers|, s.year, s.arrivals, i, s.servers[i]))
    && (forall i :: 0 <= i && i + 1 < |s.servers| ==> LinkInv(s.servers[i], s.servers[i + 1]))
    && (forall id :: id in s.acked ==> AckInv(s, id))
  }

  lemma InitialInv(s: State)
    requires Initial(s)
    ensures Inv(s)
  {
  }

  // ---------------------------------------------------------------- one server

  lemma MoreArrivals(n: nat, year: int, a: seq<Arrival>, b: seq<Arrival>, i: nat, v: Server)
    requires ServerInv(n, year, a, i, v) && a <= b
    ensures ServerInv(n, year, b, i, v)
  {
    forall r | r in v.hist ensures Known(b, r) {
      assert Known(a, r);
    }
    forall k | k in v.threads ensures ThreadInv(n, year, b, i, v, k) {
      assert ThreadInv(n, year, a, i, v, k);
    }
  }

  /** A request arrives on an idle connection under a number that the server has not seen. */
  lemma ReceivedKeepsServerInv(n: nat, year: int, arrivals: seq<Arrival>, i: nat, v: Server, k: Conn, r: Req)
    requires ServerInv(n, year, arrivals, i, v) && k !in v.threads
    requires Known(arrivals, r) && r !in v.hist
    requires forall l :: l in v.threads ==> v.threads[l].req.id != r.id
    requires if k.Predecessor? then i > 0 && NeedsForward(r.msg)
             else arrivals[r.id].server == i && (NeedsForward(r.msg) ==> i == 0)
    ensures ServerInv(n, year, arrivals, i, Put(v, k, Waiting(r)))
  {
    hide Answered, Known, NeedsForward, DistinctRequests, Replay;
    var x := Put(v, k, Waiting(r));
    forall l | l in x.threads ensures ThreadInv(n, year, arrivals, i, x, l) {
      assert l != k ==> ThreadInv(n, year, arrivals, i, v, l);
    }
  }

  /** A thread that holds the lock, or takes it while it is free, moves on without invoking. */
  lemma AdvancedKeepsServerInv(n: nat, year: int, arrivals: seq<Arrival>, i: nat, v: Server, k: Conn, t: Thread)
    requires ServerInv(n, year, arrivals, i, v) && k in v.threads && !v.threads[k].Done?
    requires Holds(v.threads[k]) || v.lock == None
    requires Holds(t) && t.req == v.threads[k].req
    requires t.Awaiting? || t.Ready? ==> NeedsForward(t.req.msg) && i + 1 < n
    ensures ServerInv(n, year, arrivals, i, Put(v, k, t).(lock := Some(k)))
  {
    var x := Put(v, k, t).(lock := Some(k));
    forall l | l in x.threads ensures ThreadInv(n, year, arrivals, i, x, l) {
      assert ThreadInv(n, year, arrivals, i, v, l);
    }
  }

  lemma DroppedKeepsServerInv(n: nat, year: int, arrivals: seq<Arrival>, i: nat, v: Server, k: Conn)
    requires ServerInv(n, year, arrivals, i, v) && k in v.threads && v.threads[k].Done?
    ensures ServerInv(n, year, arrivals, i, Drop(v, k))
  {
    forall l | l in Drop(v, k).threads ensures ThreadInv(n, year, arrivals, i, Drop(v, k), l) {
      assert ThreadInv(n, year, arrivals, i, v, l);
    }
  }

  lemma AnsweredStill(year: int, h: seq<Req>, q: Req, r: Req, reply: Message)
    requires Answered(year, h, r, reply)
    ensures Answered(year, h + [q], r, reply)
  {
    var j :| 0 <= j < |h| && h[j] == r && ReplyTo(year, h, j) == reply;
    assert (h + [q])[..j] == h[..j];
    assert (h + [q])[j] == r && ReplyTo(year, h + [q], j) == reply;
  }

  /** A history grows by a request that the server has not seen. */
  lemma LongerHistoryFacts(n: nat, year: int, arrivals: seq<Arrival>, i: nat, v: Server, r: Req)
    requires ServerInv(n, year, arrivals, i, v) && Known(arrivals, r) && r !in v.hist
    ensures (v.hist + [r])[..|v.hist|] == v.hist
    ensures DistinctRequests(v.hist + [r])
    ensures forall q :: q in v.hist + [r] ==> Known(arrivals, q)
    ensures Effect(year, r.msg, v.cars) == Replay(year, v.hist + [r])
    ensures Answered(year, v.hist + [r], r, Reply(year, r.msg, v.cars))
  {
    hide Effect, Reply, ThreadInv;
    var h := v.hist + [r];
    assert h[..|v.hist|] == v.hist && h[|v.hist|] == r;
    forall j | 0 <= j < |v.hist| ensures v.hist[j].id != r.id {
      assert v.hist[j] in v.hist && Known(arrivals, v.hist[j]);
    }
    assert ReplyTo(year, h, |v.hist|) == Reply(year, r.msg, v.cars);
  }

  lemma HandledKeepsServerInv(n: nat, year: int, arrivals: seq<Arrival>, i: nat, v: Server, k: Conn)
    requires ServerInv(n, year, arrivals, i, v) && k in v.threads
    requires v.threads[k].Ready? || v.threads[k].Locked?
    ensures ServerInv(n, year, arrivals, i, Handled(year, v, k))
  {
    hide Effect, Reply, Answered, Known, NeedsForward, DistinctRequests;
    var x := Handled(year, v, k);
    var r := v.threads[k].req;
    assert ThreadInv(n, year, arrivals, i, v, k);
    HandledCars(year, v, k);
    LongerHistoryFacts(n, year, arrivals, i, v, r);
    forall l | l in x.threads ensures ThreadInv(n, year, arrivals, i, x, l) {
      assert ThreadInv(n, year, arrivals, i, v, l);
      if l != k && v.threads[l].Done? {
        AnsweredStill(year, v.hist, r, v.threads[l].req, v.threads[l].reply);
      }
    }
  }

  lemma HandledCars(year: int, v: Server, k: Conn)
    requires k in v.threads
    ensures Handled(year, v, k).cars == Effect(year, v.threads[k].req.msg, v.cars)
    ensures Handled(year, v, k).threads[k] ==
      Done(v.threads[k].req, Reply(year, v.threads[k].req.msg, v.cars))
  {
    hide Effect, Reply;
  }

  // ---------------------------------------------------------------- one link

  /** The successor changes without invoking, and its predecessor's request stays where it is. */
  lemma LinkSuccessorChange(v: Server, w: Server, x: Server)
    requires LinkInv(v, w) && Writes(x.hist) == Writes(w.hist)
    requires Predecessor in x.threads <==> Predecessor in w.threads
    requires Predecessor in w.threads ==>
      x.threads[Predecessor].req == w.threads[Predecessor].req
      && (x.threads[Predecessor].Done? <==> w.threads[Predecessor].Done?)
    ensures LinkInv(v, x)
  {
  }

  /** The predecessor changes in a thread that neither holds nor takes the lock. */
  lemma LinkPredecessorChange(v: Server, w: Server, x: Server, k: Conn)
    requires LinkInv(v, w) && x.hist == v.hist && x.lock == v.lock && v.lock != Some(k)
    requires k in x.threads ==> !x.threads[k].Awaiting?
    requires forall l :: l != k ==> (l in x.threads <==> l in v.threads)
    requires forall l :: l != k && l in x.threads ==> x.threads[l] == v.threads[l]
    ensures LinkInv(x, w)
  {
    forall l | l in x.threads && x.threads[l].Awaiting? ensures Predecessor in w.threads {
      assert l in v.threads && v.threads[l].Awaiting?;
    }
  }

  // ---------------------------------------------------------------- one step

  /** `Inv` after a step, from what the step does to servers `i..j`. */
  lemma Reassemble(s: State, t: State, i: nat, j: nat)
    requires Inv(s) && i <= j <= i + 1 && j < |s.servers|
    requires |t.servers| == |s.servers| && t.year == s.year && s.arrivals <= t.arrivals
    requires forall x :: 0 <= x < |s.servers| && x != i && x != j ==> t.servers[x] == s.servers[x]
    requires ServerInv(|s.servers|, s.year, t.arrivals, i, t.servers[i])
    requires ServerInv(|s.servers|, s.year, t.arrivals, j, t.servers[j])
    requires i > 0 ==> LinkInv(s.servers[i - 1], t.servers[i])
    requires i < j ==> LinkInv(t.servers[i], t.servers[j])
    requires j + 1 < |s.servers| ==> LinkInv(t.servers[j], s.servers[j + 1])
    requires forall id :: id in t.acked ==> AckInv(t, id)
    ensures Inv(t)
  {
    hide ServerInv, LinkInv, AckInv;
    forall x | 0 <= x < |t.servers| ensures ServerInv(|t.servers|, t.year, t.arrivals, x, t.servers[x]) {
      if x != i && x != j {
        MoreArrivals(|s.servers|, s.year, s.arrivals, t.arrivals, x, s.servers[x]);
      }
    }
    forall x | 0 <= x && x + 1 < |t.servers| ensures LinkInv(t.servers[x], t.servers[x + 1]) {
      if x + 1 != i && x != i && x != j {
        assert LinkInv(s.servers[x], s.servers[x + 1]);
      }
    }
  }

  /** Acknowledgements stay valid while histories do not change. */
  lemma SameHistories(s: State, t: State)
    requires Inv(s) && |t.servers| == |s.servers| && t.year == s.year && s.arrivals <= t.arrivals
    requires t.acked == s.acked
    requires forall x :: 0 <= x < |s.servers| ==> t.servers[x].hist == s.servers[x].hist
    ensures forall id :: id in t.acked ==> AckInv(t, id)
  {
    forall id | id in t.acked ensures AckInv(t, id) {
      assert AckInv(s, id);
    }
  }

  ghost predicate At(s: State, i: nat) {
    && i < |s.servers|
    && ServerInv(|s.servers|, s.year, s.arrivals, i, s.servers[i])
    && (i > 0 ==> LinkInv(s.servers[i - 1], s.servers[i]))
    && (i + 1 < |s.servers| ==> LinkInv(s.servers[i], s.servers[i + 1]))
  }

  lemma Around(s: State, i: nat)
    requires Inv(s) && i < |s.servers|
    ensures At(s, i)
  {
    if i > 0 {
      hide ServerInv, LinkInv;
      assert LinkInv(s.servers[i - 1], s.servers[i - 1 + 1]);
    }
  }

  lemma Focus(s: State, i: nat, k: Conn)
    requires Inv(s) && HasThread(s, i, k)
    ensures At(s, i) && ThreadInv(|s.servers|, s.year, s.arrivals, i, s.servers[i], k)
    ensures Holds(s.servers[i].threads[k]) <==> s.servers[i].lock == Some(k)
  {
    Around(s, i);
  }

  lemma ArriveKeepsInv(s: State, i: nat, c: nat, msg: Message)
    requires Inv(s) && Enabled(s, Arrive(i, c, msg))
    ensures Inv(Next(s, Arrive(i, c, msg)))
  {
    hide ServerInv, LinkInv, AckInv;
    var t := Next(s, Arrive(i, c, msg));
    var (v, r) := (s.servers[i], Req(|s.arrivals|, msg));
    Around(s, i);
    NewNumber(|s.servers|, s.year, s.arrivals, i, v, r);
    MoreArrivals(|s.servers|, s.year, s.arrivals, t.arrivals, i, v);
    ReceivedKeepsServerInv(|s.servers|, s.year, t.arrivals, i, v, Client(c), r);
    if i > 0 {
      LinkSuccessorChange(s.servers[i - 1], v, t.servers[i]);
    }
    if i + 1 < |s.servers| {
      LinkPredecessorChange(v, s.servers[i + 1], t.servers[i], Client(c));
    }
    SameHistories(s, t);
    Reassemble(s, t, i, i);
  }

  lemma NewNumber(n: nat, year: int, arrivals: seq<Arrival>, i: nat, v: Server, r: Req)
    requires ServerInv(n, year, arrivals, i, v) && r.id >= |arrivals|
    ensures r !in v.hist
    ensures forall q :: q in v.hist ==> q.id != r.id
    ensures forall k :: k in v.threads ==> v.threads[k].req.id != r.id
  {
    assert forall q :: q in v.hist ==> Known(arrivals, q);
    forall k | k in v.threads ensures v.threads[k].req.id != r.id {
      assert ThreadInv(n, year, arrivals, i, v, k);
    }
  }

  lemma AcquireKeepsInv(s: State, i: nat, k: Conn)
    requires Inv(s) && Enabled(s, Acquire(i, k))
    ensures Inv(Next(s, Acquire(i, k)))
  {
    hide ServerInv, LinkInv, AckInv;
    var t := Next(s, Acquire(i, k));
    var v := s.servers[i];
    Focus(s, i, k);
    AdvancedKeepsServerInv(|s.servers|, s.year, s.arrivals, i, v, k, Locked(v.threads[k].req));
    if i > 0 {
      LinkSuccessorChange(s.servers[i - 1], v, t.servers[i]);
    }
    if i + 1 < |s.servers| {
      LinkAcquire(v, s.servers[i + 1], k);
    }
    SameHistories(s, t);
    Reassemble(s, t, i, i);
  }

  lemma LinkAcquire(v: Server, w: Server, k: Conn)
    requires LinkInv(v, w) && v.lock == None && k in v.threads
    ensures LinkInv(Put(v, k, Locked(v.threads[k].req)).(lock := Some(k)), w)
  {
  }

  lemma PassServers(s: State, i: nat, k: Conn)
    requires Inv(s) && Enabled(s, Pass(i, k))
    ensures var t := Next(s, Pass(i, k));
            && ServerInv(|s.servers|, s.year, s.arrivals, i, t.servers[i])
            && ServerInv(|s.servers|, s.year, s.arrivals, i + 1, t.servers[i + 1])
            && LinkInv(t.servers[i], t.servers[i + 1])
  {
    hide ServerInv, LinkInv, AckInv;
    var (v, w, n) := (s.servers[i], s.servers[i + 1], |s.servers|);
    var r := v.threads[k].req;
    Focus(s, i, k);
    AdvancedKeepsServerInv(n, s.year, s.arrivals, i, v, k, Awaiting(r));
    NotYetBelow(n, s.year, s.arrivals, i, v, w, k);
    ReceivedKeepsServerInv(n, s.year, s.arrivals, i + 1, w, Predecessor, r);
    LinkPass(v, w, k);
  }

  lemma PassKeepsInv(s: State, i: nat, k: Conn)
    requires Inv(s) && Enabled(s, Pass(i, k))
    ensures Inv(Next(s, Pass(i, k)))
  {
    hide ServerInv, LinkInv, AckInv;
    var t := Next(s, Pass(i, k));
    PassServers(s, i, k);
    OuterLinks(s, t, i, k);
    SameHistories(s, t);
    Reassemble(s, t, i, i + 1);
  }

  lemma NotTheHolder(n: nat, year: int, arrivals: seq<Arrival>, i: nat, w: Server)
    requires ServerInv(n, year, arrivals, i, w)
    requires Predecessor !in w.threads || w.threads[Predecessor].Done?
    ensures w.lock != Some(Predecessor)
  {
  }

  /** The links on the far sides of servers `i` and `i + 1`, when thread `k` of the one stays with
      its request and the other's predecessor connection is opened or closed. */
  lemma OuterLinks(s: State, t: State, i: nat, k: Conn)
    requires Inv(s) && |t.servers| == |s.servers| && HasThread(s, i, k) && i + 1 < |s.servers|
    requires HasThread(t, i, k) && t.servers[i] == Put(s.servers[i], k, t.servers[i].threads[k])
    requires t.servers[i].threads[k].req == s.servers[i].threads[k].req
    requires !s.servers[i].threads[k].Done? && !t.servers[i].threads[k].Done?
    requires
      || (Predecessor !in s.servers[i + 1].threads
          && exists r :: t.servers[i + 1] == Put(s.servers[i + 1], Predecessor, Waiting(r)))
      || (HasThread(s, i + 1, Predecessor) && s.servers[i + 1].threads[Predecessor].Done?
          && t.servers[i + 1] == Drop(s.servers[i + 1], Predecessor))
    ensures i > 0 ==> LinkInv(s.servers[i - 1], t.servers[i])
    ensures i + 2 < |s.servers| ==> LinkInv(t.servers[i + 1], s.servers[i + 2])
  {
    hide ServerInv, LinkInv, AckInv;
    Around(s, i);
    Around(s, i + 1);
    var w := s.servers[i + 1];
    if i > 0 {
      LinkSuccessorChange(s.servers[i - 1], s.servers[i], t.servers[i]);
    }
    if i + 2 < |s.servers| {
      NotTheHolder(|s.servers|, s.year, s.arrivals, i + 1, w);
      LinkPredecessorChange(w, s.servers[i + 2], t.servers[i + 1], Predecessor);
    }
  }

  /** A request about to be forwarded is unknown to the successor. */
  lemma NotYetBelow(n: nat, year: int, arrivals: seq<Arrival>, i: nat, v: Server, w: Server, k: Conn)
    requires ServerInv(n, year, arrivals, i + 1, w) && Predecessor !in w.threads && LinkInv(v, w)
    requires v.lock == Some(k) && k in v.threads && v.threads[k].Locked?
    requires ThreadInv(n, year, arrivals, i, v, k) && NeedsForward(v.threads[k].req.msg)
    ensures v.threads[k].req !in w.hist
    ensures forall l :: l in w.threads ==> w.threads[l].req.id != v.threads[k].req.id
  {
    var r := v.threads[k].req;
    WritesMembers(v.hist, r);
    WritesMembers(w.hist, r);
    forall l | l in w.threads ensures w.threads[l].req.id != r.id {
      assert ThreadInv(n, year, arrivals, i + 1, w, l);
    }
  }

  lemma LinkPass(v: Server, w: Server, k: Conn)
    requires LinkInv(v, w) && v.lock == Some(k) && k in v.threads && v.threads[k].Locked?
    requires Predecessor !in w.threads
    ensures LinkInv(Put(v, k, Awaiting(v.threads[k].req)), Put(w, Predecessor, Waiting(v.threads[k].req)))
  {
  }

  lemma ReturnServers(s: State, i: nat, k: Conn)
    requires Inv(s) && Enabled(s, Return(i, k))
    ensures var t := Next(s, Return(i, k));
            && ServerInv(|s.servers|, s.year, s.arrivals, i, t.servers[i])
            && ServerInv(|s.servers|, s.year, s.arrivals, i + 1, t.servers[i + 1])
            && LinkInv(t.servers[i], t.servers[i + 1])
  {
    hide ServerInv, LinkInv, AckInv;
    var t := Next(s, Return(i, k));
    var (v, w, n) := (s.servers[i], s.servers[i + 1], |s.servers|);
    Focus(s, i, k);
    AdvancedKeepsServerInv(n, s.year, s.arrivals, i, v, k, t.servers[i].threads[k]);
    DroppedKeepsServerInv(n, s.year, s.arrivals, i + 1, w, Predecessor);
    LinkReturn(n, s.year, s.arrivals, i, v, w, k);
  }

  lemma ReturnKeepsInv(s: State, i: nat, k: Conn)
    requires Inv(s) && Enabled(s, Return(i, k))
    ensures Inv(Next(s, Return(i, k)))
  {
    hide ServerInv, LinkInv, AckInv;
    var t := Next(s, Return(i, k));
    ReturnServers(s, i, k);
    OuterLinks(s, t, i, k);
    SameHistories(s, t);
    Reassemble(s, t, i, i + 1);
  }

  lemma LinkReturn(n: nat, year: int, arrivals: seq<Arrival>, i: nat, v: Server, w: Server, k: Conn)
    requires LinkInv(v, w) && ServerInv(n, year, arrivals, i, v)
    requires k in v.threads && v.threads[k].Awaiting?
    requires Predecessor in w.threads && w.threads[Predecessor].Done?
    ensures LinkInv(Put(v, k, Ready(v.threads[k].req, w.threads[Predecessor].reply)), Drop(w, Predecessor))
  {
  }

  lemma ApplyKeepsInv(s: State, i: nat, k: Conn)
    requires Inv(s) && Enabled(s, Apply(i, k))
    ensures Inv(Next(s, Apply(i, k)))
  {
    hide ServerInv, LinkInv, AckInv;
    var t := Next(s, Apply(i, k));
    var (v, n) := (s.servers[i], |s.servers|);
    var r := v.threads[k].req;
    Focus(s, i, k);
    HandledKeepsServerInv(n, s.year, s.arrivals, i, v, k);
    if i + 1 < n {
      LinkHandledAbove(n, s.year, s.arrivals, i, v, s.servers[i + 1], k);
    }
    if i > 0 {
      LinkHandledBelow(n, s.year, s.arrivals, i, s.servers[i - 1], v, k);
    }
    LongerHistory(s, t, i, r);
    Reassemble(s, t, i, i);
  }

  /** Acknowledgements stay valid when a history grows. */
  lemma LongerHistory(s: State, t: State, i: nat, r: Req)
    requires Inv(s) && |t.servers| == |s.servers| && t.year == s.year && s.arrivals == t.arrivals
    requires t.acked == s.acked && i < |s.servers|
    requires t.servers[i].hist == s.servers[i].hist + [r]
    requires forall x :: 0 <= x < |s.servers| && x != i ==> t.servers[x].hist == s.servers[x].hist
    ensures forall id :: id in t.acked ==> AckInv(t, id)
  {
    forall id | id in t.acked ensures AckInv(t, id) {
      assert AckInv(s, id);
      if s.acked[id].server == i {
        AnsweredStill(s.year, s.servers[i].hist, r, Req(id, s.arrivals[id].msg), s.acked[id].reply);
      }
    }
  }

  /** A server with a successor catches up with it when it handles a write. */
  lemma LinkHandledAbove(n: nat, year: int, arrivals: seq<Arrival>, i: nat, v: Server, w: Server, k: Conn)
    requires LinkInv(v, w) && ServerInv(n, year, arrivals, i, v)
    requires k in v.threads
    requires v.threads[k].Ready? || (v.threads[k].Locked? && !NeedsForward(v.threads[k].req.msg))
    ensures LinkInv(Handled(year, v, k), w)
  {
    assert ThreadInv(n, year, arrivals, i, v, k);
    WritesSnoc(v.hist, v.threads[k].req);
  }

  /** A successor that handles its predecessor's write gets ahead of it by that write. */
  lemma LinkHandledBelow(n: nat, year: int, arrivals: seq<Arrival>, i: nat, u: Server, v: Server, k: Conn)
    requires i > 0 && LinkInv(u, v) && ServerInv(n, year, arrivals, i, v)
    requires k in v.threads && (v.threads[k].Ready? || v.threads[k].Locked?)
    ensures LinkInv(u, Handled(year, v, k))
  {
    assert ThreadInv(n, year, arrivals, i, v, k);
    WritesSnoc(v.hist, v.threads[k].req);
  }

  lemma RespondKeepsInv(s: State, i: nat, c: nat)
    requires Inv(s) && Enabled(s, Respond(i, c))
    ensures Inv(Next(s, Respond(i, c)))
  {
    hide ServerInv, LinkInv, AckInv;
    var t := Next(s, Respond(i, c));
    var (v, n) := (s.servers[i], |s.servers|);
    Focus(s, i, Client(c));
    DroppedKeepsServerInv(n, s.year, s.arrivals, i, v, Client(c));
    if i > 0 {
      LinkSuccessorChange(s.servers[i - 1], v, t.servers[i]);
    }
    if i + 1 < n {
      LinkPredecessorChange(v, s.servers[i + 1], t.servers[i], Client(c));
    }
    NewAck(s, i, c);
    Reassemble(s, t, i, i);
  }

  lemma NewAck(s: State, i: nat, c: nat)
    requires Inv(s) && Enabled(s, Respond(i, c))
    requires ThreadInv(|s.servers|, s.year, s.arrivals, i, s.servers[i], Client(c))
    ensures var t := Next(s, Respond(i, c)); forall id :: id in t.acked ==> AckInv(t, id)
  {
    hide ServerInv, LinkInv;
    var t := Next(s, Respond(i, c));
    forall id | id in t.acked ensures AckInv(t, id) {
      if id != s.servers[i].threads[Client(c)].req.id {
        assert AckInv(s, id);
      }
    }
  }

  lemma MoreServers(n: nat, year: int, arrivals: seq<Arrival>, i: nat, v: Server)
    requires ServerInv(n, year, arrivals, i, v)
    ensures ServerInv(n + 1, year, arrivals, i, v)
  {
    forall k | k in v.threads ensures ThreadInv(n + 1, year, arrivals, i, v, k) {
      assert ThreadInv(n, year, arrivals, i, v, k);
    }
  }

  lemma QueriedKeepsServerInv(n: nat, year: int, arrivals: seq<Arrival>, i: nat, v: Server, r: Req)
    requires ServerInv(n, year, arrivals, i, v) && Known(arrivals, r) && r !in v.hist
    requires forall k :: k in v.threads ==> v.threads[k].req.id != r.id
    ensures ServerInv(n, year, arrivals, i, Queried(year, v, r))
  {
    hide Effect, Reply, Answered, Known, NeedsForward, DistinctRequests;
    var x := Queried(year, v, r);
    LongerHistoryFacts(n, year, arrivals, i, v, r);
    forall k | k in x.threads ensures ThreadInv(n, year, arrivals, i, x, k) {
      assert ThreadInv(n, year, arrivals, i, v, k);
      if v.threads[k].Done? {
        AnsweredStill(year, v.hist, r, v.threads[k].req, v.threads[k].reply);
      }
    }
  }

  lemma JoinedServerInv(n: nat, year: int, arrivals: seq<Arrival>, i: nat, j: nat, v: Server, r: Req)
    requires ServerInv(n, year, arrivals, i, v)
    requires ServerInv(n, year, arrivals, i, Queried(year, v, r)) && r.msg == WHOLE_LIST
    ensures ServerInv(n, year, arrivals, j, Joined(year, v, r))
    ensures Joined(year, v, r).cars == Queried(year, v, r).cars
    ensures YearEq(Joined(year, v, r).cars, v.cars)
  {
    ReplayKeepsValidated(year, v.hist);
    WholeListReceived(year, v.cars);
  }

  lemma LinkJoined(n: nat, year: int, arrivals: seq<Arrival>, i: nat, v: Server, r: Req)
    requires ServerInv(n, year, arrivals, i, v) && v.lock == None
    ensures LinkInv(Queried(year, v, r), Joined(year, v, r))
  {
  }

  /** A server that joins in one step, with the lock of the last server free, keeps the invariant;
      it starts with the same cars in the same order as its predecessor now has. */
  lemma JoinKeepsInv(s: State)
    requires Inv(s) && Enabled(s, Join)
    ensures Inv(Next(s, Join))
    ensures var (t, i) := (Next(s, Join), |s.servers| - 1);
            && t.servers[i + 1].cars == t.servers[i].cars
            && YearEq(t.servers[i + 1].cars, s.servers[i].cars)
            && Writes(t.servers[i + 1].hist) == Writes(s.servers[i].hist)
  {
    hide ServerInv, LinkInv, AckInv;
    JoinServers(s);
    JoinLinks(s);
    JoinAcks(s);
  }

  lemma JoinServers(s: State)
    requires Inv(s) && Enabled(s, Join)
    ensures var (t, i) := (Next(s, Join), |s.servers| - 1);
            && (forall x :: 0 <= x < |t.servers| ==> ServerInv(|t.servers|, t.year, t.arrivals, x, t.servers[x]))
            && t.servers[i + 1].cars == t.servers[i].cars
            && YearEq(t.servers[i + 1].cars, s.servers[i].cars)
  {
    hide ServerInv, LinkInv, AckInv, YearEq, Effect, Reply, Received, NeedsForward;
    var (t, n, i) := (Next(s, Join), |s.servers|, |s.servers| - 1);
    var (v, r) := (s.servers[i], Req(|s.arrivals|, WHOLE_LIST));
    forall x | 0 <= x < n ensures ServerInv(n + 1, t.year, t.arrivals, x, s.servers[x]) {
      MoreArrivals(n, s.year, s.arrivals, t.arrivals, x, s.servers[x]);
      MoreServers(n, s.year, t.arrivals, x, s.servers[x]);
    }
    NewNumber(n, s.year, s.arrivals, i, v, r);
    QueriedKeepsServerInv(n + 1, s.year, t.arrivals, i, v, r);
    JoinedServerInv(n + 1, s.year, t.arrivals, i, i + 1, v, r);
  }

  lemma JoinLinks(s: State)
    requires Inv(s) && Enabled(s, Join)
    ensures var (t, i) := (Next(s, Join), |s.servers| - 1);
            && (forall x :: 0 <= x && x + 1 < |t.servers| ==> LinkInv(t.servers[x], t.servers[x + 1]))
            && Writes(t.servers[i + 1].hist) == Writes(s.servers[i].hist)
  {
    hide ServerInv, LinkInv, AckInv, Effect, Reply, Received;
    var (t, n, i) := (Next(s, Join), |s.servers|, |s.servers| - 1);
    var (v, r) := (s.servers[i], Req(|s.arrivals|, WHOLE_LIST));
    Around(s, i);
    LinkJoined(n, s.year, s.arrivals, i, v, r);
    WritesSnoc(v.hist, r);
    if i > 0 {
      LinkSuccessorChange(s.servers[i - 1], v, t.servers[i]);
    }
    forall x | 0 <= x && x + 1 < n + 1 ensures LinkInv(t.servers[x], t.servers[x + 1]) {
      assert x + 1 < i ==> LinkInv(s.servers[x], s.servers[x + 1]);
    }
  }

  lemma JoinAcks(s: State)
    requires Inv(s) && Enabled(s, Join)
    ensures var t := Next(s, Join); forall id :: id in t.acked ==> AckInv(t, id)
  {
    hide ServerInv, LinkInv;
    var (t, i) := (Next(s, Join), |s.servers| - 1);
    var r := Req(|s.arrivals|, WHOLE_LIST);
    var h := s.servers[i].hist;
    forall id | id in t.acked ensures AckInv(t, id) {
      if id == r.id {
        assert ServerInv(|s.servers|, s.year, s.arrivals, i, s.servers[i]);
        CarsAreReplayed(|s.servers|, s.year, s.arrivals, i, s.servers[i]);
        assert (h + [r])[..|h|] == h && (h + [r])[|h|] == r;
        assert ReplyTo(s.year, h + [r], |h|) == t.acked[id].reply;
      } else {
        assert AckInv(s, id);
        if s.acked[id].server == i {
          AnsweredStill(s.year, h, r, Req(id, s.arrivals[id].msg), s.acked[id].reply);
        }
      }
    }
  }

  lemma CarsAreReplayed(n: nat, year: int, arrivals: seq<Arrival>, i: nat, v: Server)
    requires ServerInv(n, year, arrivals, i, v)
    ensures v.cars == Replay(year, v.hist)
  {
  }

  lemma StepKeepsInv(s: State, e: Step)
    requires Inv(s) && Enabled(s, e)
    ensures Inv(Next(s, e))
  {
    match e
    case Arrive(i, c, msg) => ArriveKeepsInv(s, i, c, msg);
    case Acquire(i, k) => AcquireKeepsInv(s, i, k);
    case Pass(i, k) => PassKeepsInv(s, i, k);
    case Return(i, k) => ReturnKeepsInv(s, i, k);
    case Apply(i, k) => ApplyKeepsInv(s, i, k);
    case Respond(i, c) => RespondKeepsInv(s, i, c);
    case Join => JoinKeepsInv(s);
  }
}
