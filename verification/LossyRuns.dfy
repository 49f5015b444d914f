/** The protocol with links that may fail, all threads interleaving: what losing requests and
    replies does to the logs in every reachable state. */
module LossyRuns {
  import opened Data
  import opened Messages
  import opened Replicas
  import opened ChainProtocol
  import ChainTheorems
  import LossyChain

  /** The state of the chain and, for each server, the writes it has given up for want of a reply. */
  datatype Lossy = Lossy(s: State, gaveUp: seq<seq<Req>>)

  /** A step without loss; a forwarded request that never arrives; a reply that is lost once the
      successor has handled the request. */
  datatype LossyStep = Plain(e: Step) | LoseRequest(i: nat, k: Conn) | LoseReply(i: nat, k: Conn)

  predicate Possible(l: Lossy, e: LossyStep) {
    && |l.gaveUp| == |l.s.servers|
    && match e
       case Plain(p) => Enabled(l.s, p)
       case LoseRequest(i, k) => Enabled(l.s, Pass(i, k))
       case LoseReply(i, k) => Enabled(l.s, Return(i, k))
  }

  /** The server answers with an error, unlocks its list, and does not invoke the request. */
  function GiveUp(year: int, v: Server, k: Conn): Server
    requires k in v.threads
  {
    var t := v.threads[k];
    Server(ServedEffect(year, t.req.msg, v.cars, NoReply), v.hist, None,
           v.threads[k := Done(t.req, ServedReply(year, t.req.msg, v.cars, NoReply))])
  }

  function After(l: Lossy, e: LossyStep): Lossy
    requires Possible(l, e)
  {
    var s := l.s;
    match e
    case Plain(p) => Lossy(Next(s, p), if p.Join? then l.gaveUp + [[]] else l.gaveUp)
    case LoseRequest(i, k) =>
      Lossy(s.(servers := s.servers[i := GiveUp(s.year, s.servers[i], k)]),
            l.gaveUp[i := l.gaveUp[i] + [s.servers[i].threads[k].req]])
    case LoseReply(i, k) =>
      Lossy(s.(servers := s.servers[i := GiveUp(s.year, s.servers[i], k)]
                                   [i + 1 := Drop(s.servers[i + 1], Predecessor)]),
            l.gaveUp[i := l.gaveUp[i] + [s.servers[i].threads[k].req]])
  }

  // ---------------------------------------------------------------- logs with gaps

  /** The log without the writes that were given up. */
  function Without(g: seq<Req>, gave: seq<Req>): seq<Req> {
    if g == [] then [] else
      var (front, r) := (g[..|g| - 1], g[|g| - 1]);
      Without(front, gave) + if r in gave then [] else [r]
  }

  /** Apart from what was given up, `h` has everything that `g` has, in the same order. */
  ghost predicate Covered(g: seq<Req>, gave: seq<Req>, h: seq<Req>) {
    LossyChain.Subsequence(Without(g, gave), h)
  }

  lemma WithoutSnoc(g: seq<Req>, r: Req, gave: seq<Req>)
    ensures Without(g + [r], gave) == Without(g, gave) + if r in gave then [] else [r]
  {
    assert (g + [r])[..|g|] == g;
  }

  lemma {:induction false} WithoutMore(g: seq<Req>, gave: seq<Req>, r: Req)
    requires r !in g
    ensures Without(g, gave + [r]) == Without(g, gave)
  {
    if g != [] {
      WithoutMore(g[..|g| - 1], gave, r);
    }
  }

  lemma {:induction false} WithoutNothing(g: seq<Req>, gave: seq<Req>)
    requires forall r :: r in g ==> r !in gave
    ensures Without(g, gave) == g
  {
    if g != [] {
      assert g == g[..|g| - 1] + [g[|g| - 1]];
      WithoutNothing(g[..|g| - 1], gave);
    }
  }

  lemma {:induction false} WithoutMembers(g: seq<Req>, gave: seq<Req>, r: Req)
    ensures r in Without(g, gave) <==> r in g && r !in gave
  {
    if g != [] {
      assert g == g[..|g| - 1] + [g[|g| - 1]];
      WithoutMembers(g[..|g| - 1], gave, r);
    }
  }

  lemma {:induction false} SubsequenceOfItself(g: seq<Req>)
    ensures LossyChain.Subsequence(g, g)
  {
    if g != [] {
      SubsequenceOfItself(g[..|g| - 1]);
    }
  }

  /** One more on both sides. */
  lemma SubsequenceSnoc(g: seq<Req>, h: seq<Req>, r: Req)
    requires LossyChain.Subsequence(g, h)
    ensures LossyChain.Subsequence(g + [r], h + [r])
  {
    assert (g + [r])[..|g|] == g && (h + [r])[..|h|] == h;
  }

  lemma SubsequenceLonger(g: seq<Req>, h: seq<Req>, r: Req)
    requires LossyChain.Subsequence(g, h)
    ensures LossyChain.Subsequence(g, h + [r])
  {
    assert (h + [r])[..|h|] == h;
  }

  /** One less on the left. */
  lemma {:induction false} SubsequenceFront(g: seq<Req>, r: Req, h: seq<Req>)
    requires LossyChain.Subsequence(g + [r], h)
    ensures LossyChain.Subsequence(g, h)
  {
    var front := h[..|h| - 1];
    assert h == front + [h[|h| - 1]];
    if LossyChain.Subsequence(g + [r], front) {
      SubsequenceFront(g, r, front);
    } else {
      assert (g + [r])[..|g + [r]| - 1] == g;
    }
    SubsequenceLonger(g, front, h[|h| - 1]);
  }

  // ---------------------------------------------------------------- the invariant

  /** What a server is doing about its successor: nothing, waiting for its reply, or holding it. */
  datatype Hand = Free | Sent(r: Req) | Got(r: Req)

  function HandOf(v: Server): Hand {
    if v.lock == None || v.lock.value !in v.threads then Free else HandIn(v.threads[v.lock.value])
  }

  function HandIn(t: Thread): Hand {
    match t
    case Awaiting(r) => Sent(r)
    case Ready(r, _) => Got(r)
    case _ => Free
  }

  /** What a server is doing for its predecessor: nothing, a request, or replying to it. */
  datatype Task = Nothing | Open(r: Req) | Closed(r: Req)

  function TaskOf(w: Server): Task {
    if Predecessor !in w.threads then Nothing
    else match w.threads[Predecessor]
      case Done(r, _) => Closed(r)
      case t => Open(t.req)
  }

  ghost predicate Matching(hand: Hand, task: Task) {
    match hand
    case Sent(r) => task == Open(r) || task == Closed(r)
    case _ => task == Nothing
  }

  /** The request that the successor is through with and its predecessor is not. */
  function Ahead(hand: Hand, task: Task): seq<Req> {
    match hand
    case Free => []
    case Sent(r) => if task.Closed? then [r] else []
    case Got(r) => [r]
  }

  /** Between a server with log `g` and its successor with log `h`: the successor lacks nothing but
      what it has given up, and has seen nothing that its predecessor has not. */
  ghost predicate Link(hand: Hand, task: Task, g: seq<Req>, gave: seq<Req>, h: seq<Req>, given: seq<Req>) {
    && Matching(hand, task)
    && Covered(g + Ahead(hand, task), given, h)
    && forall r :: r in h || r in given ==> r in g || r in gave || r in Ahead(hand, task)
  }

  ghost predicate ThreadOk(n: nat, m: nat, i: nat, v: Server, gave: seq<Req>, k: Conn)
    requires k in v.threads
  {
    var t := v.threads[k];
    && t.req.id < m
    && (k.Predecessor? ==> i > 0 && NeedsForward(t.req.msg))
    && (k.Client? ==> NeedsForward(t.req.msg) ==> i == 0)
    && (t.Awaiting? || t.Ready? ==> NeedsForward(t.req.msg) && i + 1 < n)
    && (!t.Done? ==> t.req !in v.hist && t.req !in gave)
  }

  ghost predicate ServerOk(n: nat, m: nat, i: nat, v: Server, gave: seq<Req>) {
    && (forall k :: k in v.threads ==> ThreadOk(n, m, i, v, gave, k))
    && (v.lock.Some? ==> v.lock.value in v.threads && Holds(v.threads[v.lock.value]))
    && (forall k :: k in v.threads && Holds(v.threads[k]) ==> v.lock == Some(k))
    && (forall k, l :: k in v.threads && l in v.threads && k != l ==> v.threads[k].req != v.threads[l].req)
    && (forall r :: r in v.hist || r in gave ==> r.id < m)
    && (forall r :: r in gave ==> r !in v.hist && NeedsForward(r.msg))
    && (gave != [] ==> i + 1 < n)
  }

  /** Servers `v` and `w`, neighbours that have given up `gave` and `given`. */
  ghost predicate LinkOk(v: Server, gave: seq<Req>, w: Server, given: seq<Req>) {
    Link(HandOf(v), TaskOf(w), Writes(v.hist), gave, Writes(w.hist), given)
  }

  ghost predicate Inv(l: Lossy) {
    && |l.gaveUp| == |l.s.servers| > 0
    && (forall i :: 0 <= i < |l.s.servers| ==>
          ServerOk(|l.s.servers|, |l.s.arrivals|, i, l.s.servers[i], l.gaveUp[i]))
    && forall i :: 0 <= i && i + 1 < |l.s.servers| ==>
         LinkOk(l.s.servers[i], l.gaveUp[i], l.s.servers[i + 1], l.gaveUp[i + 1])
  }

  // ---------------------------------------------------------------- one server

  lemma LaterOk(n: nat, m: nat, i: nat, v: Server, gave: seq<Req>, n': nat, m': nat)
    requires ServerOk(n, m, i, v, gave) && n <= n' && m <= m'
    ensures ServerOk(n', m', i, v, gave)
  {
    forall k | k in v.threads ensures ThreadOk(n', m', i, v, gave, k) {
      assert ThreadOk(n, m, i, v, gave, k);
    }
  }

  lemma ReceivedOk(n: nat, m: nat, i: nat, v: Server, gave: seq<Req>, k: Conn, r: Req)
    requires ServerOk(n, m, i, v, gave) && k !in v.threads
    requires r.id < m && r !in v.hist && r !in gave
    requires forall l :: l in v.threads ==> v.threads[l].req != r
    requires if k.Predecessor? then i > 0 && NeedsForward(r.msg) else NeedsForward(r.msg) ==> i == 0
    ensures var x := Put(v, k, Waiting(r));
            && ServerOk(n, m, i, x, gave) && HandOf(x) == HandOf(v)
            && TaskOf(x) == if k.Predecessor? then Open(r) else TaskOf(v)
  {
    hide NeedsForward;
    var x := Put(v, k, Waiting(r));
    forall l | l in x.threads ensures ThreadOk(n, m, i, x, gave, l) {
      assert l != k ==> ThreadOk(n, m, i, v, gave, l);
    }
  }

  /** The thread has or takes the lock, and moves on without invoking. */
  lemma AdvancedOk(n: nat, m: nat, i: nat, v: Server, gave: seq<Req>, k: Conn, t: Thread)
    requires ServerOk(n, m, i, v, gave) && k in v.threads && !v.threads[k].Done?
    requires Holds(v.threads[k]) || v.lock == None
    requires Holds(t) && t.req == v.threads[k].req
    requires t.Awaiting? || t.Ready? ==> NeedsForward(t.req.msg) && i + 1 < n
    ensures var x := Put(v, k, t).(lock := Some(k));
            && ServerOk(n, m, i, x, gave) && TaskOf(x) == TaskOf(v)
            && HandOf(v) == HandIn(v.threads[k]) && HandOf(x) == HandIn(t)
  {
    hide NeedsForward;
    var x := Put(v, k, t).(lock := Some(k));
    forall l | l in x.threads ensures ThreadOk(n, m, i, x, gave, l) {
      assert ThreadOk(n, m, i, v, gave, l);
    }
  }

  lemma DroppedOk(n: nat, m: nat, i: nat, v: Server, gave: seq<Req>, k: Conn)
    requires ServerOk(n, m, i, v, gave) && k in v.threads && v.threads[k].Done?
    ensures var x := Drop(v, k);
            && ServerOk(n, m, i, x, gave) && HandOf(x) == HandOf(v)
            && TaskOf(v) == (if k.Predecessor? then Closed(v.threads[k].req) else TaskOf(v))
            && TaskOf(x) == if k.Predecessor? then Nothing else TaskOf(v)
  {
    var x := Drop(v, k);
    forall l | l in x.threads ensures ThreadOk(n, m, i, x, gave, l) {
      assert ThreadOk(n, m, i, v, gave, l);
    }
  }

  /** The thread is through with its request, which has been invoked or given up. */
  ghost predicate Finished(v: Server, x: Server, k: Conn)
    requires k in v.threads
  {
    && x.lock == None && k in x.threads && x.threads[k].Done? && x.threads[k].req == v.threads[k].req
    && x.threads == v.threads[k := x.threads[k]]
  }

  lemma FinishedOk(n: nat, m: nat, i: nat, v: Server, gave: seq<Req>, k: Conn, x: Server, gone: seq<Req>)
    requires ServerOk(n, m, i, v, gave) && k in v.threads && Holds(v.threads[k]) && Finished(v, x, k)
    requires var r := v.threads[k].req;
             || (x.hist == v.hist + [r] && gone == gave)
             || (x.hist == v.hist && gone == gave + [r] && NeedsForward(r.msg) && i + 1 < n)
    ensures ServerOk(n, m, i, x, gone) && HandOf(x) == Free
    ensures HandOf(v) == HandIn(v.threads[k])
    ensures TaskOf(v) == if k.Predecessor? then Open(v.threads[k].req) else TaskOf(v)
    ensures TaskOf(x) == if k.Predecessor? then Closed(v.threads[k].req) else TaskOf(v)
  {
    hide NeedsForward;
    assert ThreadOk(n, m, i, v, gave, k);
    forall l | l in x.threads ensures ThreadOk(n, m, i, x, gone, l) {
      assert ThreadOk(n, m, i, v, gave, l);
    }
  }

  /** What a thread knows about its server. */
  lemma ThreadFacts(n: nat, m: nat, i: nat, v: Server, gave: seq<Req>, k: Conn)
    requires ServerOk(n, m, i, v, gave) && k in v.threads
    ensures var t := v.threads[k];
            && t.req.id < m && (k.Predecessor? ==> i > 0 && NeedsForward(t.req.msg))
            && (k.Client? && NeedsForward(t.req.msg) ==> i == 0)
            && (t.Awaiting? || t.Ready? ==> NeedsForward(t.req.msg) && i + 1 < n)
            && (!t.Done? ==> t.req !in v.hist && t.req !in gave)
            && (Holds(t) ==> v.lock == Some(k))
            && (Holds(t) || v.lock == None ==> HandOf(v) == HandIn(t))
  {
    assert ThreadOk(n, m, i, v, gave, k);
  }

  // ---------------------------------------------------------------- one link

  /** One of the two servers changes in nothing that concerns the other. */
  lemma LinkUnconcerned(v: Server, gave: seq<Req>, w: Server, given: seq<Req>, x: Server, y: Server)
    requires LinkOk(v, gave, w, given)
    requires Writes(x.hist) == Writes(v.hist) && HandOf(x) == HandOf(v)
    requires Writes(y.hist) == Writes(w.hist) && TaskOf(y) == TaskOf(w)
    ensures LinkOk(x, gave, y, given)
  {
  }

  /** A request or a reply passes between the two. */
  lemma LinkPassed(v: Server, gave: seq<Req>, w: Server, given: seq<Req>, x: Server, y: Server, r: Req)
    requires LinkOk(v, gave, w, given) && x.hist == v.hist && y.hist == w.hist
    requires || (HandOf(v) == Free && HandOf(x) == Sent(r) && TaskOf(y) == Open(r))
             || (HandOf(v) == Sent(r) && HandOf(x) == Got(r) && TaskOf(w).Closed? && TaskOf(y) == Nothing)
    ensures LinkOk(x, gave, y, given)
  {
    hide Covered, HandOf, TaskOf;
  }

  lemma LinkInvokedAbove(v: Server, gave: seq<Req>, w: Server, given: seq<Req>, x: Server, r: Req)
    requires LinkOk(v, gave, w, given)
    requires HandOf(v) == Got(r) && HandOf(x) == Free && Writes(x.hist) == Writes(v.hist) + [r]
    ensures LinkOk(x, gave, w, given)
  {
    hide Covered, HandOf, TaskOf;
    assert Writes(x.hist) + [] == Writes(x.hist);
  }

  lemma LinkInvokedBelow(v: Server, gave: seq<Req>, w: Server, given: seq<Req>, y: Server, r: Req)
    requires LinkOk(v, gave, w, given) && r !in given
    requires TaskOf(w) == Open(r) && TaskOf(y) == Closed(r) && Writes(y.hist) == Writes(w.hist) + [r]
    ensures LinkOk(v, gave, y, given)
  {
    hide Without, LossyChain.Subsequence, HandOf, TaskOf;
    var (g, h) := (Writes(v.hist), Writes(w.hist));
    assert g + [] == g;
    WithoutSnoc(g, r, given);
    SubsequenceSnoc(Without(g, given), h, r);
  }

  lemma LinkGivenUpBelow(v: Server, gave: seq<Req>, w: Server, given: seq<Req>, y: Server, r: Req)
    requires LinkOk(v, gave, w, given) && r !in v.hist
    requires TaskOf(w) == Open(r) && TaskOf(y) == Closed(r) && y.hist == w.hist
    ensures LinkOk(v, gave, y, given + [r])
  {
    hide Without, LossyChain.Subsequence, HandOf, TaskOf;
    var (g, h) := (Writes(v.hist), Writes(w.hist));
    WritesMembers(v.hist, r);
    assert g + [] == g;
    WithoutSnoc(g, r, given + [r]);
    WithoutMore(g, given, r);
    assert Without(g, given) + [] == Without(g, given);
  }

  lemma LinkRequestLost(v: Server, gave: seq<Req>, w: Server, given: seq<Req>, x: Server, r: Req)
    requires LinkOk(v, gave, w, given)
    requires HandOf(v) == HandOf(x) == Free && x.hist == v.hist
    ensures LinkOk(x, gave + [r], w, given)
  {
    hide Covered, HandOf, TaskOf;
  }

  lemma LinkReplyLost(v: Server, gave: seq<Req>, w: Server, given: seq<Req>, x: Server, y: Server, r: Req)
    requires LinkOk(v, gave, w, given)
    requires HandOf(v) == Sent(r) && HandOf(x) == Free && x.hist == v.hist
    requires TaskOf(w).Closed? && TaskOf(y) == Nothing && y.hist == w.hist
    ensures LinkOk(x, gave + [r], y, given)
  {
    hide Without, LossyChain.Subsequence, HandOf, TaskOf;
    var (g, h) := (Writes(v.hist), Writes(w.hist));
    assert g + [] == g;
    WithoutSnoc(g, r, given);
    assert Without(g, given) + [] == Without(g, given);
    if r !in given {
      SubsequenceFront(Without(g, given), r, h);
    }
  }

  lemma LinkNew(v: Server, x: Server)
    requires HandOf(v) == Free && TaskOf(x) == Nothing && Writes(x.hist) == Writes(v.hist)
    ensures LinkOk(v, [], x, [])
  {
    var g := Writes(v.hist);
    assert g + [] == g;
    WithoutNothing(g, []);
    SubsequenceOfItself(g);
  }

  // ---------------------------------------------------------------- one step

  ghost predicate Upper(l: Lossy, i: nat)
    requires 0 < i < |l.s.servers| == |l.gaveUp|
  {
    LinkOk(l.s.servers[i - 1], l.gaveUp[i - 1], l.s.servers[i], l.gaveUp[i])
  }

  ghost predicate Lower(l: Lossy, i: nat)
    requires i + 1 < |l.s.servers| == |l.gaveUp|
  {
    LinkOk(l.s.servers[i], l.gaveUp[i], l.s.servers[i + 1], l.gaveUp[i + 1])
  }

  ghost predicate At(l: Lossy, i: nat) {
    && |l.gaveUp| == |l.s.servers| && i < |l.s.servers|
    && ServerOk(|l.s.servers|, |l.s.arrivals|, i, l.s.servers[i], l.gaveUp[i])
    && (i > 0 ==> Upper(l, i))
    && (i + 1 < |l.s.servers| ==> Lower(l, i))
  }

  lemma Around(l: Lossy, i: nat)
    requires Inv(l) && i < |l.s.servers|
    ensures At(l, i)
  {
    hide ServerOk, LinkOk;
    if i > 0 {
      assert LinkOk(l.s.servers[i - 1], l.gaveUp[i - 1], l.s.servers[i - 1 + 1], l.gaveUp[i - 1 + 1]);
    }
  }

  /** `Inv` after a step, from what the step does to servers `i..j`. */
  lemma Reassemble(l: Lossy, t: Lossy, i: nat, j: nat)
    requires Inv(l) && i <= j <= i + 1 && j < |l.s.servers|
    requires |t.s.servers| == |l.s.servers| == |t.gaveUp| && |l.s.arrivals| <= |t.s.arrivals|
    requires forall x :: 0 <= x < |l.s.servers| && x != i && x != j ==>
      t.s.servers[x] == l.s.servers[x] && t.gaveUp[x] == l.gaveUp[x]
    requires At(t, i) && At(t, j)
    ensures Inv(t)
  {
    hide ServerOk, LinkOk;
    forall x | 0 <= x < |t.s.servers|
      ensures ServerOk(|t.s.servers|, |t.s.arrivals|, x, t.s.servers[x], t.gaveUp[x])
    {
      if x != i && x != j {
        LaterOk(|l.s.servers|, |l.s.arrivals|, x, l.s.servers[x], l.gaveUp[x], |t.s.servers|, |t.s.arrivals|);
      }
    }
    forall x | 0 <= x && x + 1 < |t.s.servers|
      ensures LinkOk(t.s.servers[x], t.gaveUp[x], t.s.servers[x + 1], t.gaveUp[x + 1])
    {
      assert x == i ==> Lower(t, i);
      assert x == j ==> Lower(t, j);
      assert x + 1 == i ==> Upper(t, i);
      assert x + 1 == j ==> Upper(t, j);
    }
  }

  /** A step that changes one server in nothing that concerns its neighbours. */
  lemma Unconcerned(l: Lossy, t: Lossy, i: nat)
    requires Inv(l) && i < |l.s.servers| && t.gaveUp == l.gaveUp && |l.s.arrivals| <= |t.s.arrivals|
    requires |t.s.servers| == |l.s.servers| && t.s.servers == l.s.servers[i := t.s.servers[i]]
    requires ServerOk(|t.s.servers|, |t.s.arrivals|, i, t.s.servers[i], t.gaveUp[i])
    requires var (v, x) := (l.s.servers[i], t.s.servers[i]);
             Writes(x.hist) == Writes(v.hist) && HandOf(x) == HandOf(v) && TaskOf(x) == TaskOf(v)
    ensures Inv(t)
  {
    hide ServerOk, LinkOk, HandOf, TaskOf;
    Around(l, i);
    if i > 0 {
      var u := l.s.servers[i - 1];
      LinkUnconcerned(u, l.gaveUp[i - 1], l.s.servers[i], l.gaveUp[i], u, t.s.servers[i]);
    }
    if i + 1 < |l.s.servers| {
      var w := l.s.servers[i + 1];
      LinkUnconcerned(l.s.servers[i], l.gaveUp[i], w, l.gaveUp[i + 1], t.s.servers[i], w);
    }
    Reassemble(l, t, i, i);
  }

  lemma ArriveKeepsInv(l: Lossy, i: nat, c: nat, msg: Message)
    requires Inv(l) && Possible(l, Plain(Arrive(i, c, msg)))
    ensures Inv(After(l, Plain(Arrive(i, c, msg))))
  {
    hide ServerOk, LinkOk, HandOf, TaskOf, NeedsForward;
    var (n, m, t) := (|l.s.servers|, |l.s.arrivals|, After(l, Plain(Arrive(i, c, msg))));
    var (v, r) := (l.s.servers[i], Req(m, msg));
    LaterOk(n, m, i, v, l.gaveUp[i], n, m + 1);
    UnseenNumber(n, m, i, v, l.gaveUp[i], r);
    ReceivedOk(n, m + 1, i, v, l.gaveUp[i], Client(c), r);
    Unconcerned(l, t, i);
  }

  lemma UnseenNumber(n: nat, m: nat, i: nat, v: Server, gave: seq<Req>, r: Req)
    requires ServerOk(n, m, i, v, gave) && r.id == m
    ensures r !in v.hist && r !in gave
    ensures forall k :: k in v.threads ==> v.threads[k].req != r
  {
    forall k | k in v.threads ensures v.threads[k].req != r {
      assert ThreadOk(n, m, i, v, gave, k);
    }
  }

  lemma AcquireKeepsInv(l: Lossy, i: nat, k: Conn)
    requires Inv(l) && Possible(l, Plain(Acquire(i, k)))
    ensures Inv(After(l, Plain(Acquire(i, k))))
  {
    hide ServerOk, LinkOk, HandOf, TaskOf, NeedsForward;
    var (n, m, t) := (|l.s.servers|, |l.s.arrivals|, After(l, Plain(Acquire(i, k))));
    var v := l.s.servers[i];
    AdvancedOk(n, m, i, v, l.gaveUp[i], k, Locked(v.threads[k].req));
    Unconcerned(l, t, i);
  }

  lemma RespondKeepsInv(l: Lossy, i: nat, c: nat)
    requires Inv(l) && Possible(l, Plain(Respond(i, c)))
    ensures Inv(After(l, Plain(Respond(i, c))))
  {
    hide ServerOk, LinkOk, HandOf, TaskOf, NeedsForward;
    var (n, m, t) := (|l.s.servers|, |l.s.arrivals|, After(l, Plain(Respond(i, c))));
    DroppedOk(n, m, i, l.s.servers[i], l.gaveUp[i], Client(c));
    Unconcerned(l, t, i);
  }

  /** The successor has not seen a write that has not been forwarded to it. */
  lemma UnseenBelow(n: nat, m: nat, i: nat, v: Server, gave: seq<Req>, w: Server, given: seq<Req>, r: Req)
    requires ServerOk(n, m, i + 1, w, given) && Predecessor !in w.threads && LinkOk(v, gave, w, given)
    requires HandOf(v) == Free && r !in v.hist && r !in gave && NeedsForward(r.msg)
    ensures r !in w.hist && r !in given
    ensures forall c :: c in w.threads ==> w.threads[c].req != r
  {
    hide Covered, HandOf, NeedsForward;
    WritesMembers(v.hist, r);
    WritesMembers(w.hist, r);
    forall c | c in w.threads ensures w.threads[c].req != r {
      assert ThreadOk(n, m, i + 1, w, given, c);
    }
  }

  /** A step at server `i` and its successor, which leaves alone what the latter is doing about its own
      successor. */
  lemma PairKeepsInv(l: Lossy, t: Lossy, i: nat)
    requires Inv(l) && i + 1 < |l.s.servers| && t.s.arrivals == l.s.arrivals
    requires |t.s.servers| == |l.s.servers|
    requires t.s.servers == l.s.servers[i := t.s.servers[i]][i + 1 := t.s.servers[i + 1]]
    requires |t.gaveUp| == |l.gaveUp| && t.gaveUp == l.gaveUp[i := t.gaveUp[i]]
    requires t.s.servers[i + 1].hist == l.s.servers[i + 1].hist
    requires HandOf(t.s.servers[i + 1]) == HandOf(l.s.servers[i + 1])
    requires At(t, i) && ServerOk(|t.s.servers|, |t.s.arrivals|, i + 1, t.s.servers[i + 1], t.gaveUp[i + 1])
    ensures Inv(t)
  {
    hide ServerOk, LinkOk, HandOf, TaskOf;
    Around(l, i + 1);
    if i + 2 < |l.s.servers| {
      var x := l.s.servers[i + 2];
      LinkUnconcerned(l.s.servers[i + 1], l.gaveUp[i + 1], x, l.gaveUp[i + 2], t.s.servers[i + 1], x);
    }
    assert Upper(t, i + 1);
    Reassemble(l, t, i, i + 1);
  }

  lemma PassKeepsInv(l: Lossy, i: nat, k: Conn)
    requires Inv(l) && Possible(l, Plain(Pass(i, k)))
    ensures Inv(After(l, Plain(Pass(i, k))))
  {
    hide ServerOk, LinkOk, HandOf, TaskOf, NeedsForward;
    var (n, m, t) := (|l.s.servers|, |l.s.arrivals|, After(l, Plain(Pass(i, k))));
    var (v, w, r) := (l.s.servers[i], l.s.servers[i + 1], l.s.servers[i].threads[k].req);
    Around(l, i);
    ThreadFacts(n, m, i, v, l.gaveUp[i], k);
    UnseenBelow(n, m, i, v, l.gaveUp[i], w, l.gaveUp[i + 1], r);
    AdvancedOk(n, m, i, v, l.gaveUp[i], k, Awaiting(r));
    ReceivedOk(n, m, i + 1, w, l.gaveUp[i + 1], Predecessor, r);
    LinkPassed(v, l.gaveUp[i], w, l.gaveUp[i + 1], t.s.servers[i], t.s.servers[i + 1], r);
    if i > 0 {
      var u := l.s.servers[i - 1];
      LinkUnconcerned(u, l.gaveUp[i - 1], v, l.gaveUp[i], u, t.s.servers[i]);
    }
    PairKeepsInv(l, t, i);
  }

  lemma ReturnKeepsInv(l: Lossy, i: nat, k: Conn)
    requires Inv(l) && Possible(l, Plain(Return(i, k)))
    ensures Inv(After(l, Plain(Return(i, k))))
  {
    hide ServerOk, LinkOk, HandOf, TaskOf, NeedsForward;
    var (n, m, t) := (|l.s.servers|, |l.s.arrivals|, After(l, Plain(Return(i, k))));
    var (v, w, r) := (l.s.servers[i], l.s.servers[i + 1], l.s.servers[i].threads[k].req);
    Around(l, i);
    Around(l, i + 1);
    ThreadFacts(n, m, i, v, l.gaveUp[i], k);
    AdvancedOk(n, m, i, v, l.gaveUp[i], k, Ready(r, w.threads[Predecessor].reply));
    DroppedOk(n, m, i + 1, w, l.gaveUp[i + 1], Predecessor);
    LinkPassed(v, l.gaveUp[i], w, l.gaveUp[i + 1], t.s.servers[i], t.s.servers[i + 1], r);
    if i > 0 {
      var u := l.s.servers[i - 1];
      LinkUnconcerned(u, l.gaveUp[i - 1], v, l.gaveUp[i], u, t.s.servers[i]);
    }
    PairKeepsInv(l, t, i);
  }

  /** While a request is open at a server its predecessor has not invoked it. */
  lemma OpenNotInvokedAbove(l: Lossy, i: nat)
    requires Inv(l) && 0 < i < |l.s.servers| && TaskOf(l.s.servers[i]).Open?
    ensures TaskOf(l.s.servers[i]).r !in l.s.servers[i - 1].hist
  {
    hide ServerOk, Covered;
    Around(l, i);
    Around(l, i - 1);
    var v := l.s.servers[i - 1];
    ThreadFacts(|l.s.servers|, |l.s.arrivals|, i - 1, v, l.gaveUp[i - 1], v.lock.value);
  }

  /** The link above a server that gives up a request, its predecessor's or a client's. */
  lemma GivenUpAbove(l: Lossy, i: nat, k: Conn, x: Server)
    requires Inv(l) && 0 < i && HasThread(l.s, i, k) && Holds(l.s.servers[i].threads[k])
    requires NeedsForward(l.s.servers[i].threads[k].req.msg)
    requires x.hist == l.s.servers[i].hist
    requires k.Predecessor? ==> TaskOf(x) == Closed(l.s.servers[i].threads[k].req)
    ensures LinkOk(l.s.servers[i - 1], l.gaveUp[i - 1], x, l.gaveUp[i] + [l.s.servers[i].threads[k].req])
  {
    hide ServerOk, LinkOk, NeedsForward;
    Around(l, i);
    ThreadFacts(|l.s.servers|, |l.s.arrivals|, i, l.s.servers[i], l.gaveUp[i], k);
    OpenNotInvokedAbove(l, i);
    LinkGivenUpBelow(l.s.servers[i - 1], l.gaveUp[i - 1], l.s.servers[i], l.gaveUp[i], x, l.s.servers[i].threads[k].req);
  }

  lemma LoseRequestKeepsInv(l: Lossy, i: nat, k: Conn)
    requires Inv(l) && Possible(l, LoseRequest(i, k))
    ensures Inv(After(l, LoseRequest(i, k)))
  {
    hide ServerOk, LinkOk, HandOf, TaskOf, NeedsForward, ServedEffect, ServedReply;
    var (n, m, t) := (|l.s.servers|, |l.s.arrivals|, After(l, LoseRequest(i, k)));
    var (v, w, r, x) := (l.s.servers[i], l.s.servers[i + 1], l.s.servers[i].threads[k].req, t.s.servers[i]);
    Around(l, i);
    FinishedOk(n, m, i, v, l.gaveUp[i], k, x, t.gaveUp[i]);
    LinkRequestLost(v, l.gaveUp[i], w, l.gaveUp[i + 1], x, r);
    if i > 0 {
      GivenUpAbove(l, i, k, x);
    }
    Reassemble(l, t, i, i);
  }

  lemma LoseReplyKeepsInv(l: Lossy, i: nat, k: Conn)
    requires Inv(l) && Possible(l, LoseReply(i, k))
    ensures Inv(After(l, LoseReply(i, k)))
  {
    hide ServerOk, LinkOk, HandOf, TaskOf, NeedsForward, ServedEffect, ServedReply;
    var (n, m, t) := (|l.s.servers|, |l.s.arrivals|, After(l, LoseReply(i, k)));
    var (v, w, r, x) := (l.s.servers[i], l.s.servers[i + 1], l.s.servers[i].threads[k].req, t.s.servers[i]);
    Around(l, i);
    Around(l, i + 1);
    ThreadFacts(n, m, i, v, l.gaveUp[i], k);
    FinishedOk(n, m, i, v, l.gaveUp[i], k, x, t.gaveUp[i]);
    DroppedOk(n, m, i + 1, w, l.gaveUp[i + 1], Predecessor);
    LinkReplyLost(v, l.gaveUp[i], w, l.gaveUp[i + 1], x, t.s.servers[i + 1], r);
    if i > 0 {
      GivenUpAbove(l, i, k, x);
    }
    PairKeepsInv(l, t, i);
  }

  lemma ApplyAbove(l: Lossy, i: nat, k: Conn, x: Server)
    requires Inv(l) && 0 < i && HasThread(l.s, i, k) && Holds(l.s.servers[i].threads[k])
    requires x.hist == l.s.servers[i].hist + [l.s.servers[i].threads[k].req]
    requires TaskOf(x) == if k.Predecessor? then Closed(l.s.servers[i].threads[k].req) else TaskOf(l.s.servers[i])
    ensures LinkOk(l.s.servers[i - 1], l.gaveUp[i - 1], x, l.gaveUp[i])
  {
    hide ServerOk, LinkOk, NeedsForward;
    var (u, v, r) := (l.s.servers[i - 1], l.s.servers[i], l.s.servers[i].threads[k].req);
    Around(l, i);
    ThreadFacts(|l.s.servers|, |l.s.arrivals|, i, v, l.gaveUp[i], k);
    WritesSnoc(v.hist, r);
    if k.Predecessor? {
      LinkInvokedBelow(u, l.gaveUp[i - 1], v, l.gaveUp[i], x, r);
    } else {
      LinkUnconcerned(u, l.gaveUp[i - 1], v, l.gaveUp[i], u, x);
    }
  }

  lemma ApplyBelow(l: Lossy, i: nat, k: Conn, x: Server)
    requires Inv(l) && i + 1 < |l.s.servers| && HasThread(l.s, i, k)
    requires var t := l.s.servers[i].threads[k]; t.Ready? || (t.Locked? && !NeedsForward(t.req.msg))
    requires x.hist == l.s.servers[i].hist + [l.s.servers[i].threads[k].req] && HandOf(x) == Free
    ensures LinkOk(x, l.gaveUp[i], l.s.servers[i + 1], l.gaveUp[i + 1])
  {
    hide ServerOk, LinkOk, HandOf, NeedsForward;
    var (v, w, r) := (l.s.servers[i], l.s.servers[i + 1], l.s.servers[i].threads[k].req);
    Around(l, i);
    ThreadFacts(|l.s.servers|, |l.s.arrivals|, i, v, l.gaveUp[i], k);
    WritesSnoc(v.hist, r);
    if v.threads[k].Ready? {
      LinkInvokedAbove(v, l.gaveUp[i], w, l.gaveUp[i + 1], x, r);
    } else {
      LinkUnconcerned(v, l.gaveUp[i], w, l.gaveUp[i + 1], x, w);
    }
  }

  lemma ApplyKeepsInv(l: Lossy, i: nat, k: Conn)
    requires Inv(l) && Possible(l, Plain(Apply(i, k)))
    ensures Inv(After(l, Plain(Apply(i, k))))
  {
    hide ServerOk, LinkOk, HandOf, TaskOf, NeedsForward, ServedEffect, ServedReply;
    var (n, m, t) := (|l.s.servers|, |l.s.arrivals|, After(l, Plain(Apply(i, k))));
    var (v, x) := (l.s.servers[i], t.s.servers[i]);
    Around(l, i);
    FinishedOk(n, m, i, v, l.gaveUp[i], k, x, l.gaveUp[i]);
    if i > 0 {
      ApplyAbove(l, i, k, x);
    }
    if i + 1 < n {
      ApplyBelow(l, i, k, x);
    }
    Reassemble(l, t, i, i);
  }

  /** The last server of a chain has nobody to wait for. */
  lemma TailGivesUpNothing(l: Lossy)
    requires Inv(l)
    ensures l.gaveUp[|l.gaveUp| - 1] == []
  {
    var i := |l.gaveUp| - 1;
    assert ServerOk(|l.s.servers|, |l.s.arrivals|, i, l.s.servers[i], l.gaveUp[i]);
  }

  /** A server has joined behind server `i`. */
  ghost predicate Joins(l: Lossy, t: Lossy, i: nat) {
    && |l.s.servers| == |l.gaveUp| == i + 1 && |t.s.servers| == |t.gaveUp| == i + 2
    && |l.s.arrivals| <= |t.s.arrivals| && l.gaveUp[i] == t.gaveUp[i] == t.gaveUp[i + 1] == []
    && (forall x :: 0 <= x < i ==> t.s.servers[x] == l.s.servers[x] && t.gaveUp[x] == l.gaveUp[x])
    && ServerOk(i + 2, |t.s.arrivals|, i, t.s.servers[i], [])
    && ServerOk(i + 2, |t.s.arrivals|, i + 1, t.s.servers[i + 1], [])
    && Writes(t.s.servers[i].hist) == Writes(l.s.servers[i].hist) == Writes(t.s.servers[i + 1].hist)
    && HandOf(l.s.servers[i]) == HandOf(t.s.servers[i]) == Free
    && TaskOf(l.s.servers[i]) == TaskOf(t.s.servers[i]) && TaskOf(t.s.servers[i + 1]) == Nothing
  }

  /** The parts of the state after a join. */
  lemma JoinParts(l: Lossy)
    requires Possible(l, Plain(Join))
    ensures var (t, i) := (After(l, Plain(Join)), |l.s.servers| - 1);
            var (v, r) := (l.s.servers[i], Req(|l.s.arrivals|, WHOLE_LIST));
            && v.lock == None && |t.s.arrivals| == |l.s.arrivals| + 1
            && |t.s.servers| == i + 2 && t.gaveUp == l.gaveUp + [[]]
            && (forall x :: 0 <= x < i ==> t.s.servers[x] == l.s.servers[x])
            && t.s.servers[i] == Queried(l.s.year, v, r) && t.s.servers[i + 1] == Joined(l.s.year, v, r)
  {
    hide Queried, Joined, Reply;
  }

  lemma JoinServers(l: Lossy)
    requires Inv(l) && Possible(l, Plain(Join))
    ensures Joins(l, After(l, Plain(Join)), |l.s.servers| - 1)
  {
    hide After, Effect, Reply, Received, ServerOk, LinkOk, HandOf, TaskOf, NeedsForward;
    var (n, m, i) := (|l.s.servers|, |l.s.arrivals|, |l.s.servers| - 1);
    var (v, r) := (l.s.servers[i], Req(m, WHOLE_LIST));
    JoinParts(l);
    TailGivesUpNothing(l);
    assert ServerOk(n, m, i, v, []);
    UnseenNumber(n, m, i, v, [], r);
    LaterOk(n, m, i, v, [], n + 1, m + 1);
    QueryIsNoWrite();
    WritesSnoc(v.hist, r);
    QueriedOk(n + 1, m + 1, i, v, r, Queried(l.s.year, v, r));
    JoinedOk(n + 1, m + 1, i, v, r, Joined(l.s.year, v, r));
  }

  lemma QueryIsNoWrite()
    ensures !NeedsForward(WHOLE_LIST)
  {
  }

  lemma QueriedOk(n: nat, m: nat, i: nat, v: Server, r: Req, x: Server)
    requires ServerOk(n, m, i, v, []) && r.id < m && v.lock == None
    requires x.threads == v.threads && x.lock == None && x.hist == v.hist + [r]
    requires forall k :: k in v.threads ==> v.threads[k].req != r
    ensures ServerOk(n, m, i, x, []) && HandOf(v) == HandOf(x) == Free && TaskOf(x) == TaskOf(v)
  {
    forall k | k in x.threads ensures ThreadOk(n, m, i, x, [], k) {
      assert ThreadOk(n, m, i, v, [], k);
    }
  }

  lemma JoinedOk(n: nat, m: nat, i: nat, v: Server, r: Req, x: Server)
    requires ServerOk(n, m, i, v, []) && r.id < m
    requires x.threads == map[] && x.lock == None && x.hist == v.hist + [r]
    ensures ServerOk(n, m, i + 1, x, []) && TaskOf(x) == Nothing
  {
  }

  lemma JoinLinks(l: Lossy, t: Lossy, i: nat)
    requires Inv(l) && Joins(l, t, i)
    ensures Lower(t, i) && (i > 0 ==> Upper(t, i))
  {
    hide ServerOk, LinkOk, HandOf, TaskOf;
    Around(l, i);
    LinkNew(t.s.servers[i], t.s.servers[i + 1]);
    if i > 0 {
      var u := l.s.servers[i - 1];
      LinkUnconcerned(u, l.gaveUp[i - 1], l.s.servers[i], [], u, t.s.servers[i]);
    }
  }

  lemma JoinKeepsInv(l: Lossy)
    requires Inv(l) && Possible(l, Plain(Join))
    ensures Inv(After(l, Plain(Join)))
  {
    hide ServerOk, LinkOk, HandOf, TaskOf, After, Possible;
    var (t, i) := (After(l, Plain(Join)), |l.s.servers| - 1);
    JoinServers(l);
    JoinLinks(l, t, i);
    forall x | 0 <= x < i + 2 ensures ServerOk(i + 2, |t.s.arrivals|, x, t.s.servers[x], t.gaveUp[x]) {
      if x < i {
        LaterOk(i + 1, |l.s.arrivals|, x, l.s.servers[x], l.gaveUp[x], i + 2, |t.s.arrivals|);
      }
    }
    forall x | 0 <= x && x + 1 < i + 2
      ensures LinkOk(t.s.servers[x], t.gaveUp[x], t.s.servers[x + 1], t.gaveUp[x + 1])
    {
      assert x + 1 < i ==> LinkOk(l.s.servers[x], l.gaveUp[x], l.s.servers[x + 1], l.gaveUp[x + 1]);
      assert x + 1 == i ==> Upper(t, i);
    }
  }

  /** Every step of every thread, with or without loss, and every join keeps the invariant. */
  lemma StepKeepsInv(l: Lossy, e: LossyStep)
    requires Inv(l) && Possible(l, e)
    ensures Inv(After(l, e))
  {
    hide Inv, Possible, After;
    match e
    case LoseRequest(i, k) => LoseRequestKeepsInv(l, i, k);
    case LoseReply(i, k) => LoseReplyKeepsInv(l, i, k);
    case Plain(p) =>
      match p
      case Arrive(i, c, msg) => ArriveKeepsInv(l, i, c, msg);
      case Acquire(i, k) => AcquireKeepsInv(l, i, k);
      case Pass(i, k) => PassKeepsInv(l, i, k);
      case Return(i, k) => ReturnKeepsInv(l, i, k);
      case Apply(i, k) => ApplyKeepsInv(l, i, k);
      case Respond(i, c) => RespondKeepsInv(l, i, c);
      case Join => JoinKeepsInv(l);
  }

  // ---------------------------------------------------------------- runs

  ghost predicate StepTo(l: Lossy, t: Lossy) {
    exists e :: Possible(l, e) && t == After(l, e)
  }

  ghost predicate IsRun(run: seq<Lossy>) {
    && |run| > 0 && Initial(run[0].s) && run[0].gaveUp == seq(|run[0].s.servers|, _ => [])
    && forall j :: 0 <= j < |run| - 1 ==> StepTo(run[j], run[j + 1])
  }

  lemma {:induction false} RunKeepsInv(run: seq<Lossy>, x: nat)
    requires IsRun(run) && x < |run|
    ensures Inv(run[x])
  {
    if x == 0 {
      InitialInv(run[0]);
    } else {
      RunKeepsInv(run, x - 1);
      assert StepTo(run[x - 1], run[x - 1 + 1]);
      var e :| Possible(run[x - 1], e) && run[x] == After(run[x - 1], e);
      StepKeepsInv(run[x - 1], e);
    }
  }

  lemma InitialInv(l: Lossy)
    requires Initial(l.s) && l.gaveUp == seq(|l.s.servers|, _ => [])
    ensures Inv(l)
  {
    hide LinkOk;
    forall i | 0 <= i && i + 1 < |l.s.servers|
      ensures LinkOk(l.s.servers[i], l.gaveUp[i], l.s.servers[i + 1], l.gaveUp[i + 1])
    {
      LinkNew(l.s.servers[i], l.s.servers[i + 1]);
    }
  }

  /** In every reachable state a server's log is a subsequence of its successor's exactly when the
      successor has given up none of the writes that the server has invoked. */
  lemma SubsequenceIff(run: seq<Lossy>, x: nat, i: nat)
    requires IsRun(run) && x < |run| && i + 1 < |run[x].s.servers|
    ensures |run[x].gaveUp| == |run[x].s.servers|
    ensures var (g, h) := (ChainTheorems.Log(run[x].s, i), ChainTheorems.Log(run[x].s, i + 1));
            LossyChain.Subsequence(g, h) <==> forall r :: r in g ==> r !in run[x].gaveUp[i + 1]
  {
    RunKeepsInv(run, x);
    var l := run[x];
    var (v, w, given) := (l.s.servers[i], l.s.servers[i + 1], l.gaveUp[i + 1]);
    var (g, h) := (Writes(v.hist), Writes(w.hist));
    Around(l, i);
    Around(l, i + 1);
    InvokedIsCovered(v, l.gaveUp[i], w, given);
    if LossyChain.Subsequence(g, h) {
      forall r | r in g ensures r !in given {
        LossyChain.SubsequenceMembers(g, h, r);
        WritesMembers(w.hist, r);
      }
    }
    if forall r :: r in g ==> r !in given {
      WithoutNothing(g, given);
    }
  }

  lemma InvokedIsCovered(v: Server, gave: seq<Req>, w: Server, given: seq<Req>)
    requires LinkOk(v, gave, w, given)
    ensures Covered(Writes(v.hist), given, Writes(w.hist))
  {
    hide HandOf, TaskOf, LossyChain.Subsequence, Without;
    var (g, ahead) := (Writes(v.hist), Ahead(HandOf(v), TaskOf(w)));
    assert g + [] == g;
    if ahead != [] {
      WithoutSnoc(g, ahead[0], given);
      assert Without(g, given) + [] == Without(g, given);
      if ahead[0] !in given {
        SubsequenceFront(Without(g, given), ahead[0], Writes(w.hist));
      }
    }
  }

  /** Next to the tail that is always so: it never gives anything up. */
  lemma TailMissesNothing(run: seq<Lossy>, x: nat)
    requires IsRun(run) && x < |run| && |run[x].s.servers| >= 2
    ensures var n := |run[x].s.servers|;
            LossyChain.Subsequence(ChainTheorems.Log(run[x].s, n - 2), ChainTheorems.Log(run[x].s, n - 1))
  {
    hide Inv, IsRun, LossyChain.Subsequence;
    RunKeepsInv(run, x);
    TailGivesUpNothing(run[x]);
    SubsequenceIff(run, x, |run[x].s.servers| - 2);
  }

  /** A write that one server has invoked and another one below it has not was given up by some server
      in between, or by the other one itself, and that one is not the tail. */
  lemma {:induction false} MissingWasGivenUp(run: seq<Lossy>, x: nat, i: nat, j: nat, r: Req) returns (m: nat)
    requires IsRun(run) && x < |run| && i <= j < |run[x].s.servers|
    requires r in ChainTheorems.Log(run[x].s, i) && r !in ChainTheorems.Log(run[x].s, j)
    ensures i < m <= j && m + 1 < |run[x].s.servers| == |run[x].gaveUp| && r in run[x].gaveUp[m]
    decreases j - i
  {
    hide ServerOk, Covered, LinkOk;
    RunKeepsInv(run, x);
    var l := run[x];
    Around(l, i);
    if r in ChainTheorems.Log(l.s, i + 1) {
      m := MissingWasGivenUp(run, x, i + 1, j, r);
    } else {
      m := i + 1;
      InvokedIsCovered(l.s.servers[i], l.gaveUp[i], l.s.servers[m], l.gaveUp[m]);
      CoveredMembers(Writes(l.s.servers[i].hist), l.gaveUp[m], Writes(l.s.servers[m].hist), r);
      TailGivesUpNothing(l);
    }
  }

  lemma CoveredMembers(g: seq<Req>, gave: seq<Req>, h: seq<Req>, r: Req)
    requires Covered(g, gave, h) && r in g && r !in h
    ensures r in gave
  {
    WithoutMembers(g, gave, r);
    if r !in gave {
      LossyChain.SubsequenceMembers(Without(g, gave), h, r);
    }
  }

  /** The forwarding of this thread is under way: its request is about to be forwarded, or the reply is
      about to arrive. */
  ghost predicate Forwarding(l: Lossy, i: nat, k: Conn) {
    && HasThread(l.s, i, k) && i + 1 < |l.s.servers|
    && var (t, w) := (l.s.servers[i].threads[k], l.s.servers[i + 1]);
       || (t.Locked? && t.req.msg.opcode in {10, 30, 70})
       || (t.Awaiting? && Predecessor in w.threads && w.threads[Predecessor].Done?)
  }

  lemma ForwardIsPossible(l: Lossy, i: nat, k: Conn) returns (e: LossyStep)
    requires Inv(l) && Forwarding(l, i, k)
    ensures e == (if l.s.servers[i].threads[k].Locked? then LoseRequest(i, k) else LoseReply(i, k)) && Possible(l, e)
    ensures e.LoseRequest? ==> Predecessor !in l.s.servers[i + 1].threads
    ensures NeedsForward(l.s.servers[i].threads[k].req.msg)
  {
    hide ServerOk, Covered, Next, HandOf;
    Around(l, i);
    ThreadFacts(|l.s.servers|, |l.s.arrivals|, i, l.s.servers[i], l.gaveUp[i], k);
    e := if l.s.servers[i].threads[k].Locked? then LoseRequest(i, k) else LoseReply(i, k);
  }

  /** Any forwarding may fail. The server is through with the request then, with an error and no change to
      its list, and its successor has done whatever it had done. */
  lemma ForwardCanFail(run: seq<Lossy>, i: nat, k: Conn) returns (longer: seq<Lossy>)
    requires IsRun(run) && Forwarding(run[|run| - 1], i, k)
    ensures IsRun(longer) && longer != [] && |longer[|longer| - 1].s.servers| == |run[|run| - 1].s.servers|
    ensures var (v, x) := (run[|run| - 1].s.servers[i], longer[|longer| - 1].s.servers[i]);
            var r := v.threads[k].req;
            && x.cars == v.cars && x.hist == v.hist && x.lock == None
            && x.threads == v.threads[k := Done(r, r.msg.(opcode := 99, result := -1))]
    ensures var (w, y) := (run[|run| - 1].s.servers[i + 1], longer[|longer| - 1].s.servers[i + 1]);
            y.cars == w.cars && y.hist == w.hist && y.threads == w.threads - {Predecessor}
  {
    hide Inv, Initial, StepTo, Next, NeedsForward;
    RunKeepsInv(run, |run| - 1);
    var e := ForwardIsPossible(run[|run| - 1], i, k);
    longer := RunStep(run, e);
    var w := run[|run| - 1].s.servers[i + 1];
    assert e.LoseRequest? ==> w.threads - {Predecessor} == w.threads;
  }

  // ---------------------------------------------------------------- a failure that stays hidden

  lemma RunStep(run: seq<Lossy>, e: LossyStep) returns (longer: seq<Lossy>)
    requires IsRun(run) && Possible(run[|run| - 1], e)
    ensures IsRun(longer) && longer != [] && longer[|longer| - 1] == After(run[|run| - 1], e)
  {
    hide Possible, After, Initial;
    longer := run + [After(run[|run| - 1], e)];
    assert StepTo(run[|run| - 1], After(run[|run| - 1], e));
    forall j | 0 <= j < |longer| - 1 ensures StepTo(longer[j], longer[j + 1]) {
      assert j < |run| - 1 ==> StepTo(run[j], run[j + 1]);
    }
  }

  /** The write has come down to the second of three servers, which is about to forward it. */
  lemma ComesDown(year: int, msg: Message) returns (run: seq<Lossy>)
    requires NeedsForward(msg)
    ensures IsRun(run) && run != []
    ensures var (l, r) := (run[|run| - 1], Req(0, msg));
            && l.gaveUp == [[], [], []] && l.s.year == year && |l.s.servers| == 3
            && l.s.servers[0] == Server([], [], Some(Client(0)), map[Client(0) := Awaiting(r)])
            && l.s.servers[1] == Server([], [], Some(Predecessor), map[Predecessor := Locked(r)])
            && l.s.servers[2] == IDLE_SERVER
  {
    hide Effect, Reply, Received, NeedsForward, IsRun;
    var l := Lossy(State(year, [IDLE_SERVER, IDLE_SERVER, IDLE_SERVER], [], map[]), [[], [], []]);
    run := StartRun(l);
    run := RunStep(run, Plain(Arrive(0, 0, msg)));
    run := RunStep(run, Plain(Acquire(0, Client(0))));
    run := RunStep(run, Plain(Pass(0, Client(0))));
    run := RunStep(run, Plain(Acquire(1, Predecessor)));
    l := run[|run| - 1];
    assert l.s.servers[0].threads == map[Client(0) := Awaiting(Req(0, msg))];
    assert l.s.servers[1].threads == map[Predecessor := Locked(Req(0, msg))];
  }

  lemma StartRun(l: Lossy) returns (run: seq<Lossy>)
    requires Initial(l.s) && |l.gaveUp| == |l.s.servers| && forall i :: 0 <= i < |l.gaveUp| ==> l.gaveUp[i] == []
    ensures IsRun(run) && run != [] && run[|run| - 1] == l
  {
    run := [l];
    assert l.gaveUp == seq(|l.s.servers|, _ => []);
  }

  /** The second of three servers does not reach the third, so it gives the write up; the head takes the
      error that it is sent for the reply, and invokes the write alone. */
  lemma HiddenFailureRun(year: int, msg: Message) returns (run: seq<Lossy>)
    requires NeedsForward(msg)
    ensures IsRun(run) && run != []
    ensures var (l, r) := (run[|run| - 1], Req(0, msg));
            && |l.s.servers| == 3 && l.gaveUp == [[], [r], []]
            && l.s.servers[0].hist == [r] && l.s.servers[1].hist == l.s.servers[2].hist == []
            && 0 in l.s.acked && l.s.acked[0].reply == Reply(year, msg, [])
  {
    hide Effect, Reply, Received, NeedsForward, IsRun;
    run := ComesDown(year, msg);
    run := RunStep(run, LoseRequest(1, Predecessor));
    assert [] + [Req(0, msg)] == [Req(0, msg)];
    assert run[|run| - 1].gaveUp == [[], [Req(0, msg)], []];
    run := RunStep(run, Plain(Return(0, Client(0))));
    run := RunStep(run, Plain(Apply(0, Client(0))));
    run := RunStep(run, Plain(Respond(0, 0)));
  }

  /** The tail of two servers has invoked the write and is about to reply to the head. */
  lemma InvokedBelow(year: int, msg: Message) returns (run: seq<Lossy>)
    requires NeedsForward(msg)
    ensures IsRun(run) && run != []
    ensures var (l, r) := (run[|run| - 1], Req(0, msg));
            && l.gaveUp == [[], []] && |l.s.servers| == 2
            && l.s.servers[0] == Server([], [], Some(Client(0)), map[Client(0) := Awaiting(r)])
            && l.s.servers[1].hist == [r]
            && Predecessor in l.s.servers[1].threads && l.s.servers[1].threads[Predecessor].Done?
  {
    hide Effect, Reply, Received, NeedsForward, IsRun;
    run := StartRun(Lossy(State(year, [IDLE_SERVER, IDLE_SERVER], [], map[]), [[], []]));
    run := RunStep(run, Plain(Arrive(0, 0, msg)));
    run := RunStep(run, Plain(Acquire(0, Client(0))));
    run := RunStep(run, Plain(Pass(0, Client(0))));
    run := RunStep(run, Plain(Acquire(1, Predecessor)));
    run := RunStep(run, Plain(Apply(1, Predecessor)));
    assert run[|run| - 1].s.servers[0].threads == map[Client(0) := Awaiting(Req(0, msg))];
  }

  /** The tail of two servers invokes the write, its reply is lost, and the client is told that the write
      failed. */
  lemma ErrorThoughInvoked(year: int, msg: Message) returns (run: seq<Lossy>)
    requires NeedsForward(msg)
    ensures IsRun(run) && run != []
    ensures var (l, r) := (run[|run| - 1], Req(0, msg));
            && |l.s.servers| == 2 && l.gaveUp == [[r], []]
            && l.s.servers[0].hist == [] && l.s.servers[1].hist == [r]
            && 0 in l.s.acked && l.s.acked[0].reply == msg.(opcode := 99, result := -1)
  {
    hide Effect, Reply, Received, NeedsForward, IsRun;
    run := InvokedBelow(year, msg);
    run := RunStep(run, LoseReply(0, Client(0)));
    assert [] + [Req(0, msg)] == [Req(0, msg)];
    assert run[|run| - 1].gaveUp == [[Req(0, msg)], []];
    run := RunStep(run, Plain(Respond(0, 0)));
  }
}
